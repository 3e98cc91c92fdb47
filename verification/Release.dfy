/** go-bindata's printing of file contents as Go source (`release.go`): `sanitize` cuts the bytes
    at backquotes and byte-order marks and prints a parenthesised concatenation of string literals. */
module Release {
  import opened Wrappers

  newtype byte = x: int | 0 <= x < 256

  type bytes = seq<byte>

  const BACKQUOTE: bytes := [96]
  const BOM: bytes := [0xEF, 0xBB, 0xBF]
  const CR: byte := 13
  const OPEN: bytes := [40]
  const CLOSE: bytes := [41]
  const PLUS: bytes := [32, 43, 32]
  const QUOTED_BACKQUOTE: bytes := [34, 96, 34]
  /** "\xEF\xBB\xBF" between double quotes. */
  const QUOTED_BOM: bytes := [34, 92, 120, 69, 70, 92, 120, 66, 66, 92, 120, 66, 70, 34]

  // ---------------------------------------------------------------- searching and splitting

  predicate OccursAt(b: bytes, sep: bytes, i: nat) {
    i + |sep| <= |b| && b[i..i + |sep|] == sep
  }

  predicate Contains(b: bytes, sep: bytes) {
    exists i: nat | i <= |b| :: OccursAt(b, sep, i)
  }

  /** Where sep first occurs, from position i on. */
  function Find(b: bytes, sep: bytes, i: nat): (r: Option<nat>)
    requires i <= |b|
    ensures r.Some? ==> i <= r.value && OccursAt(b, sep, r.value) && forall j | i <= j < r.value :: !OccursAt(b, sep, j)
    ensures r.None? ==> forall j | i <= j <= |b| :: !OccursAt(b, sep, j)
    decreases |b| - i
  {
    if OccursAt(b, sep, i) then Some(i) else if i == |b| then None else Find(b, sep, i + 1)
  }

  /** `bytes.Split` for a separator that is not empty. */
  function Split(b: bytes, sep: bytes): (pieces: seq<bytes>)
    requires sep != []
    ensures pieces != []
  {
    var i := Find(b, sep, 0);
    if i.None? then [b] else [b[..i.value]] + Split(b[i.value + |sep|..], sep)
  }

  function Join(pieces: seq<bytes>, sep: bytes): bytes
    requires pieces != []
  {
    if |pieces| == 1 then pieces[0] else pieces[0] + sep + Join(pieces[1..], sep)
  }

  lemma {:induction false} JoinSplit(b: bytes, sep: bytes)
    requires sep != []
    ensures Join(Split(b, sep), sep) == b
    decreases |b|
  {
    var i := Find(b, sep, 0);
    if i.None? {
    } else {
      var rest := b[i.value + |sep|..];
      JoinSplit(rest, sep);
      assert Split(b, sep)[1..] == Split(rest, sep);
      assert b == b[..i.value] + b[i.value..i.value + |sep|] + rest;
    }
  }

  lemma {:induction false} PiecesAreFree(b: bytes, sep: bytes, k: nat)
    requires sep != [] && k < |Split(b, sep)|
    ensures !Contains(Split(b, sep)[k], sep)
    decreases |b|
  {
    hide Contains;
    var i := Find(b, sep, 0);
    assert i.Some? ==> i.value + |sep| <= |b|;
    hide OccursAt;
    if i.None? {
      assert Split(b, sep)[k] == b == b[..|b|];
      FrontIsFree(b, sep, |b|);
    } else if k > 0 {
      var rest := b[i.value + |sep|..];
      PiecesAreFree(rest, sep, k - 1);
      assert Split(b, sep)[k] == Split(rest, sep)[k - 1];
    } else {
      FrontIsFree(b, sep, i.value);
    }
  }

  /** Before its first occurrence the separator does not occur. */
  lemma FrontIsFree(b: bytes, sep: bytes, i: nat)
    requires i <= |b| && forall j: nat | j < i :: !OccursAt(b, sep, j)
    requires sep != []
    ensures !Contains(b[..i], sep)
  {
    forall j: nat | j <= i ensures !OccursAt(b[..i], sep, j) {
      if j + |sep| <= i {
        assert b[..i][j..j + |sep|] == b[j..j + |sep|];
        assert !OccursAt(b, sep, j);
      }
    }
  }

  /** Cutting at one separator keeps the pieces free of another byte. */
  lemma {:induction false} PiecesHaveNoMore(b: bytes, sep: bytes, k: nat, x: byte)
    requires sep != [] && k < |Split(b, sep)| && x !in b
    ensures x !in Split(b, sep)[k]
    decreases |b|
  {
    var i := Find(b, sep, 0);
    if i.None? || k == 0 {
    } else {
      PiecesHaveNoMore(b[i.value + |sep|..], sep, k - 1, x);
    }
  }

  // ---------------------------------------------------------------- chunks

  /** A chunk is a backquote, a byte-order mark, or bytes with neither. */
  predicate GoodChunk(c: bytes) {
    c == BACKQUOTE || c == BOM || (c != [] && BACKQUOTE[0] !in c && !Contains(c, BOM))
  }

  predicate GoodChunks(chunks: seq<bytes>) {
    forall c <- chunks :: GoodChunk(c)
  }

  function Flatten(chunks: seq<bytes>): bytes {
    if chunks == [] then [] else chunks[0] + Flatten(chunks[1..])
  }

  lemma FlattenHead(c: bytes, s: seq<bytes>)
    ensures Flatten([c] + s) == c + Flatten(s)
  {
    assert ([c] + s)[1..] == s;
  }

  lemma {:induction false} FlattenConcat(a: seq<bytes>, b: seq<bytes>)
    ensures Flatten(a + b) == Flatten(a) + Flatten(b)
  {
    if a == [] {
      assert a + b == b;
    } else {
      hide Flatten;
      var c, s := a[0], a[1..];
      assert a == [c] + s && a + b == [c] + (s + b);
      calc {
        Flatten(a + b);
      == { FlattenHead(c, s + b); }
        c + Flatten(s + b);
      == { FlattenConcat(s, b); }
        c + (Flatten(s) + Flatten(b));
      == { FlattenHead(c, s); }
        Flatten(a) + Flatten(b);
      }
    }
  }

  /** What is printed for a chunk. */
  function Literal(c: bytes): bytes {
    if c == BACKQUOTE then QUOTED_BACKQUOTE
    else if c == BOM then QUOTED_BOM
    else BACKQUOTE + c + BACKQUOTE
  }

  function Printed(chunks: seq<bytes>): bytes
    requires chunks != []
  {
    var n := |chunks|;
    if n >= 2 then OPEN + Printed(chunks[..n / 2]) + PLUS + Printed(chunks[n / 2..]) + CLOSE else Literal(chunks[0])
  }

  class Buffer {
    var data: bytes

    constructor ()
      ensures data == []
    {
      data := [];
    }

    method Write(b: bytes)
      modifies this
      ensures data == old(data) + b
    {
      data := data + b;
    }
  }

  method SanitizeChunks(buf: Buffer, chunks: seq<bytes>)
    requires chunks != []
    modifies buf
    ensures buf.data == old(buf.data) + Printed(chunks)
    decreases |chunks|
  {
    var n := |chunks|;
    ghost var was := buf.data;
    if n >= 2 {
      ghost var left, right := Printed(chunks[..n / 2]), Printed(chunks[n / 2..]);
      assert Printed(chunks) == OPEN + left + PLUS + right + CLOSE;
      hide Printed;
      hide Literal;
      buf.Write(OPEN);
      SanitizeChunks(buf, chunks[..n / 2]);
      assert buf.data == was + (OPEN + left);
      buf.Write(PLUS);
      SanitizeChunks(buf, chunks[n / 2..]);
      assert buf.data == was + (OPEN + left + PLUS + right);
      buf.Write(CLOSE);
    } else {
      WriteLiteral(buf, chunks[0]);
    }
  }

  /** The end of `sanitizeChunks`, for a single chunk. */
  method WriteLiteral(buf: Buffer, b: bytes)
    modifies buf
    ensures buf.data == old(buf.data) + Literal(b)
  {
    if b == BACKQUOTE {
      buf.Write(QUOTED_BACKQUOTE);
      return;
    }
    if b == BOM {
      buf.Write(QUOTED_BOM);
      return;
    }
    ghost var was := buf.data;
    buf.Write(BACKQUOTE);
    buf.Write(b);
    buf.Write(BACKQUOTE);
    assert buf.data == was + (BACKQUOTE + b + BACKQUOTE);
  }

  // ---------------------------------------------------------------- Go's reading of it

  function HexValue(d: byte): Option<int> {
    if 48 <= d <= 57 then Some(d as int - 48)
    else if 65 <= d <= 70 then Some(d as int - 55)
    else if 97 <= d <= 102 then Some(d as int - 87)
    else None
  }

  /** What is left of a text, and what the part read denotes. */
  datatype Parsed = Parsed(value: bytes, rest: bytes)

  function WithoutCR(b: bytes): bytes {
    if b == [] then [] else (if b[0] == CR then [] else [b[0]]) + WithoutCR(b[1..])
  }

  /** After the opening backquote: everything up to the next one, carriage returns discarded. A
      byte-order mark is not allowed inside. */
  function ReadRaw(s: bytes): (r: Option<Parsed>)
    ensures r.Some? ==> |r.value.rest| < |s|
  {
    var i := Find(s, BACKQUOTE, 0);
    if i.None? || Contains(s[..i.value], BOM) then None
    else Some(Parsed(WithoutCR(s[..i.value]), s[i.value + 1..]))
  }

  /** After the opening double quote: bytes and hexadecimal escapes up to the closing one. */
  function ReadQuoted(s: bytes): (r: Option<Parsed>)
    ensures r.Some? ==> |r.value.rest| < |s|
  {
    if s == [] || s[0] == 10 then None
    else if s[0] == 34 then Some(Parsed([], s[1..]))
    else if s[0] != 92 then
      match ReadQuoted(s[1..]) case None => None case Some(p) => Some(Parsed([s[0]] + p.value, p.rest))
    else if |s| < 4 || s[1] != 120 || HexValue(s[2]).None? || HexValue(s[3]).None? then None
    else
      var v := (16 * HexValue(s[2]).value + HexValue(s[3]).value) as byte;
      match ReadQuoted(s[4..]) case None => None case Some(p) => Some(Parsed([v] + p.value, p.rest))
  }

  /** A string literal or a parenthesised sum of two expressions, and what it denotes. */
  function ReadExpr(s: bytes): (r: Option<Parsed>)
    ensures r.Some? ==> |r.value.rest| < |s|
    decreases |s|
  {
    if s == [] then None
    else if s[0] == 96 then ReadRaw(s[1..])
    else if s[0] == 34 then ReadQuoted(s[1..])
    else if s[0] != 40 then None
    else
      var left := ReadExpr(s[1..]);
      if left.None? || !(PLUS <= left.value.rest) then None
      else
        var right := ReadExpr(left.value.rest[3..]);
        if right.None? || !(CLOSE <= right.value.rest) then None
        else Some(Parsed(left.value.value + right.value.value, right.value.rest[1..]))
  }

  /** The value of a text that is one expression. */
  function Evaluate(s: bytes): Option<bytes> {
    match ReadExpr(s)
    case None => None
    case Some(p) => if p.rest == [] then Some(p.value) else None
  }

  lemma WithoutCRHead(x: byte, s: bytes)
    ensures WithoutCR([x] + s) == (if x == CR then [] else [x]) + WithoutCR(s)
  {
    assert ([x] + s)[1..] == s;
  }

  lemma {:induction false} WithoutCRConcat(a: bytes, b: bytes)
    ensures WithoutCR(a + b) == WithoutCR(a) + WithoutCR(b)
  {
    if a == [] {
      assert a + b == b;
    } else {
      var x, s := a[0], a[1..];
      WithoutCRConcat(s, b);
      WithoutCRHead(x, s);
      WithoutCRHead(x, s + b);
      assert a == [x] + s && a + b == [x] + (s + b);
      hide WithoutCR;
    }
  }

  /** A literal reads back as its chunk, carriage returns lost. */
  lemma ReadLiteral(c: bytes, rest: bytes)
    requires GoodChunk(c)
    ensures ReadExpr(Literal(c) + rest) == Some(Parsed(WithoutCR(c), rest))
  {
    if c == BACKQUOTE {
      ReadBackquote(rest);
    } else if c == BOM {
      ReadBom(rest);
    } else {
      ReadRawChunk(c, rest);
    }
  }

  lemma ReadBackquote(rest: bytes)
    ensures ReadExpr(QUOTED_BACKQUOTE + rest) == Some(Parsed(WithoutCR(BACKQUOTE), rest))
  {
    var s := QUOTED_BACKQUOTE + rest;
    assert s[1..] == [96, 34] + rest && s[1..][1..] == [34] + rest && ([34] + rest)[1..] == rest;
    assert ReadQuoted([34] + rest) == Some(Parsed([], rest));
    assert ReadQuoted(s[1..]) == Some(Parsed([96] + [], rest));
    assert BACKQUOTE[1..] == [];
  }

  lemma ReadEscape(h: byte, l: byte, s: bytes)
    requires HexValue(h).Some? && HexValue(l).Some? && ReadQuoted(s).Some?
    ensures ReadQuoted([92, 120, h, l] + s) ==
              Some(Parsed([(16 * HexValue(h).value + HexValue(l).value) as byte] + ReadQuoted(s).value.value,
                          ReadQuoted(s).value.rest))
  {
    assert ([92, 120, h, l] + s)[4..] == s;
  }

  lemma ReadBom(rest: bytes)
    ensures ReadExpr(QUOTED_BOM + rest) == Some(Parsed(WithoutCR(BOM), rest))
  {
    var s := BomEscapes(rest);
    assert QUOTED_BOM + rest == [34] + s && ([34] + s)[1..] == s;
    ReadBomEscapes(rest);
    BomHasNoCR();
    hide BomEscapes;
    hide ReadQuoted;
    hide WithoutCR;
  }

  function BomEscapes(rest: bytes): bytes {
    [92, 120, 69, 70] + ([92, 120, 66, 66] + ([92, 120, 66, 70] + ([34] + rest)))
  }

  lemma ReadBomEscapes(rest: bytes)
    ensures ReadQuoted(BomEscapes(rest)) == Some(Parsed(BOM, rest))
  {
    var s0 := [34] + rest;
    assert s0[1..] == rest && ReadQuoted(s0) == Some(Parsed([], rest));
    hide ReadQuoted;
    ReadEscape(66, 70, s0);
    ReadEscape(66, 66, [92, 120, 66, 70] + s0);
    ReadEscape(69, 70, [92, 120, 66, 66] + ([92, 120, 66, 70] + s0));
    assert BOM == [0xEF] + ([0xBB] + ([0xBF] + []));
  }

  lemma BomHasNoCR()
    ensures WithoutCR(BOM) == BOM
  {
    assert BOM[1..] == [0xBB, 0xBF] && BOM[1..][1..] == [0xBF] && BOM[1..][1..][1..] == [];
    assert WithoutCR(BOM[1..][1..]) == [0xBF] && WithoutCR(BOM[1..]) == [0xBB, 0xBF];
  }

  lemma ReadRawChunk(c: bytes, rest: bytes)
    requires BACKQUOTE[0] !in c && !Contains(c, BOM)
    ensures ReadExpr(BACKQUOTE + c + BACKQUOTE + rest) == Some(Parsed(WithoutCR(c), rest))
  {
    var s := BACKQUOTE + c + BACKQUOTE + rest;
    var t := c + BACKQUOTE + rest;
    assert s[1..] == t;
    assert OccursAt(t, BACKQUOTE, |c|);
    forall j: nat | j < |c| ensures !OccursAt(t, BACKQUOTE, j) {
      assert t[j..j + 1][0] == c[j];
    }
    assert Find(t, BACKQUOTE, 0) == Some(|c|);
    assert t[..|c|] == c && t[|c| + 1..] == rest;
  }

  lemma ReadParenthesised(s: bytes, t: bytes, rest: bytes, v: bytes, w: bytes)
    requires s != [] && s[0] == OPEN[0]
    requires ReadExpr(s[1..]) == Some(Parsed(v, PLUS + t))
    requires ReadExpr(t) == Some(Parsed(w, CLOSE + rest))
    ensures ReadExpr(s) == Some(Parsed(v + w, rest))
  {
    hide ReadRaw;
    hide ReadQuoted;
    assert (PLUS + t)[3..] == t && (CLOSE + rest)[1..] == rest;
  }

  lemma ReadSum(left: bytes, right: bytes, rest: bytes, v: bytes, w: bytes)
    requires ReadExpr(left + (PLUS + (right + (CLOSE + rest)))) == Some(Parsed(v, PLUS + (right + (CLOSE + rest))))
    requires ReadExpr(right + (CLOSE + rest)) == Some(Parsed(w, CLOSE + rest))
    ensures ReadExpr(OPEN + left + PLUS + right + CLOSE + rest) == Some(Parsed(v + w, rest))
  {
    hide ReadExpr;
    var t := right + (CLOSE + rest);
    var s := OPEN + (left + (PLUS + t));
    assert s[1..] == left + (PLUS + t);
    ReadParenthesised(s, t, rest, v, w);
    assert OPEN + left + PLUS + right + CLOSE + rest == s;
  }

  /** Whatever the nesting, the printed sum reads back as the chunks in order. */
  lemma {:induction false} ReadPrinted(chunks: seq<bytes>, rest: bytes)
    requires chunks != [] && GoodChunks(chunks)
    ensures ReadExpr(Printed(chunks) + rest) == Some(Parsed(WithoutCR(Flatten(chunks)), rest))
    decreases |chunks|
  {
    hide ReadExpr;
    hide WithoutCR;
    hide Literal;
    var n := |chunks|;
    if n >= 2 {
      var a, b := chunks[..n / 2], chunks[n / 2..];
      ReadPrinted(a, PLUS + (Printed(b) + (CLOSE + rest)));
      ReadPrinted(b, CLOSE + rest);
      ReadSum(Printed(a), Printed(b), rest, WithoutCR(Flatten(a)), WithoutCR(Flatten(b)));
      FlattenConcat(a, b);
      assert a + b == chunks;
      WithoutCRConcat(Flatten(a), Flatten(b));
    } else {
      ReadLiteral(chunks[0], rest);
      assert chunks[1..] == [] && Flatten(chunks) == chunks[0];
    }
    hide Flatten;
    hide GoodChunk;
  }

  // ---------------------------------------------------------------- sanitize

  /** What one piece between backquotes adds: its own pieces, with the marks that separated them. */
  method AddPieces(chunks: seq<bytes>, piece: bytes) returns (more: seq<bytes>)
    requires GoodChunks(chunks) && BACKQUOTE[0] !in piece
    ensures GoodChunks(more) && Flatten(more) == Flatten(chunks) + piece
  {
    more := chunks;
    var pieces := Split(piece, BOM);
    JoinSplit(piece, BOM);
    hide Flatten;
    hide GoodChunks;
    for j := 0 to |pieces|
      invariant GoodChunks(more)
      invariant Flatten(more) == Flatten(chunks) + JoinedUpTo(pieces, BOM, j)
    {
      var c := pieces[j];
      PiecesAreFree(piece, BOM, j);
      PiecesHaveNoMore(piece, BOM, j, BACKQUOTE[0]);
      ghost var was := more;
      if j > 0 {
        more := more + [BOM];
      }
      if |c| > 0 {
        more := more + [c];
      }
      PieceAdded(was, c, j > 0);
      JoinedStep(Flatten(chunks), pieces, BOM, j);
      assert more == WithPiece(was, c, j > 0);
    }
    JoinedAll(pieces, BOM);
  }

  function WithPiece(chunks: seq<bytes>, c: bytes, marked: bool): seq<bytes> {
    var mid := if marked then chunks + [BOM] else chunks;
    if c == [] then mid else mid + [c]
  }

  lemma JoinedStep(before: bytes, pieces: seq<bytes>, sep: bytes, n: nat)
    requires n < |pieces|
    ensures before + JoinedUpTo(pieces, sep, n + 1) == before + JoinedUpTo(pieces, sep, n)
            + ((if n > 0 then sep else []) + pieces[n])
  {
  }

  lemma PieceAdded(chunks: seq<bytes>, c: bytes, marked: bool)
    requires GoodChunks(chunks) && BACKQUOTE[0] !in c && !Contains(c, BOM)
    ensures var more := WithPiece(chunks, c, marked);
            GoodChunks(more) && Flatten(more) == Flatten(chunks) + ((if marked then BOM else []) + c)
  {
    var mid := if marked then chunks + [BOM] else chunks;
    assert GoodChunk(BOM) && (c != [] ==> GoodChunk(c));
    if marked { AddChunk(chunks, BOM); }
    if c != [] { AddChunk(mid, c); }
    hide Flatten;
    hide GoodChunks;
  }

  lemma AddChunk(chunks: seq<bytes>, c: bytes)
    requires GoodChunks(chunks) && GoodChunk(c)
    ensures GoodChunks(chunks + [c]) && Flatten(chunks + [c]) == Flatten(chunks) + c
  {
    FlattenConcat(chunks, [c]);
    assert [c][1..] == [];
  }

  /** The first n pieces with the separators before all but the first. */
  function JoinedUpTo(pieces: seq<bytes>, sep: bytes, n: nat): bytes
    requires n <= |pieces|
  {
    if n == 0 then [] else JoinedUpTo(pieces, sep, n - 1) + (if n > 1 then sep else []) + pieces[n - 1]
  }

  lemma {:induction false} JoinedFrom(pieces: seq<bytes>, sep: bytes, n: nat)
    requires 0 < n <= |pieces|
    ensures JoinedUpTo(pieces, sep, n) == pieces[0] + if n == 1 then [] else sep + JoinedUpTo(pieces[1..], sep, n - 1)
  {
    if n <= 1 {
    } else {
      JoinedFrom(pieces, sep, n - 1);
    }
  }

  lemma {:induction false} JoinedAll(pieces: seq<bytes>, sep: bytes)
    requires pieces != []
    ensures JoinedUpTo(pieces, sep, |pieces|) == Join(pieces, sep)
  {
    JoinedFrom(pieces, sep, |pieces|);
    if |pieces| <= 1 {
    } else {
      JoinedAll(pieces[1..], sep);
    }
  }

  /** `sanitize`: fails, with an index out of range, exactly on empty input; otherwise the printed
      expression evaluates to the input without its carriage returns, which is the input exactly
      when it has none. */
  method Sanitize(b: bytes) returns (printed: Option<bytes>)
    ensures printed.None? <==> b == []
    ensures printed.Some? ==> Evaluate(printed.value) == Some(WithoutCR(b))
    ensures printed.Some? ==> (Evaluate(printed.value) == Some(b) <==> CR !in b)
  {
    var chunks: seq<bytes> := [];
    var pieces := Split(b, BACKQUOTE);
    JoinSplit(b, BACKQUOTE);
    for i := 0 to |pieces|
      invariant GoodChunks(chunks) && Flatten(chunks) == JoinedUpTo(pieces, BACKQUOTE, i)
    {
      PiecesAreFree(b, BACKQUOTE, i);
      NoBackquote(pieces[i]);
      if i > 0 {
        AddChunk(chunks, BACKQUOTE);
        chunks := chunks + [BACKQUOTE];
      }
      chunks := AddPieces(chunks, pieces[i]);
    }
    JoinedAll(pieces, BACKQUOTE);
    if chunks == [] {
      return None;
    }
    FlattenNonempty(chunks);
    var buf := new Buffer();
    SanitizeChunks(buf, chunks);
    ReadPrinted(chunks, []);
    NothingLostExactly(b);
    assert Printed(chunks) + [] == Printed(chunks) == [] + Printed(chunks);
    return Some(buf.data);
  }

  lemma NoBackquote(c: bytes)
    requires !Contains(c, BACKQUOTE)
    ensures BACKQUOTE[0] !in c
  {
    if BACKQUOTE[0] in c {
      var i: nat :| i < |c| && c[i] == BACKQUOTE[0];
      assert c[i..i + 1] == BACKQUOTE;
      assert OccursAt(c, BACKQUOTE, i);
    }
  }

  lemma FlattenNonempty(chunks: seq<bytes>)
    requires chunks != [] && GoodChunks(chunks)
    ensures Flatten(chunks) != []
  {
    assert GoodChunk(chunks[0]);
  }

  /** So the input comes back exactly when it has no carriage return. */
  lemma {:induction false} NothingLostExactly(b: bytes)
    ensures WithoutCR(b) == b <==> CR !in b
    ensures |WithoutCR(b)| <= |b|
  {
    if b == [] {
    } else {
      NothingLostExactly(b[1..]);
      assert b == [b[0]] + b[1..];
      if b[0] == CR {
        assert |WithoutCR(b)| < |b|;
      } else {
        assert WithoutCR(b)[1..] == WithoutCR(b[1..]);
      }
    }
  }
}

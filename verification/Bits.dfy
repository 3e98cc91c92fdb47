/** go-bindata's formatting of sizes (`bits.go`): a number of bits is written from the tail of a
    ten-character buffer, in the largest unit that leaves something before the decimal point. */
module Bits {
  // ---------------------------------------------------------------- what is written

  function Digit(d: nat): char
    requires d < 10
  {
    '0' + d as char
  }

  /** Decimal digits of v. */
  function IntText(v: nat): string {
    if v < 10 then [Digit(v)] else IntText(v / 10) + [Digit(v % 10)]
  }

  /** The last prec digits of v, without the zeros at the end unless `keep` says to keep them. */
  function FracText(v: nat, prec: nat, keep: bool): string {
    if prec == 0 then ""
    else
      var p := keep || v % 10 != 0;
      FracText(v / 10, prec - 1, p) + if p then [Digit(v % 10)] else ""
  }

  /** v without its last n digits. */
  function Shift(v: nat, n: nat): nat {
    if n == 0 then v else Shift(v, n - 1) / 10
  }

  /** Writes v before position end; the text begins at w. */
  method FmtInt(buf: array<char>, end: nat, v: nat) returns (w: nat)
    requires |IntText(v)| <= end <= buf.Length
    modifies buf
    ensures w == end - |IntText(v)| && buf[w..end] == IntText(v)
    ensures buf[..w] == old(buf[..w]) && buf[end..] == old(buf[end..])
  {
    w := end;
    if v == 0 {
      w := w - 1;
      buf[w] := '0';
    } else {
      var u := v;
      ghost var text := IntText(v);
      while u > 0
        invariant w <= end && text == IntText(v)
        invariant text == (if u == 0 then "" else IntText(u)) + buf[w..end]
        invariant buf[..w] == old(buf[..w]) && buf[end..] == old(buf[end..])
      {
        ghost var tail := buf[w..end];
        w := w - 1;
        buf[w] := Digit(u % 10);
        assert buf[w..end] == [Digit(u % 10)] + tail;
        u := u / 10;
      }
    }
  }

  /** Writes the last prec digits of v, as a fraction, before position end; hands back the rest. */
  method FmtFrac(buf: array<char>, end: nat, v: nat, prec: nat) returns (w: nat, rest: nat)
    requires prec + 1 <= end <= buf.Length
    modifies buf
    ensures rest == Shift(v, prec) && w <= end <= w + prec + 1
    ensures var t := FracText(v, prec, false); buf[w..end] == if t == "" then "" else "." + t
    ensures buf[..w] == old(buf[..w]) && buf[end..] == old(buf[end..])
  {
    w, rest := end, v;
    var keep := false;
    ghost var text := FracText(v, prec, false);
    for i := 0 to prec
      invariant w <= end <= w + i
      invariant text == FracText(rest, prec - i, keep) + buf[w..end] && (keep <==> w < end)
      invariant rest == Shift(v, i)
      invariant buf[..w] == old(buf[..w]) && buf[end..] == old(buf[end..])
    {
      ghost var tail := buf[w..end];
      var digit := rest % 10;
      keep := keep || digit != 0;
      if keep {
        w := w - 1;
        buf[w] := Digit(digit);
        assert buf[w..end] == [Digit(digit)] + tail;
      }
      rest := rest / 10;
    }
    if keep {
      ghost var tail := buf[w..end];
      w := w - 1;
      buf[w] := '.';
      assert buf[w..end] == "." + tail;
    }
  }

  // ---------------------------------------------------------------- the units

  datatype Unit = Unit(name: string, size: nat)  // the size in bits

  /** The unit for a magnitude of u bits. */
  function UnitOf(u: nat): (r: Unit)
    ensures r.size > 0
  {
    if u < 8 then Unit("bit", 1)
    else if u < 8_000 then Unit("B", 8)
    else if u < 8_000_000 then Unit("kB", 8_000)
    else if u < 8_000_000_000 then Unit("MB", 8_000_000)
    else if u < 8_000_000_000_000 then Unit("GB", 8_000_000_000)
    else if u < 8_000_000_000_000_000 then Unit("TB", 8_000_000_000_000)
    else if u < 8_000_000_000_000_000_000 then Unit("PB", 8_000_000_000_000_000)
    else Unit("EB", 8_000_000_000_000_000_000)
  }

  /** The magnitude in its unit, in thousandths, truncated. */
  function Thousandths(u: nat): nat {
    u * 1000 / UnitOf(u).size
  }

  const TWO_TO_THE_63 := 0x8000_0000_0000_0000
  const TWO_TO_THE_64 := 0x1_0000_0000_0000_0000

  /** The unit is the largest that leaves something before the decimal point, and no magnitude of
      an int64 has more than three digits there. */
  lemma UnitFits(u: nat)
    requires 0 < u <= TWO_TO_THE_63
    ensures 1000 <= Thousandths(u) < 1_000_000
  {
  }

  method Write(buf: array<char>, at: nat, name: string)
    requires at + |name| == buf.Length
    modifies buf
    ensures buf[at..] == name && buf[..at] == old(buf[..at])
  {
    for i := 0 to |name|
      invariant buf[at..at + i] == name[..i] && buf[..at] == old(buf[..at])
    {
      buf[at + i] := name[i];
      assert buf[at..at + i + 1] == buf[at..at + i] + [name[i]];
    }
  }

  /** Writes the unit at the end of the buffer and scales u to thousandths of it. */
  method PutUnit(buf: array<char>, u: nat) returns (w: nat, t: nat)
    requires 8 <= u <= TWO_TO_THE_63 && buf.Length == 10
    modifies buf
    ensures 8 <= w < 10 && buf[w..] == UnitOf(u).name && t == Thousandths(u)
  {
    w := 9;
    if u < 8_000 {
      Write(buf, w, "B");
      t := u * 1000 / 8;
    } else {
      w := w - 1;
      if u < 8_000_000 {
        Write(buf, w, "kB");
        t := u / 8;
      } else if u < 8_000_000_000 {
        Write(buf, w, "MB");
        t := u / 8_000;
      } else if u < 8_000_000_000_000 {
        Write(buf, w, "GB");
        t := u / 8_000_000;
      } else if u < 8_000_000_000_000_000 {
        Write(buf, w, "TB");
        t := u / 8_000_000_000;
      } else if u < 8_000_000_000_000_000_000 {
        Write(buf, w, "PB");
        t := u / 8_000_000_000_000;
      } else {
        Write(buf, w, "EB");
        t := u / 8_000_000_000_000_000;
      }
    }
  }

  /** `bits.String` for every int64: never outside the ten characters of its buffer. */
  method String(b: int) returns (text: string)
    requires -TWO_TO_THE_63 <= b < TWO_TO_THE_63
    ensures |text| <= 10
    ensures text == if b == 0 then "0" else Written(b < 0, if b < 0 then -b else b)
  {
    if b == 0 {
      return "0";
    }
    var buf := new char[10];
    var u := Uint64(b);
    var neg := b < 0;
    if neg {
      u := Uint64(-(u as int));
    }
    NegatedIsMagnitude(b);
    ghost var magnitude := Written(false, u);
    var w;
    hide Uint64;
    hide Written;
    if u < 8 {
      w := PutBits(buf, u);
    } else {
      w := PutUnitAndNumber(buf, u);
    }
    if neg {
      w := w - 1;
      buf[w] := '-';
      assert buf[w..] == "-" + magnitude;
      SignComesFirst(u);
    }
    return buf[w..];
  }

  /** Conversion to an unsigned 64-bit integer. */
  function Uint64(x: int): nat {
    x % TWO_TO_THE_64
  }

  lemma NegatedIsMagnitude(b: int)
    requires -TWO_TO_THE_63 <= b < TWO_TO_THE_63
    ensures if b < 0 then Uint64(-(Uint64(b) as int)) == -b else Uint64(b) == b
  {
  }

  lemma SignComesFirst(u: nat)
    ensures Written(true, u) == "-" + Written(false, u)
  {
  }

  method PutBits(buf: array<char>, u: nat) returns (w: nat)
    requires 0 < u < 8 && buf.Length == 10
    modifies buf
    ensures 0 < w < 10 && buf[w..] == Written(false, u)
  {
    w := 7;
    Write(buf, w, "bit");
    IntTextShort(u);
    WholeHasNoFraction(u);
    w := FmtInt(buf, w, u);
    assert buf[w..] == buf[w..7] + buf[7..];
  }

  method PutUnitAndNumber(buf: array<char>, u: nat) returns (w: nat)
    requires 8 <= u <= TWO_TO_THE_63 && buf.Length == 10
    modifies buf
    ensures 0 < w < 10 && buf[w..] == Written(false, u)
  {
    hide UnitOf;
    hide Thousandths;
    hide FracText;
    hide IntText;
    UnitFits(u);
    ShiftThree(Thousandths(u));
    IntTextShort(Thousandths(u) / 1000);
    var t;
    w, t := PutUnit(buf, u);
    hide Shift;
    ghost var unit, dot := buf[w..], w;
    ghost var frac := FracText(t, 3, false);
    w, t := FmtFrac(buf, w, t, 3);
    assert buf[w..] == buf[w..dot] + buf[dot..];
    assert buf[w..] == (if frac == "" then "" else "." + frac) + unit;
    ghost var tail, point := buf[w..], w;
    w := FmtInt(buf, w, t);
    assert buf[w..] == buf[w..point] + buf[point..];
    assert buf[w..] == IntText(t) + tail;
  }

  lemma ShiftThree(v: nat)
    ensures Shift(v, 3) == v / 1000
  {
    assert Shift(v, 1) == v / 10 && Shift(v, 2) == v / 10 / 10;
  }

  lemma IntTextShort(v: nat)
    requires v < 1000
    ensures 0 < |IntText(v)| <= 3
  {
    if v >= 10 {
      assert IntText(v) == IntText(v / 10) + [Digit(v % 10)];
    }
  }

  lemma WholeHasNoFraction(u: nat)
    requires u < 8
    ensures FracText(u * 1000, 3, false) == ""
  {
    assert FracText(u * 100, 2, false) == "" by { assert FracText(u * 10, 1, false) == ""; }
  }

  function Written(neg: bool, u: nat): string {
    var unit, t := UnitOf(u), Thousandths(u);
    var frac := FracText(t, 3, false);
    (if neg then "-" else "") + IntText(t / 1000) + (if frac == "" then "" else "." + frac) + unit.name
  }

  // ---------------------------------------------------------------- reading it back

  datatype Reading = Reading(neg: bool, whole: string, frac: string, unit: string)

  predicate IsDigit(c: char) {
    '0' <= c <= '9'
  }

  /** How many digits begin s. */
  function DigitRun(s: string): (n: nat)
    ensures n <= |s|
  {
    if s == "" || !IsDigit(s[0]) then 0 else 1 + DigitRun(s[1..])
  }

  /** Takes a text apart: sign, digits, and after a point digits, and a unit. */
  function Read(s: string): Reading {
    if s != "" && s[0] == '-' then ReadUnsigned(true, s[1..]) else ReadUnsigned(false, s)
  }

  function ReadUnsigned(neg: bool, r: string): Reading {
    var whole, rest := r[..DigitRun(r)], r[DigitRun(r)..];
    if rest == "" || rest[0] != '.' then Reading(neg, whole, "", rest)
    else
      var f := rest[1..];
      Reading(neg, whole, f[..DigitRun(f)], f[DigitRun(f)..])
  }

  /** The number that digits denote. */
  function Value(s: string): nat
    requires forall c <- s :: IsDigit(c)
  {
    if s == "" then 0
    else
      assert IsDigit(s[|s| - 1]);
      Value(s[..|s| - 1]) * 10 + (s[|s| - 1] as nat - '0' as nat)
  }

  /** The size of a unit in bits, by its name. */
  function SizeOf(unit: string): nat {
    match unit
    case "bit" => 1
    case "B" => 8
    case "kB" => 8_000
    case "MB" => 8_000_000
    case "GB" => 8_000_000_000
    case "TB" => 8_000_000_000_000
    case "PB" => 8_000_000_000_000_000
    case "EB" => 8_000_000_000_000_000_000
    case _ => 0
  }

  /** The digits of a reading, taken as thousandths of its unit. */
  predicate Denotes(r: Reading, thousandths: nat) {
    && (forall c <- r.whole :: IsDigit(c)) && (forall c <- r.frac :: IsDigit(c))
    && r.whole != "" && |r.frac| <= 3
    && thousandths == Value(r.whole) * 1000
                      + Value(r.frac) * (if |r.frac| == 3 then 1 else if |r.frac| == 2 then 10
                                         else if |r.frac| == 1 then 100 else 1000)
  }

  lemma {:induction false} IntTextDenotes(v: nat)
    ensures var t := IntText(v);
            && (forall c <- t :: IsDigit(c)) && t != "" && Value(t) == v && (v > 0 ==> t[0] != '0')
  {
    if v < 10 {
      assert IntText(v)[..0] == "";
    } else {
      IntTextDenotes(v / 10);
      var t := IntText(v);
      assert t[..|t| - 1] == IntText(v / 10);
    }
  }

  /** The three decimals, written out. */
  lemma FracTextDigits(v: nat)
    ensures var a, b, c := Digit(v / 100 % 10), Digit(v / 10 % 10), Digit(v % 10);
            FracText(v, 3, false) ==
              if c != '0' then [a, b, c] else if b != '0' then [a, b] else if a != '0' then [a] else []
  {
    assert v / 10 / 10 == v / 100;
    var k := v % 10 != 0;
    var l := k || v / 10 % 10 != 0;
    assert FracText(v / 100, 1, l) == if l || v / 100 % 10 != 0 then [Digit(v / 100 % 10)] else "";
    assert FracText(v / 10, 2, k) == FracText(v / 100, 1, l) + if l then [Digit(v / 10 % 10)] else "";
  }

  lemma {:induction false} DigitRunOf(s: string, rest: string)
    requires (forall c <- s :: IsDigit(c)) && (rest == "" || !IsDigit(rest[0]))
    ensures DigitRun(s + rest) == |s|
  {
    if s == "" {
      assert s + rest == rest;
    } else {
      DigitRunOf(s[1..], rest);
      assert (s + rest)[1..] == s[1..] + rest;
    }
  }

  lemma ReadPlain(neg: bool, whole: string, frac: string, unit: string)
    requires (forall c <- whole :: IsDigit(c)) && (forall c <- frac :: IsDigit(c))
    requires unit != "" && !IsDigit(unit[0]) && unit[0] != '.'
    ensures ReadUnsigned(neg, whole + (if frac == "" then "" else "." + frac) + unit) == Reading(neg, whole, frac, unit)
  {
    var tail := (if frac == "" then "" else "." + frac) + unit;
    assert whole + (if frac == "" then "" else "." + frac) + unit == whole + tail;
    DigitRunOf(whole, tail);
    assert (whole + tail)[..|whole|] == whole && (whole + tail)[|whole|..] == tail;
    if frac != "" {
      assert tail[1..] == frac + unit;
      DigitRunOf(frac, unit);
      assert (frac + unit)[..|frac|] == frac && (frac + unit)[|frac|..] == unit;
    }
    hide DigitRun;
  }

  /** The written text taken apart is what was put together. */
  lemma ReadWritten(neg: bool, u: nat, whole: string, frac: string)
    requires whole == IntText(Thousandths(u) / 1000) && frac == FracText(Thousandths(u), 3, false)
    requires whole != "" && (forall c <- whole :: IsDigit(c)) && (forall c <- frac :: IsDigit(c))
    ensures Read(Written(neg, u)) == Reading(neg, whole, frac, UnitOf(u).name)
  {
    hide IntText;
    hide FracText;
    hide Thousandths;
    hide Read;
    hide ReadUnsigned;
    UnitNamed(u);
    hide UnitOf;
    hide SizeOf;
    var r := whole + (if frac == "" then "" else "." + frac) + UnitOf(u).name;
    ReadPlain(neg, whole, frac, UnitOf(u).name);
    assert r[0] == whole[0] && whole[0] in whole;
    ReadSigned(neg, r);
    assert Written(neg, u) == (if neg then "-" else "") + r;
  }

  lemma ReadSigned(neg: bool, r: string)
    requires r != "" && r[0] != '-'
    ensures Read((if neg then "-" else "") + r) == ReadUnsigned(neg, r)
  {
    assert ("-" + r)[1..] == r && "" + r == r;
    hide ReadUnsigned;
  }

  lemma UnitNamed(u: nat)
    ensures var unit := UnitOf(u);
            SizeOf(unit.name) == unit.size && unit.name != "" && !IsDigit(unit.name[0]) && unit.name[0] != '.'
  {
  }

  /** For every int64 but zero: what `String` returns reads back as the sign and the magnitude in
      the chosen unit, truncated to three decimals, with no superfluous zero at either end. */
  lemma WrittenReadsBack(neg: bool, u: nat)
    requires 0 < u <= TWO_TO_THE_63
    ensures var r := Read(Written(neg, u));
            && r.neg == neg && r.unit == UnitOf(u).name && SizeOf(r.unit) == UnitOf(u).size
            && Denotes(r, u * 1000 / SizeOf(r.unit))
            && r.whole[0] != '0' && |r.whole| <= 3
            && (r.frac != "" ==> r.frac[|r.frac| - 1] != '0')
  {
    var t := Thousandths(u);
    UnitFits(u);
    IntTextDenotes(t / 1000);
    IntTextShort(t / 1000);
    FracTextDenotes(t);
    ReadWritten(neg, u, IntText(t / 1000), FracText(t, 3, false));
    UnitNamed(u);
    hide UnitOf;
    hide SizeOf;
    hide IntText;
    hide FracText;
    hide Value;
    hide Read;
    hide Written;
  }

  lemma FracTextDenotes(t: nat)
    ensures var f := FracText(t, 3, false);
            && |f| <= 3 && (forall c <- f :: IsDigit(c)) && (f != "" ==> f[|f| - 1] != '0')
            && t % 1000 == Value(f) * (if |f| == 3 then 1 else if |f| == 2 then 10 else if |f| == 1 then 100 else 1000)
  {
    FracTextDigits(t);
    ThreeDigits(t);
    DigitsDenote(t / 100 % 10, t / 10 % 10, t % 10);
    hide FracText;
    hide Value;
    hide Digit;
  }

  lemma ThreeDigits(t: nat)
    ensures t % 1000 == t / 100 % 10 * 100 + t / 10 % 10 * 10 + t % 10
  {
    var d, h, k := t / 10, t / 100, t / 1000;
    assert t == 10 * d + t % 10;
    assert d == 10 * h + d % 10 by { assert d / 10 == h; }
    assert h == 10 * k + h % 10 by { assert h / 10 == k; }
    assert t == 1000 * k + t % 1000;
  }

  lemma DigitsDenote(a: nat, b: nat, c: nat)
    requires a < 10 && b < 10 && c < 10
    ensures var f := if Digit(c) != '0' then [Digit(a), Digit(b), Digit(c)]
            else if Digit(b) != '0' then [Digit(a), Digit(b)]
                     else if Digit(a) != '0' then [Digit(a)] else [];
            && (forall d <- f :: IsDigit(d)) && (f != "" ==> f[|f| - 1] != '0')
            && a * 100 + b * 10 + c == Value(f) * (if |f| == 3 then 1 else if |f| == 2 then 10
                                                   else if |f| == 1 then 100 else 1000)
  {
    ValueOfThree(a, b, c);
  }

  lemma ValueOfThree(a: nat, b: nat, c: nat)
    requires a < 10 && b < 10 && c < 10
    ensures Value([Digit(a)]) == a && Value([Digit(a), Digit(b)]) == a * 10 + b
    ensures Value([Digit(a), Digit(b), Digit(c)]) == a * 100 + b * 10 + c
  {
    var x, y, z := [Digit(a)], [Digit(a), Digit(b)], [Digit(a), Digit(b), Digit(c)];
    assert x[..0] == "" && y[..1] == x && z[..2] == y;
  }
}

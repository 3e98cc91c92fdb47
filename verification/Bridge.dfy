/** The data the solver moves around (`gps/identifier.go`, `gps/constraint.go`) and the world
    it queries: a fixed, deterministic answer to everything the source bridge, the root
    manifest and the root lock can be asked. */
module Bridge {
  import opened Wrappers
  import opened Strings
  import opened Versions

  type ProjectRoot = string

  datatype ProjectIdentifier = ProjectIdentifier(root: ProjectRoot, source: string) {
    function NormalizedSource(): string {
      if source == "" then root else source
    }

    /** Same project from the same place. */
    predicate Eq(that: ProjectIdentifier) {
      && root == that.root
      && (|| source == that.source
          || (source == "" && that.source == that.root)
          || (that.source == "" && source == root))
    }

    /** Deliberately asymmetric: an explicit source on the left tolerates none on the right. */
    predicate Equiv(that: ProjectIdentifier) {
      && root == that.root
      && (source == that.source || (source != "" && that.source == ""))
    }
  }

  lemma EqIsSameSource(i: ProjectIdentifier, j: ProjectIdentifier)
    ensures i.Eq(j) <==> i.root == j.root && i.NormalizedSource() == j.NormalizedSource()
  {
  }

  /** Two sources are equivalent both ways exactly when they are written alike; one way also when the
      other names none. An explicit source is never equivalent to another one. */
  lemma EquivExactly(i: ProjectIdentifier, j: ProjectIdentifier)
    ensures i.Equiv(j) && j.Equiv(i) <==> i == j
    ensures i.Equiv(j) && i != j <==> i.root == j.root && i.source != "" && j == ProjectIdentifier(i.root, "")
    ensures i.source == "" && j.source != "" ==> !i.Equiv(j)
  {
  }

  datatype Atom = Atom(id: ProjectIdentifier, v: Version)
  datatype AtomWithPackages = AtomWithPackages(a: Atom, pl: seq<string>)

  datatype WorkingConstraint = WorkingConstraint(
    ident: ProjectIdentifier, constraint: Constraint, overrNet: bool, overrConstraint: bool)
  datatype CompleteDep = CompleteDep(wc: WorkingConstraint, pl: seq<string>)
  datatype Dependency = Dependency(depender: Atom, dep: CompleteDep)

  /** An entry of the unselected queue. */
  datatype Bimodal = Bimodal(
    id: ProjectIdentifier, pl: seq<string>, prefv: Option<Version>, fromRoot: bool)

  datatype Properties = Properties(source: string, constraint: Constraint)
  datatype Override = Override(source: string, constraint: Option<Constraint>)
  datatype LockedProject = LockedProject(ident: ProjectIdentifier, version: Version)
  datatype Analysis = Analysis(constraints: map<ProjectRoot, Properties>, lock: Option<seq<LockedProject>>)

  /** What a package of a project reaches: packages of the same project, and others. */
  datatype Reached = Reached(inside: seq<string>, outside: seq<string>)
  type ReachMap = map<string, Reached>

  /** Import path to whether the package there is free of errors. */
  type PackageTree = map<string, bool>

  datatype World = World(
    // the root project
    rootRoot: ProjectRoot,
    rootManifest: map<ProjectRoot, Properties>,
    rootImports: seq<string>,
    rootPackages: PackageTree,
    rootAtomPackages: seq<string>,
    overrides: map<ProjectRoot, Override>,
    lock: map<ProjectRoot, LockedProject>,
    change: set<ProjectRoot>,
    changeAll: bool,
    // the other projects; None stands for an error
    sourceExists: ProjectIdentifier -> Option<bool>,
    vendorCodeExists: ProjectIdentifier -> Option<bool>,
    versions: ProjectIdentifier -> Option<seq<Version>>,
    analysis: Atom -> Option<Analysis>,
    packages: Atom -> Option<PackageTree>,
    reach: Atom -> ReachMap,
    revisionPresent: (ProjectIdentifier, string) -> bool,
    // import paths
    deduce: string -> Option<ProjectRoot>,
    stdlib: string -> bool,
    ignored: string -> bool,
    fold: string -> string,
    // the world is finite: every (project, package) a dependency can name, and a bound on
    // the length of a version list
    universe: set<(ProjectRoot, string)>,
    maxVersions: nat)
  {
    predicate IsRoot(pr: ProjectRoot) {
      pr == rootRoot
    }

    function RootAtom(): AtomWithPackages {
      AtomWithPackages(Atom(ProjectIdentifier(rootRoot, ""), Revision("")), rootAtomPackages)
    }

    function ListPackages(a: Atom): Option<PackageTree> {
      if IsRoot(a.id.root) then Some(rootPackages) else packages(a)
    }

    /** The package is there, and without error. */
    predicate HasPackage(a: Atom, pkg: string) {
      var t := ListPackages(a);
      t.Some? && pkg in t.value && t.value[pkg]
    }

    function ApplyOverride(pr: ProjectRoot, pp: Properties): WorkingConstraint {
      var wc := WorkingConstraint(ProjectIdentifier(pr, pp.source), pp.constraint, false, false);
      if pr in overrides then
        var o := overrides[pr];
        var wc1 := if o.constraint.Some? then wc.(constraint := o.constraint.value, overrConstraint := true) else wc;
        if o.source != "" then wc1.(ident := ProjectIdentifier(pr, o.source), overrNet := true) else wc1
      else wc
    }

    /** `overrideAll`, keyed by project root as its caller at once re-keys it. */
    function OverrideAll(pcm: map<ProjectRoot, Properties>): map<ProjectRoot, WorkingConstraint> {
      map pr | pr in pcm :: ApplyOverride(pr, pcm[pr])
    }
  }
}

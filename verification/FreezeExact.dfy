/** When a frozen template and the live one are interchangeable, for every delta. */
module FreezeExact {
  import opened Common
  import opened DiskOps
  import opened PathNames
  import opened Freeze

  // ------------------------------------------------- where the operations point

  function Lookup(f: Forest, p: Path): Option<Tree>
    requires p != []
    decreases |p|
  {
    var t := Find(f, p[0]);
    if |p| == 1 || t.None? then t
    else if t.value.File? then None
    else Lookup(t.value.entries, p[1..])
  }

  predicate IsFile(f: Forest, p: Path) { p != [] && Lookup(f, p).Some? && Lookup(f, p).value.File? }

  predicate IsDir(f: Forest, p: Path) { p == [] || (Lookup(f, p).Some? && Lookup(f, p).value.Dir?) }

  /** A file is written where the tree has one, and directories made where it has those. */
  predicate Fitting(f: Forest, op: Op) {
    op.path != [] && (op.Write? ==> IsFile(f, op.path)) && forall p :: p in DirsOf(op) ==> IsDir(f, p)
  }

  lemma DirsBelow(name: Name, op: Op, p: Path)
    ensures p in DirsOf(Below(name, op)) <==> p == [] || (p[0] == name && p[1..] in DirsOf(op))
  {
    var q := [name] + op.path;
    if p != [] && p[0] == name && p[1..] in DirsOf(op) {
      assert p == [name] + p[1..];
      if p[1..] != op.path {
        var i :| 0 <= i < |op.path| && op.path[..i] == p[1..];
        assert q[..i + 1] == p;
      }
    }
    if p in DirsOf(Below(name, op)) && p != [] && p != q {
      var i :| 0 <= i < |q| && q[..i] == p;
      assert p[1..] == op.path[..i - 1];
    }
    assert q[..0] == [];
    assert q[1..] == op.path;
  }

  lemma FittingBelow(f: Forest, name: Name, op: Op)
    requires Find(f, name).Some? && Find(f, name).value.Dir? && Fitting(Find(f, name).value.entries, op)
    ensures Fitting(f, Below(name, op))
  {
    var q := [name] + op.path;
    assert q[1..] == op.path;
    forall p | p in DirsOf(Below(name, op)) ensures IsDir(f, p) {
      DirsBelow(name, op, p);
      if p != [] && |p| > 1 { assert p[1..] in DirsOf(op); }
    }
  }

  lemma FittingInRest(f: Forest, op: Op)
    requires WellFormed(f) && f.Cons? && Fitting(f.rest, op)
    ensures Fitting(f, op) && op.path[0] != f.name
  {
    forall p | p in DirsOf(op) ensures IsDir(f, p) {
      if p != [] { assert p[0] == op.path[0]; }
    }
    assert op.path in DirsOf(op) || IsFile(f.rest, op.path);
  }

  lemma InAllBelow(name: Name, ops: seq<Op>, op: Op) returns (inner: Op)
    requires op in AllBelow(name, ops)
    ensures inner in ops && op == Below(name, inner)
  {
    var i :| 0 <= i < |ops| && AllBelow(name, ops)[i] == op;
    inner := ops[i];
  }

  lemma {:induction false} CopyFits(f: Forest, skip: set<Name>, op: Op)
    requires WellFormed(f) && op in CopyOps(f, skip)
    ensures Fitting(f, op) && PlainPath(op.path) && op.path[|op.path| - 1] !in skip
    decreases f
  {
    if op in CopyOps(f.rest, skip) {
      CopyFits(f.rest, skip, op);
      FittingInRest(f, op);
    } else if f.node.File? {
      assert op == Write([f.name], f.node.content);
    } else if op != MkDir([f.name]) {
      var inner := InAllBelow(f.name, CopyOps(f.node.entries, skip), op);
      CopyFits(f.node.entries, skip, inner);
      FittingBelow(f, f.name, inner);
    } else {
      assert forall p :: p in DirsOf(op) ==> p == [] || p == [f.name];
    }
  }

  lemma {:induction false} ArchivedFits(f: Forest, skip: set<Name>, op: Op)
    requires WellFormed(f) && op in Archived(f, skip)
    ensures Fitting(f, op) && op.Write?
    decreases f
  {
    if op in Archived(f.rest, skip) {
      ArchivedFits(f.rest, skip, op);
      FittingInRest(f, op);
    } else if f.node.File? {
      assert op == Write([f.name], f.node.content);
    } else {
      var inner := InAllBelow(f.name, Archived(f.node.entries, skip), op);
      ArchivedFits(f.node.entries, skip, inner);
      FittingBelow(f, f.name, inner);
    }
  }

  // ------------------------------------------------------- an empty destination

  const EMPTY := Disk(map[], {[]})

  /** Operations that all fit one tree succeed together. */
  lemma FittingRuns(f: Forest, ops: seq<Op>)
    requires forall op :: op in ops ==> Fitting(f, op)
    ensures Fits(EMPTY, ops) && [] !in Written(ops)
  {}

  lemma LiveFits(f: Forest, skip: set<Name>)
    requires WellFormed(f)
    ensures Fits(EMPTY, LiveOps(f, skip)) && Fits(EMPTY, Archived(f, skip))
    ensures Written(LiveOps(f, skip)) == Written(CopyOps(f, skip))
    ensures Made(LiveOps(f, skip)) == Made(CopyOps(f, skip)) + {[]}
  {
    forall op | op in CopyOps(f, skip) ensures Fitting(f, op) { CopyFits(f, skip, op); }
    forall op | op in Archived(f, skip) ensures Fitting(f, op) { ArchivedFits(f, skip, op); }
    FittingRuns(f, CopyOps(f, skip));
    FittingRuns(f, Archived(f, skip));
    MadeAppends([MkDir([])], CopyOps(f, skip));
    LastOp([MkDir([])]);
    assert [MkDir([])][..0] == [];
  }

  /** Either both builds fail, or both give the same files. */
  predicate Alike(a: Result<Disk>, b: Result<Disk>) {
    a.Ok? == b.Ok? && (a.Ok? ==> a.value.files == b.value.files)
  }

  ghost predicate FreezesExactly(f: Forest, skip: set<Name>, d: Disk) {
    forall delta, deleted ::
      Alike(Materialize(f, d, skip, delta, deleted), MaterializeFromTar(Bundled(f, skip), d, delta, deleted))
  }

  /** The destination is a directory, whatever is in it. */
  predicate IsDestination(d: Disk) { [] in d.dirs && [] !in d.files }

  // ---------------------------------------------------------- when they agree

  lemma BelowIsMade(name: Name, ops: seq<Op>, p: Path)
    requires p in Made(ops)
    ensures [name] + p in Made(AllBelow(name, ops)) && [] in Made(AllBelow(name, ops))
  {
    var op :| op in ops && p in DirsOf(op);
    var i :| 0 <= i < |ops| && ops[i] == op;
    var b := AllBelow(name, ops)[i];
    assert b in AllBelow(name, ops);
    assert ([name] + p)[1..] == p;
    DirsBelow(name, op, [name] + p);
    DirsBelow(name, op, []);
  }

  /** A tree without fileless directories: every directory a live copy makes lies above an archived file. */
  lemma {:induction false} NoDirIsLost(f: Forest, skip: set<Name>, p: Path)
    requires WellFormed(f) && NoFileSkipped(f, skip) && NoneFileless(f, skip) && p in Made(CopyOps(f, skip))
    ensures p in Made(Archived(f, skip))
    decreases f, 0
  {
    MadeAppends(CopyOne(f.name, f.node, skip), CopyOps(f.rest, skip));
    MadeAppends(ArchivedOne(f.name, f.node, skip), Archived(f.rest, skip));
    if p in Made(CopyOps(f.rest, skip)) {
      NoDirIsLost(f.rest, skip, p);
    } else if f.node.Dir? {
      NoDirInside(f.name, f.node.entries, skip, p);
    } else {
      assert CopyOne(f.name, f.node, skip) == ArchivedOne(f.name, f.node, skip);
    }
  }

  lemma {:induction false} NoDirInside(name: Name, entries: Forest, skip: set<Name>, p: Path)
    requires WellFormed(entries) && NoFileSkipped(entries, skip) && NoneFileless(entries, skip)
    requires Archived(entries, skip) != []
    requires p in Made([MkDir([name])] + AllBelow(name, CopyOps(entries, skip)))
    ensures p in Made(AllBelow(name, Archived(entries, skip)))
    decreases entries, 1
  {
    RootIsMade(entries, skip);
    BelowIsMade(name, Archived(entries, skip), []);
    assert [name] + [] == [name];
    if p != [] && p != [name] {
      var p' := MadeBelow(name, CopyOps(entries, skip), p);
      NoDirIsLost(entries, skip, p');
      BelowIsMade(name, Archived(entries, skip), p');
    }
  }

  lemma RootIsMade(f: Forest, skip: set<Name>)
    requires WellFormed(f) && Archived(f, skip) != []
    ensures [] in Made(Archived(f, skip))
  {
    var op := Archived(f, skip)[0];
    ArchivedFits(f, skip, op);
    assert op.path[..0] == [];
    assert [] in DirsOf(op);
  }

  lemma MadeBelow(name: Name, ops: seq<Op>, p: Path) returns (p': Path)
    requires p in Made([MkDir([name])] + AllBelow(name, ops)) && p != [] && p != [name]
    ensures p == [name] + p' && p' in Made(ops)
  {
    var op :| op in [MkDir([name])] + AllBelow(name, ops) && p in DirsOf(op);
    if op in AllBelow(name, ops) {
      var inner := InAllBelow(name, ops, op);
      DirsBelow(name, inner, p);
      p' := p[1..];
    } else {
      assert false;
    }
  }

  lemma AgreeWithoutEither(f: Forest, d: Disk, skip: set<Name>, delta: Delta, deleted: seq<string>)
    requires WellFormed(f) && NoFileSkipped(f, skip) && NoneFileless(f, skip) && IsDestination(d)
    ensures Alike(Materialize(f, d, skip, delta, deleted), MaterializeFromTar(Bundled(f, skip), d, delta, deleted))
  {
    var live, frozen := LiveOps(f, skip) + DeltaOps(delta), Archived(f, skip) + DeltaOps(delta);
    if Materialize(f, d, skip, delta, deleted).Ok? {
      FrozenFollowsLive(f, d, skip, delta, deleted);
    } else {
      UntarUndoesBundle(f, skip);
      LiveWrites(f, skip, delta);
      OverlayOfWrites(d.files, live);
      RunsIffFits(d, live);
      RunsIffFits(d, frozen);
      forall p | p in Made(live) && p != [] ensures p in Made(frozen) {
        LiveFits(f, skip);
        MadeAppends(LiveOps(f, skip), DeltaOps(delta));
        MadeAppends(Archived(f, skip), DeltaOps(delta));
        if p in Made(CopyOps(f, skip)) { NoDirIsLost(f, skip, p); }
      }
    }
  }

  // ------------------------------------------------------- when they do not agree

  /** An archived file that bears a skipped name. */
  lemma {:induction false} SkippedFile(f: Forest, skip: set<Name>) returns (op: Op)
    requires WellFormed(f) && !NoFileSkipped(f, skip)
    ensures op in Archived(f, skip) && op.Write? && op.path != [] && op.path[|op.path| - 1] in skip
    decreases f
  {
    if !NoFileSkipped(f.rest, skip) {
      op := SkippedFile(f.rest, skip);
    } else if f.node.File? {
      op := Write([f.name], f.node.content);
    } else {
      var inner := SkippedFile(f.node.entries, skip);
      var ops := Archived(f.node.entries, skip);
      var i :| 0 <= i < |ops| && ops[i] == inner;
      op := AllBelow(f.name, ops)[i];
      assert op in AllBelow(f.name, ops);
    }
  }

  lemma BuildOutcome(base: seq<Op>, delta: Delta)
    ensures var ops := base + DeltaOps(delta);
      Build(EMPTY, base, delta, []) == if Fits(EMPTY, ops) then Ok(Outcome(EMPTY, ops)) else Err
  {
    RunsIffFits(EMPTY, base + DeltaOps(delta));
  }

  lemma OutcomeKeys(ops: seq<Op>)
    ensures Outcome(EMPTY, ops).files.Keys == Written(ops)
  {
    OverlayKeys(map[], ops);
  }

  lemma SkippedFileShows(f: Forest, skip: set<Name>)
    requires WellFormed(f) && !NoFileSkipped(f, skip)
    ensures !Alike(Materialize(f, EMPTY, skip, [], []), MaterializeFromTar(Bundled(f, skip), EMPTY, [], []))
  {
    var live, frozen := LiveOps(f, skip), Archived(f, skip);
    LiveFits(f, skip);
    UntarUndoesBundle(f, skip);
    BuildOutcome(live, []);
    BuildOutcome(frozen, []);
    assert live + DeltaOps([]) == live && frozen + DeltaOps([]) == frozen;
    OutcomeKeys(live);
    OutcomeKeys(frozen);
    var p := SkippedIsNotCopied(f, skip);
    assert p in Outcome(EMPTY, frozen).files.Keys && p !in Outcome(EMPTY, live).files.Keys;
  }

  lemma SkippedIsNotCopied(f: Forest, skip: set<Name>) returns (p: Path)
    requires WellFormed(f) && !NoFileSkipped(f, skip)
    ensures p in Written(Archived(f, skip)) && p !in Written(CopyOps(f, skip))
  {
    var op := SkippedFile(f, skip);
    p := op.path;
    if p in Written(CopyOps(f, skip)) {
      var w :| w in CopyOps(f, skip) && w.Write? && w.path == p;
      CopyFits(f, skip, w);
    }
  }

  /** A directory the live copy makes and the archive does not hold. */
  lemma {:induction false} FilelessDir(f: Forest, skip: set<Name>) returns (q: Path)
    requires WellFormed(f) && !NoneFileless(f, skip)
    ensures MkDir(q) in CopyOps(f, skip) && q !in Made(Archived(f, skip))
    decreases f
  {
    MadeAppends(ArchivedOne(f.name, f.node, skip), Archived(f.rest, skip));
    if !NoneFileless(f.rest, skip) {
      q := FilelessDir(f.rest, skip);
      CopyFits(f.rest, skip, MkDir(q));
      FittingInRest(f, MkDir(q));
      if q in Made(ArchivedOne(f.name, f.node, skip)) { MadeInOne(f.name, f.node, skip, q); }
    } else {
      var entries := f.node.entries;
      if Archived(entries, skip) == [] {
        q := [f.name];
        assert Made(ArchivedOne(f.name, f.node, skip)) == {};
      } else {
        var q' := FilelessDir(entries, skip);
        CopyFits(entries, skip, MkDir(q'));
        q := [f.name] + q';
        var i :| 0 <= i < |CopyOps(entries, skip)| && CopyOps(entries, skip)[i] == MkDir(q');
        assert AllBelow(f.name, CopyOps(entries, skip))[i] == MkDir(q);
        if q in Made(ArchivedOne(f.name, f.node, skip)) {
          MadeInOne(f.name, f.node, skip, q);
        }
      }
      NotInRest(f, skip, q);
    }
  }

  /** Directories above one entry's archived files: the root, and what is above them in the entry. */
  lemma MadeInOne(name: Name, node: Tree, skip: set<Name>, p: Path)
    requires p in Made(ArchivedOne(name, node, skip)) && p != []
    ensures p[0] == name && node.Dir? && p[1..] in Made(Archived(node.entries, skip))
  {
    var op :| op in ArchivedOne(name, node, skip) && p in DirsOf(op);
    if node.Dir? {
      var inner := InAllBelow(name, Archived(node.entries, skip), op);
      DirsBelow(name, inner, p);
    }
  }

  lemma NotInRest(f: Forest, skip: set<Name>, q: Path)
    requires WellFormed(f) && f.Cons? && q != [] && q[0] == f.name
    ensures q !in Made(Archived(f.rest, skip))
  {
    if q in Made(Archived(f.rest, skip)) {
      var op :| op in Archived(f.rest, skip) && q in DirsOf(op);
      ArchivedFits(f.rest, skip, op);
      FittingInRest(f, op);
    }
  }

  lemma FilelessDirShows(f: Forest, skip: set<Name>)
    requires WellFormed(f) && !NoneFileless(f, skip)
    ensures exists q :: !Alike(Materialize(f, EMPTY, skip, [(Spell(q), [])], []),
                               MaterializeFromTar(Bundled(f, skip), EMPTY, [(Spell(q), [])], []))
  {
    var q := FilelessDir(f, skip);
    var delta: Delta := [(Spell(q), [])];
    CopyFits(f, skip, MkDir(q));
    ResolveUndoesSpell(q);
    assert DeltaOps(delta) == [Write(q, [])];
    UntarUndoesBundle(f, skip);
    BuildOutcome(LiveOps(f, skip), delta);
    BuildOutcome(Archived(f, skip), delta);
    LiveRefusesIt(f, skip, q);
    FrozenTakesIt(f, skip, q);
    assert !Alike(Materialize(f, EMPTY, skip, delta, []), MaterializeFromTar(Bundled(f, skip), EMPTY, delta, []));
  }

  lemma LiveRefusesIt(f: Forest, skip: set<Name>, q: Path)
    requires MkDir(q) in CopyOps(f, skip)
    ensures !Fits(EMPTY, LiveOps(f, skip) + [Write(q, [])])
  {
    var ops := LiveOps(f, skip) + [Write(q, [])];
    assert MkDir(q) in ops && Write(q, []) in ops;
    assert q in DirsOf(MkDir(q));
    assert q in Made(ops) && q in Written(ops);
  }

  lemma AboveIsNoFile(f: Forest, skip: set<Name>, q: Path)
    requires WellFormed(f) && Fitting(f, MkDir(q))
    ensures Above(q) !! Written(Archived(f, skip))
  {
    forall o | o in Archived(f, skip) && o.Write? ensures o.path !in Above(q) {
      ArchivedFits(f, skip, o);
      assert o.path in Above(q) ==> o.path in DirsOf(MkDir(q));
    }
  }

  lemma FrozenTakesIt(f: Forest, skip: set<Name>, q: Path)
    requires WellFormed(f) && MkDir(q) in CopyOps(f, skip) && q !in Made(Archived(f, skip))
    ensures Fits(EMPTY, Archived(f, skip) + [Write(q, [])])
  {
    var ops, w := Archived(f, skip), Write(q, []);
    LiveFits(f, skip);
    CopyFits(f, skip, MkDir(q));
    MadeAppends(ops, [w]);
    LastOp([w]);
    NotAboveItself(q);
    AboveIsNoFile(f, skip, q);
    assert [w][..0] == [];
  }

  /**
   * Frozen and live builds come out alike, success or failure and files, for
   * every delta and every list of deletions, exactly when no visited plain file
   * bears a skipped name and no visited directory is without a file: then into
   * every destination, else not even into an empty one.
   */
  lemma FreezesExactlyIff(f: Forest, skip: set<Name>)
    requires WellFormed(f)
    ensures NoFileSkipped(f, skip) && NoneFileless(f, skip) ==> forall d :: IsDestination(d) ==> FreezesExactly(f, skip, d)
    ensures FreezesExactly(f, skip, EMPTY) ==> NoFileSkipped(f, skip) && NoneFileless(f, skip)
    ensures (forall d :: IsDestination(d) ==> FreezesExactly(f, skip, d)) <==> NoFileSkipped(f, skip) && NoneFileless(f, skip)
  {
    assert IsDestination(EMPTY);
    if !NoFileSkipped(f, skip) {
      SkippedFileShows(f, skip);
    } else if !NoneFileless(f, skip) {
      FilelessDirShows(f, skip);
    } else {
      forall d, delta, deleted | IsDestination(d)
        ensures Alike(Materialize(f, d, skip, delta, deleted), MaterializeFromTar(Bundled(f, skip), d, delta, deleted))
      {
        AgreeWithoutEither(f, d, skip, delta, deleted);
      }
    }
  }
}

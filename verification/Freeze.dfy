/**
 * Freezing a template: a tree is bundled into an archive, and a working tree is
 * built from the live tree or from the archive, the project's delta on top.
 */
module Freeze {
  import opened Common
  import opened DiskOps
  import opened PathNames

  /** A tree of regular files: a directory's entries, in the order they are walked. */
  datatype Tree = File(content: Content) | Dir(entries: Forest)

  datatype Forest = Nil | Cons(name: Name, node: Tree, rest: Forest)

  function Find(f: Forest, name: Name): Option<Tree> {
    if f.Nil? then None else if f.name == name then Some(f.node) else Find(f.rest, name)
  }

  /** As in any directory: names are plain, and no two entries share one. */
  predicate WellFormed(f: Forest) {
    match f
    case Nil => true
    case Cons(name, node, rest) =>
      PlainName(name) && Find(rest, name).None? && WellFormed(rest) && (node.Dir? ==> WellFormed(node.entries))
  }

  /** Names that are never copied nor archived, and the caller's own. */
  function SkipSet(exclude: set<Name>): set<Name> { {"node_modules", ".git"} + exclude }

  function Below(name: Name, op: Op): Op {
    if op.MkDir? then MkDir([name] + op.path) else Write([name] + op.path, op.content)
  }

  function AllBelow(name: Name, ops: seq<Op>): seq<Op> {
    seq(|ops|, i requires 0 <= i < |ops| => Below(name, ops[i]))
  }

  /** What copyTree does below the root: directories and files that bear a skipped name are left out. */
  function CopyOps(f: Forest, skip: set<Name>): seq<Op>
    decreases f
  {
    if f.Nil? then [] else CopyOne(f.name, f.node, skip) + CopyOps(f.rest, skip)
  }

  function CopyOne(name: Name, node: Tree, skip: set<Name>): seq<Op>
    decreases node
  {
    if name in skip then []
    else match node
      case File(content) => [Write([name], content)]
      case Dir(entries) => [MkDir([name])] + AllBelow(name, CopyOps(entries, skip))
  }

  /** What Bundle archives: only directories are skipped, and none is archived for itself. */
  function Archived(f: Forest, skip: set<Name>): seq<Op>
    decreases f
  {
    if f.Nil? then [] else ArchivedOne(f.name, f.node, skip) + Archived(f.rest, skip)
  }

  function ArchivedOne(name: Name, node: Tree, skip: set<Name>): seq<Op>
    decreases node
  {
    match node
    case File(content) => [Write([name], content)]
    case Dir(entries) => if name in skip then [] else AllBelow(name, Archived(entries, skip))
  }

  /** No plain file Bundle visits bears a skipped name. */
  predicate NoFileSkipped(f: Forest, skip: set<Name>) {
    match f
    case Nil => true
    case Cons(name, node, rest) =>
      NoFileSkipped(rest, skip)
      && if node.File? then name !in skip else name in skip || NoFileSkipped(node.entries, skip)
  }

  /** Every directory visited holds a file that is archived, however deep. */
  predicate NoneFileless(f: Forest, skip: set<Name>) {
    match f
    case Nil => true
    case Cons(name, node, rest) =>
      NoneFileless(rest, skip)
      && (node.Dir? && name !in skip ==> Archived(node.entries, skip) != [] && NoneFileless(node.entries, skip))
  }

  // ------------------------------------------------------------ building a tree

  datatype TarEntry = TarFile(name: string, content: Content) | TarDir(name: string)

  function Bundled(f: Forest, skip: set<Name>): seq<TarEntry> {
    var ops := Archived(f, skip);
    seq(|ops|, i requires 0 <= i < |ops| => Entry(ops[i]))
  }

  function Entry(op: Op): TarEntry {
    if op.Write? then TarFile(Spell(op.path), op.content) else TarDir(Spell(op.path))
  }

  function UntarOp(e: TarEntry): Op {
    if e.TarFile? then Write(Resolve(e.name), e.content) else MkDir(Resolve(e.name))
  }

  function UntarOps(tar: seq<TarEntry>): seq<Op> { seq(|tar|, i requires 0 <= i < |tar| => UntarOp(tar[i])) }

  /** The delta's files, in the order the map happens to be ranged over. */
  type Delta = seq<(string, Content)>

  function DeltaOps(delta: Delta): seq<Op> {
    seq(|delta|, i requires 0 <= i < |delta| => Write(Resolve(delta[i].0), delta[i].1))
  }

  /** os.RemoveAll, whose error is ignored. */
  function Removed(d: Disk, p: Path): Disk {
    Disk(map q | q in d.files && !(p <= q) :: d.files[q], set q | q in d.dirs && !(p <= q))
  }

  function RemovedAll(d: Disk, deleted: seq<string>): Disk {
    if deleted == [] then d else Removed(RemovedAll(d, deleted[..|deleted| - 1]), Resolve(deleted[|deleted| - 1]))
  }

  function Build(d: Disk, base: seq<Op>, delta: Delta, deleted: seq<string>): Result<Disk> {
    var r := Run(d, base + DeltaOps(delta));
    if r.Err? then Err else Ok(RemovedAll(r.value, deleted))
  }

  function LiveOps(f: Forest, skip: set<Name>): seq<Op> { [MkDir([])] + CopyOps(f, skip) }

  function Materialize(f: Forest, d: Disk, skip: set<Name>, delta: Delta, deleted: seq<string>): Result<Disk> {
    Build(d, LiveOps(f, skip), delta, deleted)
  }

  function MaterializeFromTar(tar: seq<TarEntry>, d: Disk, delta: Delta, deleted: seq<string>): Result<Disk> {
    Build(d, UntarOps(tar), delta, deleted)
  }

  // ------------------------------------------------------- what the walks produce

  lemma {:induction false} ArchivedArePlain(f: Forest, skip: set<Name>)
    requires WellFormed(f)
    ensures forall op :: op in Archived(f, skip) ==> op.Write? && PlainPath(op.path)
  {
    if f.Cons? {
      ArchivedArePlain(f.rest, skip);
      if f.node.Dir? { ArchivedArePlain(f.node.entries, skip); }
    }
  }

  /** Extracting a bundle writes what was archived, where it stood. */
  lemma UntarUndoesBundle(f: Forest, skip: set<Name>)
    requires WellFormed(f)
    ensures UntarOps(Bundled(f, skip)) == Archived(f, skip)
  {
    var ops := Archived(f, skip);
    ArchivedArePlain(f, skip);
    forall i | 0 <= i < |ops| ensures UntarOp(Entry(ops[i])) == ops[i] {
      assert ops[i] in ops;
      ResolveUndoesSpell(ops[i].path);
    }
  }

  function Writes(ops: seq<Op>): seq<Op> {
    if ops == [] then [] else Writes(ops[..|ops| - 1]) + if ops[|ops| - 1].Write? then [ops[|ops| - 1]] else []
  }

  lemma {:induction false} WritesConcat(a: seq<Op>, b: seq<Op>)
    ensures Writes(a + b) == Writes(a) + Writes(b)
  {
    if b == [] {
      assert a + b == a;
    } else {
      assert (a + b)[..|a + b| - 1] == a + b[..|b| - 1];
      WritesConcat(a, b[..|b| - 1]);
    }
  }

  lemma {:induction false} WritesBelow(name: Name, ops: seq<Op>)
    ensures Writes(AllBelow(name, ops)) == AllBelow(name, Writes(ops))
  {
    if ops != [] {
      var n := |ops| - 1;
      WritesBelow(name, ops[..n]);
      assert AllBelow(name, ops)[..n] == AllBelow(name, ops[..n]);
    }
  }

  lemma {:induction false} WritesOfWrites(ops: seq<Op>)
    requires forall op :: op in ops ==> op.Write?
    ensures Writes(ops) == ops
  {
    if ops != [] {
      WritesOfWrites(ops[..|ops| - 1]);
      assert ops == ops[..|ops| - 1] + [ops[|ops| - 1]];
    }
  }

  /** Unless a plain file bears a skipped name, the archive holds exactly the files a live copy writes. */
  lemma {:induction false} CopyWritesTheArchive(f: Forest, skip: set<Name>)
    requires NoFileSkipped(f, skip)
    ensures Writes(CopyOps(f, skip)) == Archived(f, skip)
  {
    if f.Cons? {
      CopyWritesTheArchive(f.rest, skip);
      WritesConcat(CopyOne(f.name, f.node, skip), CopyOps(f.rest, skip));
      if f.node.Dir? && f.name !in skip {
        CopyWritesTheArchive(f.node.entries, skip);
        DirWrites(f.name, CopyOps(f.node.entries, skip));
      }
    }
  }

  lemma DirWrites(name: Name, ops: seq<Op>)
    ensures Writes([MkDir([name])] + AllBelow(name, ops)) == AllBelow(name, Writes(ops))
  {
    WritesConcat([MkDir([name])], AllBelow(name, ops));
    WritesBelow(name, ops);
    assert Writes([MkDir([name])]) == [];
  }

  lemma {:induction false} OverlayOfWrites(files: map<Path, Content>, ops: seq<Op>)
    ensures Overlay(files, ops) == Overlay(files, Writes(ops)) && Written(Writes(ops)) == Written(ops)
    ensures Made(Writes(ops)) <= Made(ops)
  {
    if ops != [] {
      var n := |ops| - 1;
      var before := Writes(ops[..n]);
      OverlayOfWrites(files, ops[..n]);
      LastOp(ops);
      if ops[n].Write? {
        OverlayConcat(files, before, [ops[n]]);
        OverlayOne(Overlay(files, before), ops[n]);
        assert (before + [ops[n]])[..|before|] == before;
        LastOp(before + [ops[n]]);
      } else {
        assert Writes(ops) == before;
      }
    }
  }

  lemma OverlayOne(files: map<Path, Content>, op: Op)
    requires op.Write?
    ensures Overlay(files, [op]) == files[op.path := op.content]
  {
    assert [op][..0] == [];
    assert Overlay(files, []) == files;
  }

  // ------------------------------------------------------------ main results

  /** The same files, and the directories of one all in the other: what RemoveAll keeps. */
  predicate SameFiles(d: Disk, e: Disk) { d.files == e.files && d.dirs <= e.dirs }

  lemma {:induction false} RemovalKeepsSame(d: Disk, e: Disk, deleted: seq<string>)
    requires SameFiles(d, e)
    ensures SameFiles(RemovedAll(d, deleted), RemovedAll(e, deleted))
  {
    if deleted != [] { RemovalKeepsSame(d, e, deleted[..|deleted| - 1]); }
  }

  lemma DeltaWrites(base: seq<Op>, delta: Delta)
    ensures Writes(base + DeltaOps(delta)) == Writes(base) + DeltaOps(delta)
  {
    WritesConcat(base, DeltaOps(delta));
    WritesOfWrites(DeltaOps(delta));
  }

  /**
   * Booting from the frozen image gives the files a live build gives, whatever
   * the destination held and whatever the delta: if no plain file bears a
   * skipped name and the live build succeeds, so does the frozen one, with the
   * same files.
   */
  lemma FrozenFollowsLive(f: Forest, d: Disk, skip: set<Name>, delta: Delta, deleted: seq<string>)
    requires WellFormed(f) && NoFileSkipped(f, skip)
    requires Materialize(f, d, skip, delta, deleted).Ok?
    ensures var frozen := MaterializeFromTar(Bundled(f, skip), d, delta, deleted);
      frozen.Ok? && SameFiles(frozen.value, Materialize(f, d, skip, delta, deleted).value)
  {
    var live, frozen := LiveOps(f, skip) + DeltaOps(delta), Archived(f, skip) + DeltaOps(delta);
    UntarUndoesBundle(f, skip);
    LiveWrites(f, skip, delta);
    WritesAlone(d, live);
    RemovalKeepsSame(Run(d, frozen).value, Run(d, live).value, deleted);
  }

  lemma LiveWrites(f: Forest, skip: set<Name>, delta: Delta)
    requires NoFileSkipped(f, skip)
    ensures Writes(LiveOps(f, skip) + DeltaOps(delta)) == Archived(f, skip) + DeltaOps(delta)
  {
    CopyWritesTheArchive(f, skip);
    DeltaWrites(LiveOps(f, skip), delta);
    WritesConcat([MkDir([])], CopyOps(f, skip));
    assert Writes([MkDir([])]) == [];
    assert [] + Archived(f, skip) == Archived(f, skip);
  }

  /** The writes of a run that succeeds succeed by themselves, with the same files. */
  lemma WritesAlone(d: Disk, ops: seq<Op>)
    requires Run(d, ops).Ok?
    ensures Run(d, Writes(ops)).Ok? && SameFiles(Run(d, Writes(ops)).value, Run(d, ops).value)
  {
    OverlayOfWrites(d.files, ops);
    RunsIffFits(d, ops);
    RunsIffFits(d, Writes(ops));
  }

  lemma SameDelta(a: Delta, b: Delta)
    requires multiset(a) == multiset(b)
    ensures forall op :: op in DeltaOps(a) ==> op in DeltaOps(b)
  {
    forall op | op in DeltaOps(a) ensures op in DeltaOps(b) {
      var i :| 0 <= i < |a| && DeltaOps(a)[i] == op;
      assert a[i] in multiset(b);
      var j :| 0 <= j < |b| && b[j] == a[i];
      assert DeltaOps(b)[j] == op;
    }
  }

  /**
   * The order in which the delta map is ranged over does not matter, exactly
   * when the delta fails in every order, or no two of its names resolve to one
   * path with different contents.
   */
  lemma DeltaOrderIff(d: Disk, delta: Delta)
    ensures (forall other: Delta :: multiset(other) == multiset(delta) ==> Run(d, DeltaOps(other)) == Run(d, DeltaOps(delta)))
      <==> !Fits(d, DeltaOps(delta)) || !Conflict(DeltaOps(delta))
  {
    var ops := DeltaOps(delta);
    if !Fits(d, ops) || !Conflict(ops) {
      forall other: Delta | multiset(other) == multiset(delta)
        ensures Run(d, DeltaOps(other)) == Run(d, ops)
      {
        SameDelta(delta, other);
        SameDelta(other, delta);
        SameOutcome(d, ops, DeltaOps(other));
      }
    } else {
      var i := ConflictShows(d, ops);
      var other := DeltaMoved(delta, i);
    }
  }

  lemma DeltaMoved(delta: Delta, i: nat) returns (other: Delta)
    requires i < |delta|
    ensures multiset(other) == multiset(delta) && DeltaOps(other) == MovedLast(DeltaOps(delta), i)
  {
    other := delta[..i] + delta[i + 1..] + [delta[i]];
    var moved := MovedLast(DeltaOps(delta), i);
    assert delta == delta[..i] + [delta[i]] + delta[i + 1..];
    forall k | 0 <= k < |delta| ensures DeltaOps(other)[k] == moved[k] {
      assert other[k] == if k < i then delta[k] else if k < |delta| - 1 then delta[k + 1] else delta[i];
    }
  }

  lemma DistinctDoNotConflict(delta: Delta)
    requires forall i, j :: 0 <= i < j < |delta| ==> Resolve(delta[i].0) != Resolve(delta[j].0)
    ensures !Conflict(DeltaOps(delta))
  {
    var ops := DeltaOps(delta);
    forall x, y | x in ops && y in ops ensures !Disagree(x, y) {
      var i :| 0 <= i < |ops| && ops[i] == x;
      var j :| 0 <= j < |ops| && ops[j] == y;
      if i != j { assert Resolve(delta[if i < j then i else j].0) != Resolve(delta[if i < j then j else i].0); }
    }
  }

  /** In particular a build, deletions and all, is the same whatever order a delta of distinct paths comes in. */
  lemma DeltaOrderIsFree(d: Disk, base: seq<Op>, delta: Delta, other: Delta, deleted: seq<string>)
    requires multiset(other) == multiset(delta)
    requires forall i, j :: 0 <= i < j < |delta| ==> Resolve(delta[i].0) != Resolve(delta[j].0)
    ensures Build(d, base, other, deleted) == Build(d, base, delta, deleted)
  {
    SameDelta(delta, other);
    SameDelta(other, delta);
    DistinctDoNotConflict(delta);
    RunConcat(d, base, DeltaOps(delta));
    RunConcat(d, base, DeltaOps(other));
    if Run(d, base).Ok? { SameOutcome(Run(d, base).value, DeltaOps(delta), DeltaOps(other)); }
  }
}

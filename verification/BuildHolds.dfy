/** What a built working tree holds, path by path: the template, the delta over it, and the deletions. */
module BuildHolds {
  import opened Common
  import opened DiskOps
  import opened PathNames
  import opened Freeze
  import opened FreezeExact

  /** The template's file at p. */
  function FileAt(f: Forest, p: Path): Option<Content> {
    if IsFile(f, p) then Some(Lookup(f, p).value.content) else None
  }

  /** What the caller excludes is skipped, and dependencies and version control always are. */
  lemma SkipsIff(exclude: set<Name>, name: Name)
    ensures name in SkipSet(exclude) <==> name == "node_modules" || name == ".git" || name in exclude
  {}

  predicate NoneIn(p: Path, names: set<Name>) { forall n :: n in p ==> n !in names }

  lemma NoneInParts(p: Path, names: set<Name>)
    requires p != []
    ensures NoneIn(p, names) <==> p[0] !in names && NoneIn(p[1..], names)
  {
    assert p == [p[0]] + p[1..];
  }

  lemma LookupOfRest(f: Forest, p: Path)
    requires f.Cons? && p != [] && p[0] != f.name
    ensures FileAt(f, p) == FileAt(f.rest, p)
  {}

  lemma LookupOfFirst(f: Forest, p: Path)
    requires WellFormed(f) && f.Cons? && p != [] && p[0] == f.name
    ensures FileAt(f.rest, p).None?
    ensures match f.node
      case File(c) => FileAt(f, p) == if p == [f.name] then Some(c) else None
      case Dir(entries) => FileAt(f, p) == FileAt(entries, p[1..])
  {
    assert p == [p[0]] + p[1..];
  }

  lemma BelowIsIn(name: Name, ops: seq<Op>, op: Op)
    requires op in ops
    ensures Below(name, op) in AllBelow(name, ops)
  {
    var i :| 0 <= i < |ops| && ops[i] == op;
    assert AllBelow(name, ops)[i] == Below(name, op);
  }

  /** A live copy writes exactly the files of the template with no skipped name on their path, with their contents. */
  lemma {:induction false} CopiesIff(f: Forest, skip: set<Name>, p: Path, c: Content)
    requires WellFormed(f)
    ensures Write(p, c) in CopyOps(f, skip) <==> FileAt(f, p) == Some(c) && NoneIn(p, skip)
    decreases f
  {
    var op := Write(p, c);
    if op in CopyOps(f, skip) { CopyFits(f, skip, op); }
    if f.Cons? && p != [] {
      CopiesIff(f.rest, skip, p, c);
      NoneInParts(p, skip);
      if p[0] != f.name {
        LookupOfRest(f, p);
        if op in CopyOne(f.name, f.node, skip) { HeadIsName(f.name, f.node, skip, op); }
      } else {
        LookupOfFirst(f, p);
        if f.node.Dir? && f.name !in skip {
          CopiesIff(f.node.entries, skip, p[1..], c);
          CopiedBelow(f.name, f.node.entries, skip, op);
        }
      }
    }
  }

  lemma HeadIsName(name: Name, node: Tree, skip: set<Name>, op: Op)
    requires op in CopyOne(name, node, skip)
    ensures op.path != [] && op.path[0] == name
  {
    if node.Dir? && op != MkDir([name]) { var inner := InAllBelow(name, CopyOps(node.entries, skip), op); }
  }

  lemma CopiedBelow(name: Name, entries: Forest, skip: set<Name>, op: Op)
    requires WellFormed(entries) && name !in skip && op.Write? && op.path != [] && op.path[0] == name
    ensures op in CopyOne(name, Dir(entries), skip) <==> Write(op.path[1..], op.content) in CopyOps(entries, skip)
  {
    var inner := Write(op.path[1..], op.content);
    assert Below(name, inner) == op;
    if inner in CopyOps(entries, skip) { BelowIsIn(name, CopyOps(entries, skip), inner); }
    if op in CopyOne(name, Dir(entries), skip) {
      assert op != MkDir([name]);
      var below := InAllBelow(name, CopyOps(entries, skip), op);
      assert below == inner;
    }
  }

  /** And an archive exactly those with no skipped directory on it. */
  lemma {:induction false} ArchivesIff(f: Forest, skip: set<Name>, p: Path, c: Content)
    requires WellFormed(f)
    ensures Write(p, c) in Archived(f, skip) <==> FileAt(f, p) == Some(c) && p != [] && NoneIn(p[..|p| - 1], skip)
    decreases f
  {
    var op := Write(p, c);
    if op in Archived(f, skip) { ArchivedFits(f, skip, op); }
    if f.Cons? && p != [] {
      ArchivesIff(f.rest, skip, p, c);
      if p[0] != f.name {
        LookupOfRest(f, p);
        if op in ArchivedOne(f.name, f.node, skip) { ArchivedHead(f.name, f.node, skip, op); }
      } else {
        LookupOfFirst(f, p);
        if f.node.Dir? {
          ArchivesIff(f.node.entries, skip, p[1..], c);
          if |p| > 1 {
            assert p[..|p| - 1][1..] == p[1..][..|p| - 2];
            NoneInParts(p[..|p| - 1], skip);
          }
          if f.name !in skip { ArchivedBelow(f.name, f.node.entries, skip, op); }
        }
      }
    }
  }

  lemma ArchivedHead(name: Name, node: Tree, skip: set<Name>, op: Op)
    requires op in ArchivedOne(name, node, skip)
    ensures op.path != [] && op.path[0] == name
  {
    if node.Dir? { var inner := InAllBelow(name, Archived(node.entries, skip), op); }
  }

  lemma ArchivedBelow(name: Name, entries: Forest, skip: set<Name>, op: Op)
    requires WellFormed(entries) && name !in skip && op.Write? && op.path != [] && op.path[0] == name
    ensures op in ArchivedOne(name, Dir(entries), skip) <==> Write(op.path[1..], op.content) in Archived(entries, skip)
    ensures Write([], op.content) !in Archived(entries, skip)
  {
    var inner := Write(op.path[1..], op.content);
    assert Below(name, inner) == op;
    if inner in Archived(entries, skip) { BelowIsIn(name, Archived(entries, skip), inner); }
    if op in ArchivedOne(name, Dir(entries), skip) {
      var below := InAllBelow(name, Archived(entries, skip), op);
      assert below == inner;
    }
    if Write([], op.content) in Archived(entries, skip) { ArchivedFits(entries, skip, Write([], op.content)); }
  }

  // --------------------------------------------------------- what lies at a path

  function Holding(files: map<Path, Content>, p: Path): Option<Content> { if p in files then Some(files[p]) else None }

  /** c is the one content that the operations write to p, if they write it. */
  ghost predicate OnlyWrites(ops: seq<Op>, p: Path, c: Option<Content>) {
    forall x :: Write(p, x) in ops <==> c == Some(x)
  }

  lemma WrittenIsWrite(ops: seq<Op>, p: Path)
    ensures p in Written(ops) ==> exists x :: Write(p, x) in ops
  {
    if p in Written(ops) {
      var op :| op in ops && op.Write? && op.path == p;
      assert op == Write(p, op.content);
    }
  }

  lemma OverlayHolds(files: map<Path, Content>, ops: seq<Op>, p: Path, c: Option<Content>)
    requires OnlyWrites(ops, p, c)
    ensures Holding(Overlay(files, ops), p) == if c.Some? then c else Holding(files, p)
  {
    OverlayKeys(files, ops);
    if c.Some? {
      var op := Write(p, c.value);
      assert op in ops;
      forall y | y in ops ensures !Disagree(op, y) {
        if y.Write? && y.path == p { assert Write(p, y.content) in ops; }
      }
      OverlayOf(files, ops, op);
    } else {
      WrittenIsWrite(ops, p);
      if p in files { OverlayElsewhere(files, ops, p); }
    }
  }

  /** The last file of the delta, as it happens to be ranged over, whose name leads to p. */
  function LastNamed(delta: Delta, p: Path): Option<Content> {
    if delta == [] then None
    else
      var n := |delta| - 1;
      if Resolve(delta[n].0) == p then Some(delta[n].1) else LastNamed(delta[..n], p)
  }

  lemma {:induction false} DeltaHolds(files: map<Path, Content>, delta: Delta, p: Path)
    ensures Holding(Overlay(files, DeltaOps(delta)), p)
      == if LastNamed(delta, p).Some? then LastNamed(delta, p) else Holding(files, p)
    decreases |delta|
  {
    if delta != [] {
      var n := |delta| - 1;
      assert DeltaOps(delta)[..n] == DeltaOps(delta[..n]);
      DeltaHolds(files, delta[..n], p);
    }
  }

  /** p is what some name of the list leads to, or below it. */
  ghost predicate IsDeleted(deleted: seq<string>, p: Path) {
    exists name :: name in deleted && Resolve(name) <= p
  }

  lemma {:induction false} RemovedHolds(d: Disk, deleted: seq<string>, p: Path)
    ensures Holding(RemovedAll(d, deleted).files, p) == if IsDeleted(deleted, p) then None else Holding(d.files, p)
    decreases |deleted|
  {
    if deleted != [] {
      var n := |deleted| - 1;
      RemovedHolds(d, deleted[..n], p);
      LastDeleted(deleted, p);
      RemovalHolds(RemovedAll(d, deleted[..n]), Resolve(deleted[n]), p);
    }
  }

  lemma RemovalHolds(d: Disk, q: Path, p: Path)
    ensures Holding(Removed(d, q).files, p) == if q <= p then None else Holding(d.files, p)
  {}

  lemma LastDeleted(deleted: seq<string>, p: Path)
    requires deleted != []
    ensures var n := |deleted| - 1;
      IsDeleted(deleted, p) <==> Resolve(deleted[n]) <= p || IsDeleted(deleted[..n], p)
  {
    var n := |deleted| - 1;
    assert deleted == deleted[..n] + [deleted[n]];
    assert forall name :: name in deleted <==> name in deleted[..n] || name == deleted[n];
  }

  // ------------------------------------------------------------ main results

  /** base is what the template puts at p, and a build that worked has the delta over it and the deletions last. */
  ghost predicate Holds(built: Disk, d: Disk, base: Option<Content>, delta: Delta, deleted: seq<string>, p: Path) {
    Holding(built.files, p)
    == if IsDeleted(deleted, p) then None
       else if LastNamed(delta, p).Some? then LastNamed(delta, p)
       else if base.Some? then base
       else Holding(d.files, p)
  }

  lemma BuildHolds(d: Disk, ops: seq<Op>, delta: Delta, deleted: seq<string>, p: Path, base: Option<Content>)
    requires Build(d, ops, delta, deleted).Ok? && OnlyWrites(ops, p, base)
    ensures Holds(Build(d, ops, delta, deleted).value, d, base, delta, deleted, p)
  {
    RunsIffFits(d, ops + DeltaOps(delta));
    OverlayConcat(d.files, ops, DeltaOps(delta));
    OverlayHolds(d.files, ops, p, base);
    DeltaHolds(Overlay(d.files, ops), delta, p);
    RemovedHolds(Run(d, ops + DeltaOps(delta)).value, deleted, p);
  }

  /**
   * What a live build holds at every path: nothing where it was told to delete;
   * else the delta's last file of that path; else the template's file, if no
   * skipped name leads there; else what the destination had.
   */
  lemma LiveBuildHolds(f: Forest, d: Disk, skip: set<Name>, delta: Delta, deleted: seq<string>, p: Path)
    requires WellFormed(f) && Materialize(f, d, skip, delta, deleted).Ok?
    ensures Holds(Materialize(f, d, skip, delta, deleted).value, d,
                  if NoneIn(p, skip) then FileAt(f, p) else None, delta, deleted, p)
  {
    var base := if NoneIn(p, skip) then FileAt(f, p) else None;
    forall x ensures Write(p, x) in LiveOps(f, skip) <==> base == Some(x) {
      CopiesIff(f, skip, p, x);
      assert Write(p, x) in LiveOps(f, skip) <==> Write(p, x) in CopyOps(f, skip);
    }
    BuildHolds(d, LiveOps(f, skip), delta, deleted, p, base);
  }

  /** And a frozen one: but for the base, where only skipped directories keep a file out, the same. */
  lemma FrozenBuildHolds(f: Forest, d: Disk, skip: set<Name>, delta: Delta, deleted: seq<string>, p: Path)
    requires WellFormed(f) && MaterializeFromTar(Bundled(f, skip), d, delta, deleted).Ok?
    ensures Holds(MaterializeFromTar(Bundled(f, skip), d, delta, deleted).value, d,
                  if p != [] && NoneIn(p[..|p| - 1], skip) then FileAt(f, p) else None, delta, deleted, p)
  {
    var base := if p != [] && NoneIn(p[..|p| - 1], skip) then FileAt(f, p) else None;
    forall x ensures Write(p, x) in Archived(f, skip) <==> base == Some(x) {
      ArchivesIff(f, skip, p, x);
    }
    UntarUndoesBundle(f, skip);
    BuildHolds(d, Archived(f, skip), delta, deleted, p, base);
  }
}

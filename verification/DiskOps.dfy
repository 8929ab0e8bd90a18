/**
 * Making directories and writing files under one destination, as sequences of
 * operations: when a sequence succeeds, and how far its order matters.
 */
module DiskOps {
  import opened Common

  type Name = string

  /** A path below the destination, by its components; the destination itself is []. */
  type Path = seq<Name>

  type Content = seq<int>

  datatype Disk = Disk(files: map<Path, Content>, dirs: set<Path>)

  /** MkDir is os.MkdirAll; Write makes the parents, then creates or truncates the file. */
  datatype Op = MkDir(path: Path) | Write(path: Path, content: Content)

  function Above(p: Path): set<Path> { set i | 0 <= i < |p| :: p[..i] }

  /** The directories an operation makes, or finds. */
  function DirsOf(op: Op): set<Path> { if op.MkDir? then Above(op.path) + {op.path} else Above(op.path) }

  /** A file in a directory's place fails the one, a directory in the file's place the other. */
  function Step(d: Disk, op: Op): Result<Disk> {
    if !(DirsOf(op) !! d.files.Keys) || (op.Write? && op.path in d.dirs) then Err
    else
      var dirs := d.dirs + DirsOf(op);
      Ok(if op.MkDir? then Disk(d.files, dirs) else Disk(d.files[op.path := op.content], dirs))
  }

  /** The operations one after the other, up to the first error. */
  function Run(d: Disk, ops: seq<Op>): Result<Disk> {
    if ops == [] then Ok(d)
    else
      var r := Run(d, ops[..|ops| - 1]);
      if r.Err? then Err else Step(r.value, ops[|ops| - 1])
  }

  function Made(ops: seq<Op>): set<Path> { set op, p | op in ops && p in DirsOf(op) :: p }

  function Written(ops: seq<Op>): set<Path> { set op | op in ops && op.Write? :: op.path }

  /** What a file holds in the end: the last write decides. */
  function Overlay(files: map<Path, Content>, ops: seq<Op>): map<Path, Content> {
    if ops == [] then files
    else
      var before, op := Overlay(files, ops[..|ops| - 1]), ops[|ops| - 1];
      if op.Write? then before[op.path := op.content] else before
  }

  /** No file stands where a directory has to be, and the other way round. */
  predicate Fits(d: Disk, ops: seq<Op>) {
    Made(ops) !! d.files.Keys && Written(ops) !! d.dirs && Made(ops) !! Written(ops)
  }

  function Outcome(d: Disk, ops: seq<Op>): Disk { Disk(Overlay(d.files, ops), d.dirs + Made(ops)) }

  lemma NotAboveItself(p: Path)
    ensures p !in Above(p)
  {}

  lemma MadeAppends(a: seq<Op>, b: seq<Op>)
    ensures Made(a + b) == Made(a) + Made(b) && Written(a + b) == Written(a) + Written(b)
  {
    assert forall op :: op in a + b <==> op in a || op in b;
  }

  lemma LastOp(ops: seq<Op>)
    requires ops != []
    ensures var before, op := ops[..|ops| - 1], ops[|ops| - 1];
      Made(ops) == Made(before) + DirsOf(op) && Written(ops) == Written(before) + if op.Write? then {op.path} else {}
  {
    var before, op := ops[..|ops| - 1], ops[|ops| - 1];
    assert ops == before + [op];
    MadeAppends(before, [op]);
    assert forall o :: o in [op] <==> o == op;
    assert Made([op]) == DirsOf(op);
  }

  lemma {:induction false} OverlayKeys(files: map<Path, Content>, ops: seq<Op>)
    ensures Overlay(files, ops).Keys == files.Keys + Written(ops)
  {
    if ops != [] {
      OverlayKeys(files, ops[..|ops| - 1]);
      LastOp(ops);
    }
  }

  /**
   * A run succeeds exactly when its operations fit, with the disk and with each
   * other; neither that nor the directories it leaves depends on their order.
   */
  lemma {:induction false} RunsIffFits(d: Disk, ops: seq<Op>)
    ensures Run(d, ops) == if Fits(d, ops) then Ok(Outcome(d, ops)) else Err
  {
    if ops == [] {
      assert Made(ops) == {} && Written(ops) == {};
      assert d.dirs + {} == d.dirs;
    } else {
      var before, op := ops[..|ops| - 1], ops[|ops| - 1];
      RunsIffFits(d, before);
      LastOp(ops);
      if Fits(d, before) {
        OverlayKeys(d.files, before);
        StepFits(d, before, op);
        assert Step(Outcome(d, before), op).Ok? ==> Step(Outcome(d, before), op).value == Outcome(d, ops);
      } else {
        assert Run(d, before) == Err;
      }
    }
  }

  lemma StepFits(d: Disk, before: seq<Op>, op: Op)
    requires Overlay(d.files, before).Keys == d.files.Keys + Written(before)
    requires Fits(d, before)
    ensures var made, written := Made(before) + DirsOf(op), Written(before) + if op.Write? then {op.path} else {};
      Step(Outcome(d, before), op).Ok? <==> made !! d.files.Keys && written !! d.dirs && made !! written
  {
    NotAboveItself(op.path);
  }

  lemma {:induction false} OverlayConcat(files: map<Path, Content>, a: seq<Op>, b: seq<Op>)
    ensures Overlay(files, a + b) == Overlay(Overlay(files, a), b)
  {
    if b == [] {
      assert a + b == a;
    } else {
      assert (a + b)[..|a + b| - 1] == a + b[..|b| - 1];
      OverlayConcat(files, a, b[..|b| - 1]);
    }
  }

  lemma {:induction false} RunConcat(d: Disk, a: seq<Op>, b: seq<Op>)
    ensures Run(d, a + b) == if Run(d, a).Err? then Err else Run(Run(d, a).value, b)
  {
    if b == [] {
      assert a + b == a;
    } else {
      assert (a + b)[..|a + b| - 1] == a + b[..|b| - 1];
      RunConcat(d, a, b[..|b| - 1]);
    }
  }

  // ------------------------------------------------------------------- the order

  /** Two writes of one path that do not agree on its content. */
  ghost predicate Conflict(ops: seq<Op>) {
    exists x, y :: x in ops && y in ops && Disagree(x, y)
  }

  predicate Disagree(x: Op, y: Op) { x.Write? && y.Write? && x.path == y.path && x.content != y.content }

  /** Without a conflict, each path ends up with the one content written to it. */
  lemma {:induction false} OverlayOf(files: map<Path, Content>, ops: seq<Op>, op: Op)
    requires op in ops && op.Write? && forall y :: y in ops ==> !Disagree(op, y)
    ensures op.path in Overlay(files, ops) && Overlay(files, ops)[op.path] == op.content
  {
    var before, last := ops[..|ops| - 1], ops[|ops| - 1];
    assert !Disagree(op, last);
    if last != op { OverlayOf(files, before, op); }
  }

  lemma {:induction false} OverlayElsewhere(files: map<Path, Content>, ops: seq<Op>, p: Path)
    requires p !in Written(ops) && p in files
    ensures p in Overlay(files, ops) && Overlay(files, ops)[p] == files[p]
  {
    if ops != [] {
      LastOp(ops);
      OverlayElsewhere(files, ops[..|ops| - 1], p);
    }
  }

  lemma OverlayOfSame(files: map<Path, Content>, a: seq<Op>, b: seq<Op>)
    requires (forall op :: op in a <==> op in b) && !Conflict(a)
    ensures Overlay(files, a) == Overlay(files, b)
  {
    OverlayKeys(files, a);
    OverlayKeys(files, b);
    forall p | p in Overlay(files, a) ensures Overlay(files, a)[p] == Overlay(files, b)[p] {
      if op :| op in a && op.Write? && op.path == p {
        OverlayOf(files, a, op);
        OverlayOf(files, b, op);
      } else {
        OverlayElsewhere(files, a, p);
        OverlayElsewhere(files, b, p);
      }
    }
  }

  lemma SameMembers(a: seq<Op>, b: seq<Op>)
    requires multiset(a) == multiset(b)
    ensures forall op :: op in a <==> op in b
    ensures Made(a) == Made(b) && Written(a) == Written(b)
  {
    forall op ensures op in a <==> op in b {
      assert op in multiset(a) <==> op in multiset(b);
    }
  }

  /** The same operations, none in conflict with another, have the same outcome. */
  lemma SameOutcome(d: Disk, a: seq<Op>, b: seq<Op>)
    requires (forall op :: op in a <==> op in b) && (!Fits(d, a) || !Conflict(a))
    ensures Run(d, a) == Run(d, b)
  {
    assert Made(a) == Made(b) && Written(a) == Written(b);
    RunsIffFits(d, a);
    RunsIffFits(d, b);
    if !Conflict(a) { OverlayOfSame(d.files, a, b); }
  }

  /** The same operations with the i-th put last. */
  function MovedLast(ops: seq<Op>, i: nat): seq<Op>
    requires i < |ops|
  {
    ops[..i] + ops[i + 1..] + [ops[i]]
  }

  lemma MovedLastPermutes(ops: seq<Op>, i: nat)
    requires i < |ops|
    ensures multiset(MovedLast(ops, i)) == multiset(ops)
  {
    assert ops == ops[..i] + [ops[i]] + ops[i + 1..];
  }

  /**
   * Every order of the operations has the same outcome exactly when they fail in
   * every order or no two of them write different contents to one path.
   */
  lemma OrderDoesNotMatterIff(d: Disk, ops: seq<Op>)
    ensures (forall other :: multiset(other) == multiset(ops) ==> Run(d, other) == Run(d, ops))
      <==> !Fits(d, ops) || !Conflict(ops)
  {
    forall other | multiset(other) == multiset(ops) && (!Fits(d, ops) || !Conflict(ops))
      ensures Run(d, other) == Run(d, ops)
    {
      SameMembers(ops, other);
      SameOutcome(d, ops, other);
    }
    if Fits(d, ops) && Conflict(ops) {
      var i := ConflictShows(d, ops);
      MovedLastPermutes(ops, i);
      assert Run(d, MovedLast(ops, i)) != Run(d, ops);
    }
  }

  lemma ConflictShows(d: Disk, ops: seq<Op>) returns (i: nat)
    requires Fits(d, ops) && Conflict(ops)
    ensures i < |ops| && Run(d, MovedLast(ops, i)) != Run(d, ops)
  {
    var x, y :| x in ops && y in ops && Disagree(x, y);
    OverlayKeys(d.files, ops);
    assert x.path in Written(ops);
    var op := if Overlay(d.files, ops)[x.path] == x.content then y else x;
    i :| 0 <= i < |ops| && ops[i] == op;
    var other := MovedLast(ops, i);
    MovedLastPermutes(ops, i);
    SameMembers(other, ops);
    RunsIffFits(d, ops);
    RunsIffFits(d, other);
    assert Overlay(d.files, other)[x.path] == op.content;
  }
}

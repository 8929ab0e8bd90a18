/** Building a working tree on disk, file by file: the walks and the loops. */
module WorkingTree {
  import opened Common
  import opened DiskOps
  import opened PathNames
  import opened Freeze

  /** Operations moved below a path. */
  function AtPath(at: Path, ops: seq<Op>): seq<Op> {
    seq(|ops|, i requires 0 <= i < |ops| =>
      if ops[i].MkDir? then MkDir(at + ops[i].path) else Write(at + ops[i].path, ops[i].content))
  }

  lemma AtPathConcat(at: Path, a: seq<Op>, b: seq<Op>)
    ensures AtPath(at, a + b) == AtPath(at, a) + AtPath(at, b)
  {}

  lemma AtPathBelow(at: Path, name: Name, ops: seq<Op>)
    ensures AtPath(at, AllBelow(name, ops)) == AtPath(at + [name], ops)
  {
    forall i | 0 <= i < |ops| ensures AtPath(at, AllBelow(name, ops))[i] == AtPath(at + [name], ops)[i] {
      assert at + ([name] + ops[i].path) == (at + [name]) + ops[i].path;
    }
  }

  lemma AtRoot(ops: seq<Op>)
    ensures AtPath([], ops) == ops
  {
    forall i | 0 <= i < |ops| ensures AtPath([], ops)[i] == ops[i] {
      assert [] + ops[i].path == ops[i].path;
    }
  }

  /** What the walk of one more entry, or one more step of a loop, does to a run. */
  lemma RunOne(d: Disk, ops: seq<Op>, op: Op)
    ensures Run(d, ops + [op]) == if Run(d, ops).Err? then Err else Step(Run(d, ops).value, op)
  {
    assert (ops + [op])[..|ops|] == ops;
  }

  lemma RunEntry(d: Disk, at: Path, name: Name, node: Tree, skip: set<Name>)
    ensures Run(d, AtPath(at, CopyOne(name, node, skip)))
      == if name in skip then Ok(d)
         else if node.File? then Step(d, Write(at + [name], node.content))
         else if Step(d, MkDir(at + [name])).Err? then Err
         else Run(Step(d, MkDir(at + [name])).value, AtPath(at + [name], CopyOps(node.entries, skip)))
  {
    if name !in skip {
      if node.File? {
        RunOne(d, [], Write(at + [name], node.content));
      } else {
        var inner := CopyOps(node.entries, skip);
        AtPathConcat(at, [MkDir([name])], AllBelow(name, inner));
        AtPathBelow(at, name, inner);
        assert AtPath(at, [MkDir([name])]) == [MkDir(at + [name])];
        RunConcat(d, [MkDir(at + [name])], AtPath(at + [name], inner));
        RunOne(d, [], MkDir(at + [name]));
      }
    }
  }

  class Dest {
    var files: map<Path, Content>
    var dirs: set<Path>

    function Now(): Disk
      reads this
    {
      Disk(files, dirs)
    }

    /** os.MkdirAll: from the top down, each a directory already or made now. */
    method MkdirAll(p: Path) returns (ok: bool)
      modifies this
      ensures ok == Step(old(Now()), MkDir(p)).Ok?
      ensures ok ==> Now() == Step(old(Now()), MkDir(p)).value
    {
      for i := 0 to |p| + 1
        invariant files == old(files)
        invariant forall k :: 0 <= k < i ==> p[..k] !in files
        invariant dirs == old(dirs) + set k | 0 <= k < i :: p[..k]
      {
        if p[..i] in files {
          InDirs(p, i);
          return false;
        }
        dirs := dirs + {p[..i]};
      }
      AllDirs(p);
      ok := true;
    }

    /** The parents, then the file. */
    method WriteFile(p: Path, content: Content) returns (ok: bool)
      modifies this
      ensures ok == Step(old(Now()), Write(p, content)).Ok?
      ensures ok ==> Now() == Step(old(Now()), Write(p, content)).value
    {
      ghost var was := Now();
      ok := true;
      if p != [] {
        ok := MkdirAll(p[..|p| - 1]);
        ParentDirs(p);
      } else {
        assert DirsOf(Write(p, content)) == {};
      }
      if !ok { return; }
      NotAboveItself(p);
      if p in dirs { return false; }
      files := files[p := content];
    }

    method RemoveAll(p: Path)
      modifies this
      ensures Now() == Removed(old(Now()), p)
    {
      files := map q | q in files && !(p <= q) :: files[q];
      dirs := set q | q in dirs && !(p <= q);
    }

    /** filepath.WalkDir over the template's entries below at, with copyTree's callback. */
    method CopyTree(f: Forest, at: Path, skip: set<Name>) returns (ok: bool)
      modifies this
      ensures ok == Run(old(Now()), AtPath(at, CopyOps(f, skip))).Ok?
      ensures ok ==> Now() == Run(old(Now()), AtPath(at, CopyOps(f, skip))).value
      decreases f
    {
      if f.Nil? { return true; }
      var Cons(name, node, rest) := f;
      AtPathConcat(at, CopyOne(name, node, skip), CopyOps(rest, skip));
      RunConcat(Now(), AtPath(at, CopyOne(name, node, skip)), AtPath(at, CopyOps(rest, skip)));
      ok := CopyEntry(name, node, at, skip);
      if !ok { return; }
      ok := CopyTree(rest, at, skip);
    }

    method CopyEntry(name: Name, node: Tree, at: Path, skip: set<Name>) returns (ok: bool)
      modifies this
      ensures ok == Run(old(Now()), AtPath(at, CopyOne(name, node, skip))).Ok?
      ensures ok ==> Now() == Run(old(Now()), AtPath(at, CopyOne(name, node, skip))).value
      decreases node
    {
      RunEntry(Now(), at, name, node, skip);
      if name in skip { return true; }
      match node
      case File(content) =>
        ok := WriteFile(at + [name], content);
      case Dir(entries) =>
        ok := MkdirAll(at + [name]);
        if !ok { return; }
        ok := CopyTree(entries, at + [name], skip);
    }

    method ApplyDelta(delta: Delta, deleted: seq<string>) returns (ok: bool)
      modifies this
      ensures ok == Run(old(Now()), DeltaOps(delta)).Ok?
      ensures ok ==> Now() == RemovedAll(Run(old(Now()), DeltaOps(delta)).value, deleted)
    {
      ghost var was := Now();
      ghost var ops := DeltaOps(delta);
      for i := 0 to |delta|
        invariant Run(was, ops[..i]) == Ok(Now())
      {
        assert ops[..i + 1] == ops[..i] + [ops[i]] && ops == ops[..i + 1] + ops[i + 1..];
        RunOne(was, ops[..i], ops[i]);
        RunConcat(was, ops[..i + 1], ops[i + 1..]);
        ok := WriteFile(Resolve(delta[i].0), delta[i].1);
        if !ok { return; }
      }
      assert ops[..|delta|] == ops;
      ghost var built := Now();
      for i := 0 to |deleted|
        invariant Now() == RemovedAll(built, deleted[..i])
      {
        assert deleted[..i + 1][..i] == deleted[..i];
        RemoveAll(Resolve(deleted[i]));
      }
      assert deleted[..|deleted|] == deleted;
      ok := true;
    }

    method UntarEntry(e: TarEntry) returns (ok: bool)
      modifies this
      ensures ok == Step(old(Now()), UntarOp(e)).Ok?
      ensures ok ==> Now() == Step(old(Now()), UntarOp(e)).value
    {
      match e
      case TarDir(name) => ok := MkdirAll(Resolve(name));
      case TarFile(name, content) => ok := WriteFile(Resolve(name), content);
    }

    method Untar(tar: seq<TarEntry>) returns (ok: bool)
      modifies this
      ensures ok == Run(old(Now()), UntarOps(tar)).Ok?
      ensures ok ==> Now() == Run(old(Now()), UntarOps(tar)).value
    {
      ghost var was := Now();
      ghost var ops := UntarOps(tar);
      for i := 0 to |tar|
        invariant Run(was, ops[..i]) == Ok(Now())
      {
        assert ops[..i + 1] == ops[..i] + [ops[i]] && ops == ops[..i + 1] + ops[i + 1..];
        RunOne(was, ops[..i], ops[i]);
        RunConcat(was, ops[..i + 1], ops[i + 1..]);
        ok := UntarEntry(tar[i]);
        if !ok { return; }
      }
      assert ops[..|tar|] == ops;
      ok := true;
    }

    /** The base copied, then the delta; the destination's state after an error is not described. */
    method Materialize(f: Forest, exclude: set<Name>, delta: Delta, deleted: seq<string>) returns (ok: bool)
      modifies this
      ensures var r := Freeze.Materialize(f, old(Now()), SkipSet(exclude), delta, deleted);
        ok == r.Ok? && (ok ==> Now() == r.value)
    {
      ghost var was := Now();
      var skip := SkipSet(exclude);
      var copy := CopyOps(f, skip);
      RunConcat(was, LiveOps(f, skip), DeltaOps(delta));
      RunConcat(was, [MkDir([])], copy);
      RunOne(was, [], MkDir([]));
      AtRoot(copy);
      ok := MkdirAll([]);
      if !ok { return; }
      ok := CopyTree(f, [], skip);
      if !ok { return; }
      ok := ApplyDelta(delta, deleted);
    }

    method MaterializeFromTar(tar: seq<TarEntry>, delta: Delta, deleted: seq<string>) returns (ok: bool)
      modifies this
      ensures var r := Freeze.MaterializeFromTar(tar, old(Now()), delta, deleted);
        ok == r.Ok? && (ok ==> Now() == r.value)
    {
      RunConcat(Now(), UntarOps(tar), DeltaOps(delta));
      ok := Untar(tar);
      if !ok { return; }
      ok := ApplyDelta(delta, deleted);
    }
  }

  /** filepath.WalkDir over the template's entries, with Bundle's callback: the archive's entries in order. */
  method Bundle(f: Forest, at: Path, skip: set<Name>) returns (tar: seq<TarEntry>)
    ensures tar == Entries(AtPath(at, Archived(f, skip)))
    decreases f
  {
    if f.Nil? { return []; }
    var Cons(name, node, rest) := f;
    AtPathConcat(at, ArchivedOne(name, node, skip), Archived(rest, skip));
    var head := [];
    match node {
      case File(content) => head := [TarFile(Spell(at + [name]), content)];
      case Dir(entries) =>
        if name !in skip {
          head := Bundle(entries, at + [name], skip);
          AtPathBelow(at, name, Archived(entries, skip));
        }
    }
    var tail := Bundle(rest, at, skip);
    tar := head + tail;
  }

  function Entries(ops: seq<Op>): seq<TarEntry> { seq(|ops|, i requires 0 <= i < |ops| => Entry(ops[i])) }

  lemma InDirs(p: Path, i: nat)
    requires i <= |p|
    ensures p[..i] in DirsOf(MkDir(p))
  {
    assert p[..|p|] == p;
  }

  lemma AllDirs(p: Path)
    ensures DirsOf(MkDir(p)) == set k | 0 <= k < |p| + 1 :: p[..k]
  {
    assert p[..|p|] == p;
  }

  lemma ParentDirs(p: Path)
    requires p != []
    ensures DirsOf(MkDir(p[..|p| - 1])) == Above(p)
  {
    var q := p[..|p| - 1];
    AllDirs(q);
    assert forall k :: 0 <= k < |p| ==> q[..k] == p[..k];
  }
}

/** The store on the box's own disk: archives as files, one directory per workload. */
module LocalStore {
  import opened Common
  import opened Sorting
  import opened BackupIds

  /** A workload's directory, and a file in it. */
  type Path = (string, string)

  type Content = seq<int>

  type Files = map<Path, Content>

  datatype Backup = Backup(id: string, workload: string, createdAt: Time, kind: string)

  /** What List makes of a file; nothing of one that is no archive. */
  function EntryOf(p: Path): Option<Backup> {
    var a := ParseFileName(p.1);
    if a.None? then None
    else Some(Backup(BackupId(p.0, a.value.time, a.value.kind), p.0, a.value.time, a.value.kind))
  }

  /** What the sort compares by: fields in range compare as their times do. */
  function Instant(b: Backup): int {
    var t := b.createdAt;
    (((((t.year * 13 + t.month) * 32 + t.day) * 24 + t.hour) * 60 + t.minute) * 60 + t.second) * 1_000_000_000 + t.nanos
  }

  lemma InstantIsTime(a: Backup, b: Backup)
    requires Valid(a.createdAt) && Valid(b.createdAt)
    ensures Instant(a) < Instant(b) <==> Earlier(a.createdAt, b.createdAt)
  {}

  /** Listed archives have times of the calendar. */
  lemma EntryIsValid(p: Path)
    requires EntryOf(p).Some?
    ensures Valid(EntryOf(p).value.createdAt)
  {
    var stamp := p.1[..|p.1| - |SUFFIX|];
    var j := FirstDot(stamp);
    ParsedIsValid(if j >= 0 then stamp[..j] else stamp);
  }

  /** No archive is listed after an earlier one. */
  predicate LatestFirst(list: seq<Backup>) {
    forall i, j :: 0 <= i < j < |list| ==> !Earlier(list[i].createdAt, list[j].createdAt)
  }

  predicate Belongs(p: Path, workload: string) { (workload == "" || p.0 == workload) && EntryOf(p).Some? }

  /** No archive's name has a fraction of a second; so it is while only the store writes there. */
  predicate Plain(files: Files) {
    forall p :: p in files && EntryOf(p).Some? ==> |p.1| > 15 && p.1[15] == 'Z'
  }

  ghost predicate IsListing(files: Files, workload: string, list: seq<Backup>) {
    && (forall b :: b in list <==> exists p :: p in files && Belongs(p, workload) && EntryOf(p) == Some(b))
    && LatestFirst(list)
  }

  /** The file the id stands for is gone, unless it is stuck. */
  function Removed(files: Files, stuck: set<Path>, id: string): Files {
    if PathOf(id).Some? then files - ({PathOf(id).value} - stuck) else files
  }

  function RemovedAll(files: Files, stuck: set<Path>, list: seq<Backup>): Files {
    if list == [] then files else Removed(RemovedAll(files, stuck, list[..|list| - 1]), stuck, list[|list| - 1].id)
  }

  lemma RemovedOne(files: Files, stuck: set<Path>, list: seq<Backup>, k: nat)
    requires k < |list|
    ensures RemovedAll(files, stuck, list[..k + 1]) == Removed(RemovedAll(files, stuck, list[..k]), stuck, list[k].id)
  {
    assert list[..k + 1][..k] == list[..k];
  }

  /** In a plain store, a listed backup's id leads to its file. */
  lemma IdLeadsToFile(files: Files, p: Path, b: Backup)
    requires Plain(files) && p in files && EntryOf(p) == Some(b)
    ensures PathOf(b.id) == Some(p)
  {
    PathIsTheFile(p.0, p.1);
  }

  lemma {:induction false} RemovedAllRemoves(files: Files, stuck: set<Path>, list: seq<Backup>, p: Path)
    ensures p in RemovedAll(files, stuck, list)
      <==> p in files && (p in stuck || forall b :: b in list ==> PathOf(b.id) != Some(p))
    ensures p in RemovedAll(files, stuck, list) ==> RemovedAll(files, stuck, list)[p] == files[p]
  {
    if list != [] {
      RemovedAllRemoves(files, stuck, list[..|list| - 1], p);
      assert list == list[..|list| - 1] + [list[|list| - 1]];
    }
  }

  /**
   * Retain in a plain store removes exactly the workload's archives beyond the
   * newest keep that are not stuck, and touches no other file.
   */
  lemma RetainKeepsTheNewest(files: Files, stuck: set<Path>, workload: string, list: seq<Backup>, keep: nat, p: Path)
    requires Plain(files) && IsListing(files, workload, list) && Distinct(list)
    ensures var n := Min(keep, |list|);
      var after := RemovedAll(files, stuck, list[n..]);
      && (p in after <==> p in files && (p in stuck || !(Belongs(p, workload) && EntryOf(p).value in list[n..])))
      && (p in after ==> after[p] == files[p])
      && (p in files && p !in after ==> workload == "" || p.0 == workload)
      && (p in files && Belongs(p, workload) ==> (EntryOf(p).value in list[n..] <==> EntryOf(p).value !in list[..n]))
    ensures var n := Min(keep, |list|);
      forall k, r :: k in list[..n] && r in list[n..] ==> !Earlier(k.createdAt, r.createdAt)
  {
    var n := Min(keep, |list|);
    RemovedAllRemoves(files, stuck, list[n..], p);
    if p in files && EntryOf(p).Some? {
      forall b | b in list[n..] ensures PathOf(b.id) == Some(p) <==> Belongs(p, workload) && EntryOf(p) == Some(b) {
        ListedFile(files, workload, list, b, p);
      }
    } else if p in files {
      forall b | b in list[n..] ensures PathOf(b.id) != Some(p) { ListedFile(files, workload, list, b, p); }
    }
    if p in files && Belongs(p, workload) { InOnePart(list, n, EntryOf(p).value); }
  }

  /** The file a listed backup's id leads to is the one it was listed from. */
  lemma ListedFile(files: Files, workload: string, list: seq<Backup>, b: Backup, p: Path)
    requires Plain(files) && IsListing(files, workload, list) && b in list && p in files
    ensures PathOf(b.id) == Some(p) <==> Belongs(p, workload) && EntryOf(p) == Some(b)
  {
    var q :| q in files && Belongs(q, workload) && EntryOf(q) == Some(b);
    IdLeadsToFile(files, q, b);
    if EntryOf(p) == Some(b) { IdLeadsToFile(files, p, b); }
  }

  lemma InOnePart(list: seq<Backup>, n: nat, b: Backup)
    requires n <= |list| && Distinct(list) && b in list
    ensures b in list[n..] <==> b !in list[..n]
  {}

  lemma ListingIsDistinct(files: Files, p: Path, q: Path)
    requires Plain(files) && p in files && q in files && EntryOf(p).Some? && EntryOf(p) == EntryOf(q)
    ensures p == q
  {
    IdLeadsToFile(files, p, EntryOf(p).value);
    IdLeadsToFile(files, q, EntryOf(q).value);
  }

  class LocalStore {
    var files: Files
    const stuck: set<Path>   // files the file system refuses to remove

    constructor (stuck: set<Path>)
      ensures files == map[] && this.stuck == stuck
    {
      files, this.stuck := map[], stuck;
    }

    /** Stores an archive under the second it was made in; the rename only happens when all before it worked. */
    method Put(workload: string, content: Content, kind: string, now: Time, ok: bool) returns (r: Result<Backup>)
      requires Valid(now) && (kind == DIR || kind == DUMP)
      modifies this`files
      ensures r.Ok? == ok
      ensures files == if ok then old(files)[(workload, FileName(now, kind)) := content] else old(files)
      ensures ok ==> r.value.id == BackupId(workload, now, kind) && PathOf(r.value.id) == Some((workload, FileName(now, kind)))
      ensures ok ==> EntryOf((workload, FileName(now, kind))) == Some(r.value.(createdAt := ToSecond(now)))
      ensures Plain(old(files)) ==> Plain(files)
    {
      FileNameReadsBack(now, kind);
      IdReadsBack(workload, now, kind);
      FormatShape(now);
      if !ok { return Err; }
      files := files[(workload, FileName(now, kind)) := content];
      r := Ok(Backup(BackupId(workload, now, kind), workload, now, kind));
    }

    method Delete(id: string) returns (r: Result<()>)
      modifies this`files
      ensures r.Ok? == (ParseId(id).Some? && !(PathOf(id).value in old(files) && PathOf(id).value in stuck))
      ensures files == Removed(old(files), stuck, id)
    {
      var p := PathOf(id);
      if p.None? { return Err; }
      if p.value in stuck { return if p.value in files then Err else Ok(()); }
      files := files - {p.value};
      r := Ok(());
    }

    method List(workload: string) returns (list: seq<Backup>)
      ensures IsListing(files, workload, list)
      ensures forall b :: b in list ==> workload == "" || b.workload == workload
      ensures Plain(files) ==> Distinct(list)
    {
      var out := Walk(workload);
      forall b | b in out ensures Valid(b.createdAt) {
        var p :| p in files && Belongs(p, workload) && EntryOf(p) == Some(b);
        EntryIsValid(p);
      }
      list := SortList(out);
    }

    /** The entries of the directories walked, in the order the file system gives them. */
    method Walk(workload: string) returns (out: seq<Backup>)
      ensures forall b :: b in out <==> exists p :: p in files && Belongs(p, workload) && EntryOf(p) == Some(b)
      ensures Plain(files) ==> Distinct(out)
    {
      out := [];
      var rest := files.Keys;
      while rest != {}
        invariant rest <= files.Keys
        invariant forall b :: b in out <==> exists p :: p in files && p !in rest && Belongs(p, workload) && EntryOf(p) == Some(b)
        invariant Plain(files) ==> Distinct(out)
        decreases |rest|
      {
        var p: Path :| p in rest;
        rest := rest - {p};
        if (workload == "" || p.0 == workload) && EntryOf(p).Some? {
          var b := EntryOf(p).value;
          if Plain(files) && b in out {
            var q :| q in files && q !in rest + {p} && Belongs(q, workload) && EntryOf(q) == Some(b);
            ListingIsDistinct(files, p, q);
            assert false;
          }
          out := out + [b];
        }
      }
    }

    /** The newest keep archives stay; a negative keep indexes before the list. */
    method Retain(workload: string, keep: int) returns (ghost list: seq<Backup>, panics: bool)
      modifies this`files
      ensures IsListing(old(files), workload, list) && (Plain(old(files)) ==> Distinct(list))
      ensures panics == (keep < 0)
      ensures files == if panics then old(files) else RemovedAll(old(files), stuck, list[Min(keep, |list|)..])
      ensures !panics ==> forall k, r :: k in list[..Min(keep, |list|)] && r in list[Min(keep, |list|)..] ==> !Earlier(k.createdAt, r.createdAt)
    {
      var found := List(workload);
      list, panics := found, keep < 0;
      if keep >= 0 { DeleteFrom(found, keep); }
    }

    /** Retain's loop; errors of single deletes are ignored. */
    method DeleteFrom(found: seq<Backup>, keep: nat)
      modifies this`files
      ensures files == RemovedAll(old(files), stuck, found[Min(keep, |found|)..])
    {
      ghost var removed := found[Min(keep, |found|)..];
      assert removed[..0] == [];
      var i := keep;
      while i < |found|
        invariant keep <= i && (i == keep || i <= |found|)
        invariant files == RemovedAll(old(files), stuck, removed[..i - keep])
      {
        RemovedOne(old(files), stuck, removed, i - keep);
        var _ := Delete(found[i].id);
        i := i + 1;
      }
      assert removed[..i - keep] == removed;
    }
  }

  method SortList(out: seq<Backup>) returns (list: seq<Backup>)
    requires forall b :: b in out ==> Valid(b.createdAt)
    ensures LatestFirst(list) && (forall b :: b in list <==> b in out)
    ensures Distinct(out) ==> Distinct(list)
  {
    var a := new Backup[|out|](i requires 0 <= i < |out| => out[i]);
    assert a[..] == out;
    SortNewestFirst(a, Instant);
    list := a[..];
    forall b ensures b in list <==> b in out {
      assert b in multiset(list) <==> b in multiset(out);
    }
    if Distinct(out) { PartIsDistinct(out, list); }
    forall i, j | 0 <= i < j < |list| ensures !Earlier(list[i].createdAt, list[j].createdAt) {
      assert list[i] in out && list[j] in out;
      InstantIsTime(list[i], list[j]);
    }
  }
}

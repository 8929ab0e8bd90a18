/**
 * Several backup stores behind one: new archives go to the primary, and the
 * archives older stores hold are still listed, fetched and pruned.
 */
module MultiStore {
  import opened Common
  import opened Sorting

  /** A backup's id, parsed, or a text that is none. */
  datatype Id = Parsed(workload: string, at: int, kind: string) | Malformed(text: string)

  function CreatedAt(id: Id): int { if id.Parsed? then id.at else 0 }

  // ------------------------------------------------------------ on plain values

  /** What one store holds, whether it answers, and which ids it fails to delete. */
  datatype View = View(reachable: bool, ids: set<Id>, refuses: set<Id>)

  /** What its List returns. */
  function Holds(v: View, workload: string): set<Id> {
    set id | id in v.ids && id.Parsed? && (workload == "" || id.workload == workload)
  }

  function Listed(vs: seq<View>, workload: string): set<Id> {
    if vs == [] then {}
    else Listed(vs[..|vs| - 1], workload) + if vs[|vs| - 1].reachable then Holds(vs[|vs| - 1], workload) else {}
  }

  /** A reachable store that lists the id for its workload. */
  predicate HasId(v: View, id: Id) { id.Parsed? && v.reachable && id in v.ids }

  /** The first such store, from index n on. */
  function OwnerFrom(vs: seq<View>, id: Id, n: nat): (r: Option<nat>)
    requires n <= |vs|
    ensures r.Some? ==> n <= r.value < |vs| && HasId(vs[r.value], id)
    ensures r.Some? ==> forall i :: n <= i < r.value ==> !HasId(vs[i], id)
    ensures r.None? ==> forall i :: n <= i < |vs| ==> !HasId(vs[i], id)
    decreases |vs| - n
  {
    if n == |vs| then None else if HasId(vs[n], id) then Some(n) else OwnerFrom(vs, id, n + 1)
  }

  function Owner(vs: seq<View>, id: Id): Option<nat> { OwnerFrom(vs, id, 0) }

  /** The store that owns the id fails to delete it. */
  predicate Refused(vs: seq<View>, id: Id) {
    var owner := Owner(vs, id);
    owner.Some? && id in vs[owner.value].refuses
  }

  /** Delete removes an id from its owner alone. */
  function Deleted(vs: seq<View>, id: Id): (r: seq<View>) {
    if Owner(vs, id).Some? && !Refused(vs, id) then
      var n := Owner(vs, id).value;
      vs[n := vs[n].(ids := vs[n].ids - {id})]
    else vs
  }

  function DeletedAll(vs: seq<View>, ids: seq<Id>): seq<View> {
    if ids == [] then vs else Deleted(DeletedAll(vs, ids[..|ids| - 1]), ids[|ids| - 1])
  }

  ghost predicate InTwo(vs: seq<View>, id: Id) {
    exists i, j :: 0 <= i < j < |vs| && HasId(vs[i], id) && HasId(vs[j], id)
  }

  lemma {:induction false} ListedIsUnion(vs: seq<View>, workload: string, id: Id)
    ensures id in Listed(vs, workload)
      <==> exists i :: 0 <= i < |vs| && vs[i].reachable && id in Holds(vs[i], workload)
  {
    if vs != [] {
      var n := |vs| - 1;
      ListedIsUnion(vs[..n], workload, id);
      if i :| 0 <= i < |vs| && vs[i].reachable && id in Holds(vs[i], workload) {
        if i < n { assert vs[..n][i] == vs[i]; }
      }
    }
  }

  /**
   * List names an id for its workload exactly when owner finds a store for it,
   * if and only if the primary answers or no other store that answers has it:
   * List fails as a whole without the primary, owner goes on to the others.
   */
  lemma ListedIffOwned(vs: seq<View>, id: Id)
    requires vs != [] && id.Parsed? && id.workload != ""
    ensures var listed := vs[0].reachable && id in Listed(vs, id.workload);
      (listed <==> Owner(vs, id).Some?) <==> vs[0].reachable || forall i :: 0 < i < |vs| ==> !HasId(vs[i], id)
  {
    ListedIsUnion(vs, id.workload, id);
    assert forall i :: 0 <= i < |vs| ==> (HasId(vs[i], id) <==> vs[i].reachable && id in Holds(vs[i], id.workload));
  }

  /** One delete takes the id from one store; it stays listed just when another has it too, or its owner refused. */
  lemma DeleteTakesOne(vs: seq<View>, id: Id, x: Id)
    ensures var r := Deleted(vs, id); |r| == |vs|
    ensures var r := Deleted(vs, id); x != id ==> forall i :: 0 <= i < |vs| ==> HasId(r[i], x) == HasId(vs[i], x)
    ensures var r := Deleted(vs, id); (exists i :: 0 <= i < |vs| && HasId(r[i], id)) <==> InTwo(vs, id) || Refused(vs, id)
    ensures var r := Deleted(vs, id);
      forall i :: 0 <= i < |vs| ==> r[i].reachable == vs[i].reachable && r[i].refuses == vs[i].refuses
  {
    var r := Deleted(vs, id);
    if Owner(vs, id).Some? && !Refused(vs, id) {
      var n := Owner(vs, id).value;
      if i :| 0 <= i < |vs| && HasId(r[i], id) {
        assert i > n && HasId(vs[n], id) && HasId(vs[i], id);
      }
      if i, j :| 0 <= i < j < |vs| && HasId(vs[i], id) && HasId(vs[j], id) {
        assert j > n && HasId(r[j], id);
      }
    }
  }

  ghost predicate Present(vs: seq<View>, id: Id) { exists i :: 0 <= i < |vs| && HasId(vs[i], id) }

  /** Where an id is decides its owner. */
  lemma SameOwner(vs: seq<View>, ws: seq<View>, x: Id, n: nat)
    requires |vs| == |ws| && n <= |vs| && forall i :: 0 <= i < |vs| ==> HasId(ws[i], x) == HasId(vs[i], x)
    ensures OwnerFrom(ws, x, n) == OwnerFrom(vs, x, n)
    decreases |vs| - n
  {
    if n < |vs| { SameOwner(vs, ws, x, n + 1); }
  }

  /** After deleting each of some ids once, an id is left when it was not among them, a second store has it, or its owner refused. */
  lemma {:induction false} DeletedAllLeaves(vs: seq<View>, ids: seq<Id>, x: Id)
    requires forall i, j :: 0 <= i < j < |ids| ==> ids[i] != ids[j]
    ensures |DeletedAll(vs, ids)| == |vs|
    ensures var r := DeletedAll(vs, ids);
      forall i :: 0 <= i < |vs| ==> r[i].reachable == vs[i].reachable && r[i].refuses == vs[i].refuses
    ensures x !in ids ==> forall i :: 0 <= i < |vs| ==> HasId(DeletedAll(vs, ids)[i], x) == HasId(vs[i], x)
    ensures x in ids ==> (Present(DeletedAll(vs, ids), x) <==> InTwo(vs, x) || Refused(vs, x))
  {
    if ids != [] {
      var n := |ids| - 1;
      var last, rest := ids[n], ids[..n];
      var before := DeletedAll(vs, rest);
      assert ids == rest + [last];
      DeletedAllLeaves(vs, rest, x);
      DeleteTakesOne(before, last, x);
      if x == last {
        assert x !in rest;
        SameOwner(vs, before, x, 0);
        assert InTwo(before, x) <==> InTwo(vs, x);
      }
    }
  }

  function Kept(list: seq<Id>, keep: nat): seq<Id> { list[..Min(keep, |list|)] }

  function Removed(list: seq<Id>, keep: nat): seq<Id> { list[Min(keep, |list|)..] }

  /** Retain on values: the list's ids from keep on are deleted, one after the other. */
  function Retained(vs: seq<View>, list: seq<Id>, keep: nat): seq<View> { DeletedAll(vs, Removed(list, keep)) }

  /** A List result: every id once, newest first. */
  ghost predicate IsList(vs: seq<View>, workload: string, list: seq<Id>) {
    && (forall id :: id in list <==> id in Listed(vs, workload))
    && (forall i, j :: 0 <= i < j < |list| ==> list[i] != list[j])
    && LatestFirst(list)
  }

  /** No backup is listed after an earlier one. */
  predicate LatestFirst(list: seq<Id>) {
    forall i, j :: 0 <= i < j < |list| && list[i].Parsed? && list[j].Parsed? ==> list[i].at >= list[j].at
  }

  ghost predicate LeavesExactly(vs: seq<View>, workload: string, kept: seq<Id>) {
    forall id :: id in Listed(vs, workload) <==> id in kept
  }

  /**
   * Retain leaves exactly the newest keep backups of what it listed, or all if
   * there are fewer, if and only if none it removed lies in two stores or is
   * refused by its owner.
   */
  lemma RetainLeavesTheNewest(vs: seq<View>, workload: string, list: seq<Id>, keep: nat)
    requires IsList(vs, workload, list)
    ensures LeavesExactly(Retained(vs, list, keep), workload, Kept(list, keep))
      <==> forall id :: id in Removed(list, keep) ==> !InTwo(vs, id) && !Refused(vs, id)
    ensures forall k, r :: k in Kept(list, keep) && r in Removed(list, keep) ==> k.Parsed? && r.Parsed? && k.at >= r.at
  {
    var after := Retained(vs, list, keep);
    forall id | id in list ensures id.Parsed? { ListedIsUnion(vs, workload, id); }
    forall id
      ensures id in Listed(after, workload) <==> id in Kept(list, keep) || (id in Removed(list, keep) && (InTwo(vs, id) || Refused(vs, id)))
      ensures !(id in Kept(list, keep) && id in Removed(list, keep))
    {
      AfterRetain(vs, workload, list, keep, id);
    }
  }

  lemma AfterRetain(vs: seq<View>, workload: string, list: seq<Id>, keep: nat, id: Id)
    requires IsList(vs, workload, list)
    ensures id in Listed(Retained(vs, list, keep), workload)
      <==> id in Kept(list, keep) || (id in Removed(list, keep) && (InTwo(vs, id) || Refused(vs, id)))
    ensures !(id in Kept(list, keep) && id in Removed(list, keep))
  {
    var after := Retained(vs, list, keep);
    assert list == Kept(list, keep) + Removed(list, keep);
    DeletedAllLeaves(vs, Removed(list, keep), id);
    PresentIsListed(vs, workload, id);
    PresentIsListed(after, workload, id);
  }

  lemma PresentIsListed(vs: seq<View>, workload: string, id: Id)
    ensures id in Listed(vs, workload)
      <==> Present(vs, id) && (workload == "" || id.workload == workload)
  {
    ListedIsUnion(vs, workload, id);
    assert forall i :: 0 <= i < |vs| ==> (vs[i].reachable && id in Holds(vs[i], workload)
      <==> HasId(vs[i], id) && (workload == "" || id.workload == workload));
  }

  // ------------------------------------------------------------------ the stores

  /** One store: unreachable, it fails every call; some deletes it may fail anyway. */
  class Store {
    var reachable: bool
    var ids: set<Id>
    var refuses: set<Id>

    ghost function Seen(): View
      reads this
    {
      View(reachable, ids, refuses)
    }

    method List(workload: string) returns (r: Result<seq<Id>>)
      ensures r.Ok? == reachable
      ensures r.Ok? ==> forall id :: id in r.value <==> id in Holds(Seen(), workload)
    {
      if !reachable { return Err; }
      var list, rest := [], ids;
      while rest != {}
        invariant rest <= ids
        invariant forall id :: id in list <==> id in Holds(Seen(), workload) && id !in rest
        decreases |rest|
      {
        var id :| id in rest;
        rest := rest - {id};
        if id.Parsed? && (workload == "" || id.workload == workload) { list := list + [id]; }
      }
      r := Ok(list);
    }

    method Delete(id: Id) returns (r: Result<()>)
      modifies this`ids
      ensures r.Ok? == (reachable && id !in refuses)
      ensures ids == if r.Ok? then old(ids) - {id} else old(ids)
    {
      if !reachable || id in refuses { return Err; }
      ids := ids - {id};
      r := Ok(());
    }
  }

  ghost function ViewsOf(stores: seq<Store>): seq<View>
    reads stores
  {
    seq(|stores|, i requires 0 <= i < |stores| reads stores => stores[i].Seen())
  }

  class MultiStore {
    const primary: Store
    const older: seq<Store>

    constructor (primary: Store, older: seq<Store>)
      ensures this.primary == primary && this.older == older
    {
      this.primary, this.older := primary, older;
    }

    function All(): seq<Store> { [primary] + older }

    ghost function Views(): seq<View>
      reads All()
    {
      ViewsOf(All())
    }

    /** The stores are distinct, as their targets are. */
    predicate Valid() {
      forall i, j :: 0 <= i < j < |All()| ==> All()[i] != All()[j]
    }

    method List(workload: string) returns (r: Result<seq<Id>>)
      ensures r.Ok? == primary.reachable
      ensures r.Ok? ==> IsList(Views(), workload, r.value)
    {
      ghost var vs := Views();
      r := Collect(workload);
      if r.Ok? {
        var sorted := SortList(r.value);
        assert Views() == vs;
        r := Ok(sorted);
      }
    }

    /** List's loop over the stores. */
    method Collect(workload: string) returns (r: Result<seq<Id>>)
      ensures r.Ok? == primary.reachable
      ensures r.Ok? ==> forall id :: id in r.value <==> id in Listed(Views(), workload)
      ensures r.Ok? ==> forall m, n :: 0 <= m < n < |r.value| ==> r.value[m] != r.value[n]
    {
      var seen, out: seq<Id> := {}, [];
      var stores := All();
      ghost var vs := Views();
      for i := 0 to |stores|
        invariant i > 0 ==> primary.reachable
        invariant forall id :: id in out <==> id in seen
        invariant seen == Listed(vs[..i], workload)
        invariant forall m, n :: 0 <= m < n < |out| ==> out[m] != out[n]
      {
        assert vs[..i + 1][..i] == vs[..i];
        var list := stores[i].List(workload);
        if list.Err? {
          if i == 0 { return Err; }
          continue;
        }
        seen, out := Merge(seen, out, list.value);
      }
      assert vs[..|stores|] == vs;
      r := Ok(out);
    }

    /** The index of the first store that lists the id; none for a malformed id. */
    method FindOwner(id: Id) returns (r: Option<nat>)
      ensures r == Owner(Views(), id)
    {
      if id.Malformed? { return None; }
      var stores := All();
      for i := 0 to |stores|
        invariant Owner(Views(), id) == OwnerFrom(Views(), id, i)
      {
        var list := stores[i].List(id.workload);
        if list.Err? { continue; }
        if id in list.value { return Some(i); }
      }
      r := None;
    }

    /** An id no store lists counts as deleted already. */
    method Delete(id: Id) returns (r: Result<()>)
      requires Valid()
      modifies All()
      ensures r.Err? == Refused(old(Views()), id)
      ensures Views() == Deleted(old(Views()), id)
    {
      var owner := FindOwner(id);
      if owner.None? { return Ok(()); }
      r := All()[owner.value].Delete(id);
    }

    /** Retain's loop. */
    method RetainFrom(list: seq<Id>, keep: nat)
      requires Valid()
      modifies All()
      ensures Views() == Retained(old(Views()), list, keep)
    {
      ghost var removed := Removed(list, keep);
      assert removed[..0] == [];
      var i := keep;
      while i < |list|
        invariant keep <= i <= |list| || (i == keep && removed == [])
        invariant Views() == DeletedAll(old(Views()), removed[..if i < |list| then i - keep else |removed|])
      {
        assert removed[..i + 1 - keep][..i - keep] == removed[..i - keep];
        var _ := Delete(list[i]);
        i := i + 1;
      }
      assert removed[..|removed|] == removed;
    }

    /**
     * Keeps the newest keep archives of the list; the errors of single deletes
     * are ignored. A negative keep indexes before the list.
     */
    method Retain(workload: string, keep: int) returns (r: Result<()>, panics: bool)
      requires Valid()
      modifies All()
      ensures r.Ok? == old(primary.reachable) && panics == (r.Ok? && keep < 0)
      ensures r.Err? || panics ==> Views() == old(Views())
      ensures r.Ok? && !panics ==> exists list :: IsList(old(Views()), workload, list) && Views() == Retained(old(Views()), list, keep)
    {
      var list := List(workload);
      if list.Err? { return Err, false; }
      if keep < 0 { return Ok(()), true; }
      RetainFrom(list.value, keep);
      r, panics := Ok(()), false;
    }
  }

  method SortList(out: seq<Id>) returns (sorted: seq<Id>)
    requires forall m, n :: 0 <= m < n < |out| ==> out[m] != out[n]
    ensures forall id :: id in sorted <==> id in out
    ensures forall m, n :: 0 <= m < n < |sorted| ==> sorted[m] != sorted[n]
    ensures LatestFirst(sorted)
  {
    var a := new Id[|out|](k requires 0 <= k < |out| => out[k]);
    assert a[..] == out;
    SortNewestFirst(a, CreatedAt);
    sorted := a[..];
    PartIsDistinct(out, sorted);
    PartIsDistinct(sorted, out);
  }

  /** The inner loop of List: what was not seen yet is appended. */
  method Merge(seen: set<Id>, out: seq<Id>, list: seq<Id>) returns (seen': set<Id>, out': seq<Id>)
    requires forall id :: id in out <==> id in seen
    requires forall m, n :: 0 <= m < n < |out| ==> out[m] != out[n]
    ensures forall id :: id in out' <==> id in seen'
    ensures forall id :: id in seen' <==> id in seen || id in list
    ensures forall m, n :: 0 <= m < n < |out'| ==> out'[m] != out'[n]
  {
    seen', out' := seen, out;
    for i := 0 to |list|
      invariant forall id :: id in out' <==> id in seen'
      invariant forall id :: id in seen' <==> id in seen || id in list[..i]
      invariant forall m, n :: 0 <= m < n < |out'| ==> out'[m] != out'[n]
    {
      if list[i] !in seen' { seen', out' := seen' + {list[i]}, out' + [list[i]]; }
    }
  }
}

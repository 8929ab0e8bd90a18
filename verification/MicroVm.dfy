/**
 * The snapshot life cycle of one microVM: suspend, compaction, restore, boot.
 * The steps are at the granularity of the driver's locks and API calls, so a
 * compaction may interleave with everything that does not take its lock.
 */
module MicroVm {
  import opened Common

  /** Down: no VMM process. Blank: a VMM that has not started a guest. */
  datatype Vmm = Down | Blank | Running | Paused

  /** A snapshot file: of which snapshot, of which revision of the rootfs, and whether it is complete. */
  datatype Image = Image(snap: nat, rev: nat, whole: bool)

  /** An API call that succeeds, is refused, or takes effect although it reports an error. */
  datatype Call = Done | Refused | Lost

  /** Where the operation in progress is; Free between operations. */
  datatype Pc =
    | Free
    | ToSnapshot | ToKill | ToResume | ToDrop          // Suspend
    | ToSpawn | ToLoad | ToWait | ToConsume | ToGiveUp // Start, restoring
    | ToBoot                                           // Start, after a restore that failed

  /** A guest resumed from memory: the files used, the rootfs revision, the snapshots loaded before. */
  datatype Load = Load(mem: Image, state: Image, rev: nat, before: set<nat>)

  /** snap.mem.zst: of which memory image, and whether the compression of it came to its end. */
  datatype Packed = Packed(image: Image, complete: bool)

  /** Where the output of a compaction is: not yet created, under its name, or already unlinked. */
  datatype Output = Unopened | Linked | Unlinked

  /** A zstd in flight: the memory image it linked, and its output. */
  datatype Compaction = Compaction(input: Image, out: Output)

  /**
   * raw and zst are snap.mem and snap.mem.zst, state is snap.state. compact is
   * the compaction in flight. rev changes whenever the rootfs is written. loads
   * is history.
   */
  datatype Vm = Vm(vmm: Vmm, ephemeral: bool, rev: nat, raw: Option<Image>, zst: Option<Packed>, state: Option<Image>,
                   nextSnap: nat, compact: Option<Compaction>, pc: Pc, loads: seq<Load>)
  {
    /** hasSnapshot */
    predicate HasSnapshot() { raw.Some? || zst.Some? }

    /** The memory a restore would use: the raw file, else what the compressed one gives back. */
    function Memory(): Option<Image> {
      if raw.Some? then raw else if zst.Some? && zst.value.complete then Some(zst.value.image) else None
    }

    /** A start would restore something. */
    predicate Restorable() { state.Some? && Memory().Some? }

    /** The compaction in flight can still put its output in place. */
    predicate CanLand() { compact.Some? && !compact.value.out.Unlinked? }

    /** dropSnapshot; a compaction goes on writing the output it has open. */
    function Dropped(): Vm {
      this.(raw := None, zst := None, state := None,
            compact := if compact.Some? && compact.value.out.Linked? then Some(compact.value.(out := Unlinked)) else compact)
    }
  }

  function SnapsOf(loads: seq<Load>): set<nat> { set l | l in loads :: l.state.snap }

  datatype Event =
    | GuestRuns
    | VmmDies
    | Pause(call: Call)
    | Snapshot(ok: bool, rawLeft: bool, stateLeft: bool)
    | KillPaused
    | Resume(call: Call)
    | DropPartial
    | TearDown                                   // Suspend of an ephemeral VM
    | Heal(call: Call, serves: bool)             // Start of a paused VM
    | Decompress(ok: bool, left: bool)
    | Spawn(ok: bool, alive: bool)
    | LoadSnapshot(call: Call)
    | WaitServing(ok: bool)
    | Consume
    | GiveUp
    | Boot(ok: bool, alive: bool)
    | Stop
    | Delete
    | CompactBegin
    | CompactOpen
    | CompactEnd(ok: bool)
    | DriverCrash

  predicate TookEffect(c: Call) { c != Refused }

  predicate Enabled(v: Vm, e: Event) {
    match e
    case GuestRuns => v.vmm.Running?
    case VmmDies => !v.vmm.Down?
    case Pause(call) => v.pc.Free? && !v.vmm.Down? && !v.ephemeral && (TookEffect(call) ==> v.vmm in {Running, Paused})
    case Snapshot(ok, _, _) => v.pc.ToSnapshot? && (ok ==> v.vmm.Paused?)
    case KillPaused => v.pc.ToKill?
    case Resume(call) => v.pc.ToResume? && (TookEffect(call) ==> v.vmm.Paused?)
    case DropPartial => v.pc.ToDrop?
    case TearDown => v.pc.Free? && v.ephemeral && !v.vmm.Down?
    case Heal(call, serves) => v.pc.Free? && v.vmm.Paused? && (serves ==> call.Done?)
    case Decompress(ok, _) => v.pc.Free? && v.vmm.Down? && v.compact.None? && v.HasSnapshot() && (if ok then v.Memory().Some? else v.raw.None?)
    case Spawn(_, _) => v.pc.ToSpawn?
    case LoadSnapshot(call) =>
      v.pc.ToLoad? && (TookEffect(call) ==> v.vmm.Blank? && v.raw.Some? && v.state.Some?)
    case WaitServing(ok) => v.pc.ToWait? && (ok ==> v.vmm.Running?)
    case Consume => v.pc.ToConsume?
    case GiveUp => v.pc.ToGiveUp?
    case Boot(_, _) => v.pc.ToBoot? || (v.pc.Free? && v.vmm.Down? && !v.HasSnapshot())
    case Stop => v.pc.Free?
    case Delete => v.pc.Free?
    case CompactBegin => v.compact.None? && v.raw.Some?
    case CompactOpen => v.compact.Some? && v.compact.value.out.Unopened?
    case CompactEnd(ok) => v.compact.Some? && (ok ==> !v.compact.value.out.Unopened?)
    case DriverCrash => true
  }

  /** One step; an event that cannot happen here changes nothing. */
  function Next(v: Vm, e: Event): Vm {
    if !Enabled(v, e) then v else
    match e
    case GuestRuns => v.(rev := v.rev + 1)
    case VmmDies => v.(vmm := Down)
    case Pause(call) =>
      v.(vmm := if TookEffect(call) then Paused else v.vmm, pc := if call.Done? then ToSnapshot else Free)
    case Snapshot(ok, rawLeft, stateLeft) =>
      var full := Image(v.nextSnap, v.rev, true);
      if ok then v.(raw := Some(full), state := Some(full), nextSnap := v.nextSnap + 1, pc := ToKill)
      else
        var part := Some(full.(whole := false));
        v.(raw := if rawLeft then part else v.raw, state := if stateLeft then part else v.state,
           nextSnap := v.nextSnap + 1, pc := ToResume)
    case KillPaused => v.(vmm := Down, pc := Free)
    case Resume(call) => v.(vmm := if call.Done? then Running else Down, pc := ToDrop)
    case DropPartial => v.Dropped().(pc := Free)
    case TearDown => v.(vmm := Down)
    case Heal(call, serves) =>
      if serves then v.(vmm := Running)
      else v.(vmm := Down, rev := if TookEffect(call) then v.rev + 1 else v.rev)
    case Decompress(ok, left) =>
      if v.raw.Some? then v.(pc := ToSpawn)
      else if ok then v.(raw := Some(v.zst.value.image), zst := None, pc := ToSpawn)
      else v.(raw := if left then Some(v.zst.value.image.(whole := false)) else None, pc := ToGiveUp)
    case Spawn(ok, alive) =>
      if ok then v.(vmm := Blank, pc := ToLoad) else v.(vmm := if alive then Blank else Down, pc := ToGiveUp)
    case LoadSnapshot(call) =>
      if TookEffect(call) then
        v.(vmm := Running, loads := v.loads + [Load(v.raw.value, v.state.value, v.rev, SnapsOf(v.loads))],
           pc := if call.Done? then ToWait else ToGiveUp)
      else v.(pc := ToGiveUp)
    case WaitServing(ok) => v.(pc := if ok then ToConsume else ToGiveUp)
    case Consume => v.Dropped().(pc := Free)
    case GiveUp => v.Dropped().(vmm := Down, pc := ToBoot)
    case Boot(ok, alive) =>
      v.(rev := v.rev + 1, vmm := if ok then Running else if alive then Blank else Down, pc := Free)
    case Stop => v.Dropped().(vmm := Down)
    case Delete => v.Dropped().(vmm := Down, rev := v.rev + 1)
    case CompactBegin => v.(compact := Some(Compaction(v.raw.value, Unopened)))
    case CompactOpen =>
      v.(zst := Some(Packed(v.compact.value.input, false)), compact := Some(v.compact.value.(out := Linked)))
    case CompactEnd(ok) =>
      if !ok then v.(zst := None, compact := None)
      else if v.CanLand() then v.(zst := Some(Packed(v.compact.value.input, true)), raw := None, compact := None)
      else v.(raw := None, compact := None)
    case DriverCrash => v.(pc := Free, compact := None)
  }

  function Run(v: Vm, es: seq<Event>): Vm
    decreases |es|
  {
    if es == [] then v else Run(Next(v, es[0]), es[1..])
  }

  /** The driver does not die, and no snapshot is taken while a compaction can still put its output in place. */
  predicate Disciplined(v: Vm, e: Event) {
    !e.DriverCrash? && (e.Snapshot? ==> !v.CanLand())
  }

  predicate DisciplinedRun(v: Vm, es: seq<Event>)
    decreases |es|
  {
    es == [] || (Disciplined(v, es[0]) && DisciplinedRun(Next(v, es[0]), es[1..]))
  }

  // ---------------------------------------------------------------- invariant

  /** What a restore must be: memory and state of one complete snapshot, of this very rootfs, for the first time. */
  predicate Safe(l: Load) {
    l.mem == l.state && l.mem.whole && l.mem.rev == l.rev && l.state.snap !in l.before
  }

  /** The files are one complete snapshot of the rootfs as it is, never restored. */
  predicate Good(v: Vm) {
    && v.state.Some? && v.Memory() == v.state
    && v.state.value.whole && v.state.value.rev == v.rev && v.state.value.snap !in SnapsOf(v.loads)
  }

  /** A compaction that can still land is of the snapshot in place, and its input is still there. */
  predicate CompactsIt(v: Vm) {
    v.CanLand() ==> v.raw == v.state == Some(v.compact.value.input)
  }

  /**
   * Outside the steps that consume or discard it, a state file with memory is
   * complete, current and unused; one without stays without.
   */
  predicate Intact(v: Vm) {
    v.state.Some? && v.pc in {Free, ToSnapshot, ToKill, ToSpawn, ToLoad} ==>
      && CompactsIt(v)
      && (v.Restorable() ==> Good(v) && !v.vmm.Running?)
  }

  predicate Inv(v: Vm) {
    && Intact(v)
    && (forall l :: l in v.loads ==> Safe(l))
    && (forall s :: s in SnapsOf(v.loads) ==> s < v.nextSnap)
    && (v.state.Some? ==> v.state.value.snap < v.nextSnap)
    // a live guest between operations has no snapshot left that a start would restore
    && (v.Restorable() && v.pc.Free? ==> v.vmm in {Down, Blank})
    && (v.pc.ToSnapshot? ==> !v.Restorable())
    && (v.pc.ToBoot? ==> v.state.None? && v.vmm.Down?)
    && (v.pc.ToSpawn? ==> v.vmm.Down?)
    && (v.pc.ToLoad? ==> v.vmm in {Blank, Down})
    // the name of an unlinked output stays free until its compaction ends
    && (v.compact.Some? && v.compact.value.out.Unlinked? ==> v.zst.None?)
  }

  predicate Init(v: Vm) {
    v.pc.Free? && v.raw.None? && v.zst.None? && v.state.None? && v.compact.None? && v.loads == []
  }

  lemma SnapsGrow(loads: seq<Load>, l: Load)
    ensures SnapsOf(loads + [l]) == SnapsOf(loads) + {l.state.snap}
  {
    forall s | s in SnapsOf(loads) + {l.state.snap} ensures s in SnapsOf(loads + [l]) {
      if s in SnapsOf(loads) {
        var x :| x in loads && x.state.snap == s;
        assert x in loads + [l];
      } else {
        assert l in loads + [l];
      }
    }
  }

  lemma InvLoad(v: Vm, e: Event)
    requires Inv(v) && e.LoadSnapshot?
    ensures Inv(Next(v, e))
  {
    if Enabled(v, e) && TookEffect(e.call) {
      var l := Load(v.raw.value, v.state.value, v.rev, SnapsOf(v.loads));
      SnapsGrow(v.loads, l);
      assert Next(v, e).loads == v.loads + [l];
    }
  }

  lemma InvSuspend(v: Vm, e: Event)
    requires Inv(v) && Disciplined(v, e)
    requires e.Pause? || e.Snapshot? || e.KillPaused? || e.Resume? || e.DropPartial? || e.TearDown?
    ensures Inv(Next(v, e))
  {
    assert Next(v, e).loads == v.loads;
  }

  lemma InvBoot(v: Vm, e: Event)
    requires Inv(v) && (e.Heal? || e.Boot?)
    ensures Inv(Next(v, e))
  {
    assert Next(v, e).loads == v.loads;
  }

  lemma InvRestore(v: Vm, e: Event)
    requires Inv(v) && (e.Decompress? || e.Spawn?)
    ensures Inv(Next(v, e))
  {
    assert Next(v, e).loads == v.loads;
  }

  lemma InvEnd(v: Vm, e: Event)
    requires Inv(v) && (e.WaitServing? || e.Consume? || e.GiveUp?)
    ensures Inv(Next(v, e))
  {
    assert Next(v, e).loads == v.loads;
  }

  lemma InvStart(v: Vm, e: Event)
    requires Inv(v)
    requires e.Heal? || e.Decompress? || e.Spawn? || e.WaitServing? || e.Consume? || e.GiveUp? || e.Boot?
    ensures Inv(Next(v, e))
  {
    if e.Heal? || e.Boot? { InvBoot(v, e); }
    else if e.Decompress? || e.Spawn? { InvRestore(v, e); }
    else { InvEnd(v, e); }
  }

  lemma InvCompact(v: Vm, e: Event)
    requires Inv(v) && (e.CompactBegin? || e.CompactOpen? || e.CompactEnd?)
    ensures Inv(Next(v, e))
  {
    assert Next(v, e).loads == v.loads;
  }

  lemma InvRest(v: Vm, e: Event)
    requires Inv(v) && (e.GuestRuns? || e.VmmDies? || e.Stop? || e.Delete?)
    ensures Inv(Next(v, e))
  {
    assert Next(v, e).loads == v.loads;
  }

  lemma InvStep(v: Vm, e: Event)
    requires Inv(v) && Disciplined(v, e)
    ensures Inv(Next(v, e))
  {
    if e.LoadSnapshot? { InvLoad(v, e); }
    else if e.Pause? || e.Snapshot? || e.KillPaused? || e.Resume? || e.DropPartial? || e.TearDown? { InvSuspend(v, e); }
    else if e.CompactBegin? || e.CompactOpen? || e.CompactEnd? { InvCompact(v, e); }
    else if e.GuestRuns? || e.VmmDies? || e.Stop? || e.Delete? { InvRest(v, e); }
    else { InvStart(v, e); }
  }

  lemma {:induction false} InvRun(v: Vm, es: seq<Event>)
    requires Inv(v) && DisciplinedRun(v, es)
    ensures Inv(Run(v, es))
    decreases |es|
  {
    if es != [] {
      InvStep(v, es[0]);
      InvRun(Next(v, es[0]), es[1..]);
    }
  }

  // ------------------------------------------------------------ main results

  /**
   * In every disciplined run, whichever calls fail, a guest is resumed from
   * memory only with a complete snapshot of the rootfs as it is, and never twice
   * from the same one.
   */
  lemma RestoresAreSafe(start: Vm, es: seq<Event>)
    requires Init(start) && DisciplinedRun(start, es)
    ensures var v := Run(start, es);
      forall i :: 0 <= i < |v.loads| ==> Safe(v.loads[i])
  {
    InvRun(start, es);
    var v := Run(start, es);
    forall i | 0 <= i < |v.loads| ensures Safe(v.loads[i]) { assert v.loads[i] in v.loads; }
  }

  /** loads lists what was loaded before each load, so that Safe rules out a second restore. */
  predicate Recorded(loads: seq<Load>) {
    forall i :: 0 <= i < |loads| ==> loads[i].before == SnapsOf(loads[..i])
  }

  lemma RecordedStep(v: Vm, e: Event)
    requires Recorded(v.loads)
    ensures Recorded(Next(v, e).loads)
  {
    var d := Next(v, e);
    if d.loads != v.loads {
      var n := |v.loads|;
      forall i | 0 <= i < |d.loads| ensures d.loads[i].before == SnapsOf(d.loads[..i]) {
        if i < n { assert d.loads[..i] == v.loads[..i]; } else { assert d.loads[..i] == v.loads; }
      }
    }
  }

  lemma {:induction false} RecordedRun(v: Vm, es: seq<Event>)
    requires Recorded(v.loads)
    ensures Recorded(Run(v, es).loads)
    decreases |es|
  {
    if es != [] {
      RecordedStep(v, es[0]);
      RecordedRun(Next(v, es[0]), es[1..]);
    }
  }

  /** At most once: no two restores of a disciplined run use the same snapshot. */
  lemma RestoredAtMostOnce(start: Vm, es: seq<Event>, i: nat, j: nat)
    requires Init(start) && DisciplinedRun(start, es)
    requires i < j < |Run(start, es).loads|
    ensures Run(start, es).loads[i].state.snap != Run(start, es).loads[j].state.snap
  {
    RestoresAreSafe(start, es);
    RecordedRun(start, es);
    var loads := Run(start, es).loads;
    assert loads[..j][i] == loads[i] && loads[i] in loads[..j];
  }

  lemma RunSplit(v: Vm, a: seq<Event>, b: seq<Event>)
    ensures Run(v, a + b) == Run(Run(v, a), b)
    decreases |a|
  {
    if a == [] {
      assert a + b == b;
    } else {
      assert (a + b)[1..] == a[1..] + b;
      RunSplit(Next(v, a[0]), a[1..], b);
    }
  }

  lemma RunParts(v: Vm, a: seq<Event>, b: seq<Event>, c: seq<Event>, d: seq<Event>)
    ensures Run(v, a + b + c + d) == Run(Run(Run(Run(v, a), b), c), d)
  {
    RunSplit(v, a, b);
    RunSplit(v, a + b, c);
    RunSplit(v, a + b + c, d);
  }

  lemma RunFour(es: seq<Event>, v0: Vm, v1: Vm, v2: Vm, v3: Vm, v4: Vm)
    requires |es| == 4 && Next(v0, es[0]) == v1 && Next(v1, es[1]) == v2 && Next(v2, es[2]) == v3 && Next(v3, es[3]) == v4
    ensures Run(v0, es) == v4
  {
    assert es[1..][1..] == es[2..] && es[2..][1..] == es[3..] && es[3..][1..] == [];
    assert Run(v3, es[3..]) == v4;
    assert Run(v2, es[2..]) == v4;
    assert Run(v1, es[1..]) == v4;
  }

  /** Suspend, and a start that has looked at the memory file. */
  function LatePart0(): seq<Event> { [Pause(Done), Snapshot(true, true, true), KillPaused, Decompress(true, true)] }

  /** The compaction of that suspend opens its input only now, and the restore goes on. */
  function LatePart1(): seq<Event> { [CompactBegin, Spawn(true, true), LoadSnapshot(Done), WaitServing(true)] }

  /** The restore ends, and the guest is suspended again. */
  function LatePart2(): seq<Event> { [Consume, Pause(Done), Snapshot(true, true, true), KillPaused] }

  /** The old compaction creates its output and ends, and the guest is started once more. */
  function LatePart3(): seq<Event> { [CompactOpen, CompactEnd(true), Decompress(true, true), Spawn(true, true)] }

  const S0: Image := Image(0, 0, true)
  const S1: Image := Image(1, 0, true)
  const Serving: Vm := Vm(Running, false, 0, None, None, None, 0, None, Free, [])
  const Checked: Vm := Vm(Down, false, 0, Some(S0), None, Some(S0), 1, None, ToSpawn, [])

  /** The guest serves from its first snapshot, whose compaction has got as far as out. */
  function Served(out: Output, l: Load): Vm {
    Vm(Running, false, 0, Some(S0), if out.Linked? then Some(Packed(S0, false)) else None, Some(S0), 1,
       Some(Compaction(S0, out)), ToConsume, [l])
  }

  /** And it is suspended again. */
  function Again(out: Output, l: Load): Vm {
    Vm(Down, false, 0, Some(S1), None, Some(S1), 2, Some(Compaction(S0, out)), Free, [l])
  }

  lemma Late0()
    ensures Run(Serving, LatePart0()) == Checked
  {
    var paused := Serving.(vmm := Paused, pc := ToSnapshot);
    var taken := paused.(raw := Some(S0), state := Some(S0), nextSnap := 1, pc := ToKill);
    var down := taken.(vmm := Down, pc := Free);
    RunFour(LatePart0(), Serving, paused, taken, down, Checked);
  }

  lemma Late1()
    ensures Run(Checked, LatePart1()) == Served(Unopened, Load(S0, S0, 0, {}))
  {
    var compacting := Checked.(compact := Some(Compaction(S0, Unopened)));
    var blank := compacting.(vmm := Blank, pc := ToLoad);
    assert SnapsOf([]) == {};
    LoadsOnce(compacting);
    var loaded := compacting.(vmm := Running, pc := ToWait, loads := [Load(S0, S0, 0, {})]);
    RunFour(LatePart1(), Checked, compacting, blank, loaded, loaded.(pc := ToConsume));
  }

  lemma Late2(out: Output, l: Load)
    ensures Run(Served(out, l), LatePart2()) == Again(if out.Linked? then Unlinked else out, l)
  {
    var v := Served(out, l);
    var free := v.Dropped().(pc := Free);
    var paused := free.(vmm := Paused, pc := ToSnapshot);
    var taken := paused.(raw := Some(S1), state := Some(S1), nextSnap := 2, pc := ToKill);
    RunFour(LatePart2(), v, free, paused, taken, taken.(vmm := Down, pc := Free));
  }

  /** The VMM is up for the second restore, over the wrong memory. */
  function Mixed(l: Load): Vm { Vm(Blank, false, 0, Some(S0), None, Some(S1), 2, None, ToLoad, [l]) }

  lemma Late3(l: Load)
    ensures Run(Again(Unopened, l), LatePart3()) == Mixed(l)
  {
    var v := Again(Unopened, l);
    var linked := v.(zst := Some(Packed(S0, false)), compact := Some(Compaction(S0, Linked)));
    var mixed := v.(zst := Some(Packed(S0, true)), raw := None, compact := None);
    var raw := mixed.(raw := Some(S0), zst := None, pc := ToSpawn);
    RunFour(LatePart3(), v, linked, mixed, raw, Mixed(l));
  }

  lemma MixedLoad(l: Load)
    ensures Next(Mixed(l), LoadSnapshot(Done)).loads == [l, Load(S0, S1, 0, SnapsOf([l]))]
  {
    assert [l] + [Load(S0, S1, 0, SnapsOf([l]))] == [l, Load(S0, S1, 0, SnapsOf([l]))];
  }

  /**
   * Why the discipline is needed: the compaction of the first snapshot, whose
   * output appears only after the first restore dropped its files, replaces the
   * second snapshot's memory file by the first's, and the guest is resumed with
   * the memory of one and the state of the other. The restore takes the
   * compaction's lock only while it looks at the memory file, and the suspend
   * does not take it at all.
   */
  lemma LateCompactionMixesSnapshots()
    ensures var v := Next(Run(Serving, LatePart0() + LatePart1() + LatePart2() + LatePart3()), LoadSnapshot(Done));
      Init(Serving) && |v.loads| == 2 && Safe(v.loads[0]) && v.loads[1].mem != v.loads[1].state
  {
    RunParts(Serving, LatePart0(), LatePart1(), LatePart2(), LatePart3());
    Late0();
    Late1();
    Late2(Unopened, Load(S0, S0, 0, {}));
    Late3(Load(S0, S0, 0, {}));
    MixedLoad(Load(S0, S0, 0, {}));
  }

  /** As LatePart1, but the compaction creates its output right after it linked its input. */
  function PromptPart(): seq<Event> { [CompactBegin, CompactOpen, Spawn(true, true), LoadSnapshot(Done)] }

  lemma Prompt()
    ensures Next(Run(Checked, PromptPart()), WaitServing(true)) == Served(Linked, Load(S0, S0, 0, {}))
  {
    var begun := Checked.(compact := Some(Compaction(S0, Unopened)));
    var linked := Checked.(compact := Some(Compaction(S0, Linked)), zst := Some(Packed(S0, false)));
    var blank := linked.(vmm := Blank, pc := ToLoad);
    assert SnapsOf([]) == {};
    LoadsOnce(linked);
    var loaded := linked.(vmm := Running, pc := ToWait, loads := [Load(S0, S0, 0, {})]);
    RunFour(PromptPart(), Checked, begun, linked, blank, loaded);
  }

  /** The usual order: the output is unlinked by the first restore, and what the compaction removes is the second's memory. */
  lemma LateCompactionLosesTheSnapshot()
    ensures var served := Next(Run(Run(Serving, LatePart0()), PromptPart()), WaitServing(true));
      var v := Next(Run(served, LatePart2()), CompactEnd(true));
      |v.loads| == 1 && v.vmm.Down? && v.state == Some(S1) && !v.HasSnapshot()
  {
    var l := Load(S0, S0, 0, {});
    Late0();
    Prompt();
    Late2(Linked, l);
    LosesIt(l);
  }

  lemma LosesIt(l: Load)
    ensures var v := Next(Again(Unlinked, l), CompactEnd(true));
      v.loads == [l] && v.vmm.Down? && v.state == Some(S1) && !v.HasSnapshot()
  {}

  /** Every image is of a snapshot already numbered. */
  predicate ImagesUsed(v: Vm) {
    && (v.raw.Some? ==> v.raw.value.snap < v.nextSnap)
    && (v.zst.Some? ==> v.zst.value.image.snap < v.nextSnap)
    && (v.compact.Some? ==> v.compact.value.input.snap < v.nextSnap)
  }

  lemma {:induction false} ImagesStayUsed(v: Vm, es: seq<Event>)
    requires ImagesUsed(v)
    ensures ImagesUsed(Run(v, es))
    decreases |es|
  {
    if es != [] {
      ImagesStep(v, es[0]);
      ImagesStayUsed(Next(v, es[0]), es[1..]);
    }
  }

  lemma ImagesStep(v: Vm, e: Event)
    requires ImagesUsed(v)
    ensures ImagesUsed(Next(v, e))
  {
    if e.Snapshot? { ImagesSnapshot(v, e); }
    else if e.CompactBegin? || e.CompactOpen? || e.CompactEnd? { ImagesCompact(v, e); }
    else if e.Decompress? { ImagesDecompress(v, e); }
    else { ImagesRest(v, e); }
  }

  lemma ImagesSnapshot(v: Vm, e: Event)
    requires ImagesUsed(v) && e.Snapshot?
    ensures ImagesUsed(Next(v, e))
  {}

  lemma ImagesCompact(v: Vm, e: Event)
    requires ImagesUsed(v) && (e.CompactBegin? || e.CompactOpen? || e.CompactEnd?)
    ensures ImagesUsed(Next(v, e))
  {}

  lemma ImagesDecompress(v: Vm, e: Event)
    requires ImagesUsed(v) && e.Decompress?
    ensures ImagesUsed(Next(v, e))
  {}

  lemma ImagesRest(v: Vm, e: Event)
    requires ImagesUsed(v) && !(e.Snapshot? || e.CompactBegin? || e.CompactOpen? || e.CompactEnd? || e.Decompress?)
    ensures ImagesUsed(Next(v, e))
  {
    var d := Next(v, e);
    assert d.nextSnap == v.nextSnap && (d.compact == v.compact || d.compact == v.Dropped().compact || d.compact.None?);
    assert (d.raw == v.raw && d.zst == v.zst) || (d.raw.None? && d.zst.None?);
  }

  /** The states the next theorems are about are those of every disciplined run. */
  lemma ReachedStates(start: Vm, es: seq<Event>)
    requires Init(start) && DisciplinedRun(start, es)
    ensures Inv(Run(start, es)) && ImagesUsed(Run(start, es))
  {
    InvRun(start, es);
    ImagesStayUsed(start, es);
  }

  /** No disciplined future of the state restores anything but a complete, current, unused snapshot. */
  ghost predicate StaysSafe(v: Vm) {
    forall es, l :: DisciplinedRun(v, es) && l in Run(v, es).loads ==> Safe(l)
  }

  /** After the snapshot, the compaction in flight does all it has still to do. */
  function Landing(): seq<Event> { [KillPaused, CompactOpen, CompactEnd(true)] }

  /** The guest is woken from what is there. */
  function Waking(): seq<Event> { [VmmDies, Decompress(true, true), Spawn(true, true), LoadSnapshot(Done)] }

  lemma LandingRun(v: Vm)
    requires v.pc.ToKill?
    ensures DisciplinedRun(v, Landing())
    ensures Run(v, Landing()) == Landed(v.(vmm := Down, pc := Free))
  {
    var es := Landing();
    var down := v.(vmm := Down, pc := Free);
    assert es[1..] == [CompactOpen, CompactEnd(true)];
    assert Next(v, es[0]) == down;
    Lands(down);
  }

  /** What a compaction leaves that has its output in place, or has lost it. */
  function Landed(v: Vm): Vm {
    if v.compact.None? then v
    else if v.CanLand() then v.(zst := Some(Packed(v.compact.value.input, true)), raw := None, compact := None)
    else v.(raw := None, compact := None)
  }

  lemma Lands(v: Vm)
    ensures DisciplinedRun(v, [CompactOpen, CompactEnd(true)])
    ensures Run(v, [CompactOpen, CompactEnd(true)]) == Landed(v)
  {
    var linked := Next(v, CompactOpen);
    LandsLinked(linked);
    assert [CompactOpen, CompactEnd(true)][1..] == [CompactEnd(true)];
    assert linked.compact.Some? == v.compact.Some? && linked.CanLand() == v.CanLand();
  }

  lemma LandsLinked(v: Vm)
    requires v.compact.Some? ==> !v.compact.value.out.Unopened?
    ensures DisciplinedRun(v, [CompactEnd(true)])
    ensures Run(v, [CompactEnd(true)]) == Landed(v)
  {
    assert [CompactEnd(true)][1..] == [];
    assert Run(v, [CompactEnd(true)]) == Next(v, CompactEnd(true));
  }

  /** Whatever memory and state there are when nothing holds the VM, a future loads them. */
  lemma WakingLoads(v: Vm)
    requires v.pc.Free? && v.compact.None? && v.Restorable()
    ensures DisciplinedRun(v, Waking())
    ensures Run(v, Waking()).loads == v.loads + [Load(v.Memory().value, v.state.value, v.rev, SnapsOf(v.loads))]
  {
    var es := Waking();
    var down := Next(v, VmmDies);
    var ready := Next(down, Decompress(true, true));
    MadeReady(v);
    var blank := Next(ready, Spawn(true, true));
    RunFour(es, v, down, ready, blank, Next(blank, LoadSnapshot(Done)));
    CalmIsDisciplined(v, es);
  }

  lemma MadeReady(v: Vm)
    requires v.pc.Free? && v.compact.None? && v.Restorable()
    ensures var ready := Next(Next(v, VmmDies), Decompress(true, true));
      && ready.pc.ToSpawn? && ready.vmm.Down? && ready.raw == v.Memory() && ready.state == v.state
      && ready.rev == v.rev && ready.loads == v.loads
  {}

  /** Without a snapshot or a driver's death there is nothing to be disciplined about. */
  lemma CalmIsDisciplined(v: Vm, es: seq<Event>)
    requires forall e :: e in es ==> !e.Snapshot? && !e.DriverCrash?
    ensures DisciplinedRun(v, es)
    decreases |es|
  {
    if es != [] {
      assert es[0] in es && forall e :: e in es[1..] ==> e in es;
      CalmIsDisciplined(Next(v, es[0]), es[1..]);
    }
  }

  lemma NotStaysSafe(v: Vm, pre: seq<Event>)
    requires DisciplinedRun(v, pre)
    requires var d := Run(v, pre); d.pc.Free? && d.compact.None? && d.Restorable() && !Good(d)
    ensures !StaysSafe(v)
  {
    var d := Run(v, pre);
    WakingLoads(d);
    RunSplit(v, pre, Waking());
    DisciplinedSplit(v, pre, Waking());
    var l := Load(d.Memory().value, d.state.value, d.rev, SnapsOf(d.loads));
    assert l in Run(v, pre + Waking()).loads && !Safe(l);
  }

  lemma InvStaysSafe(v: Vm)
    requires Inv(v)
    ensures StaysSafe(v)
  {
    forall es, l | DisciplinedRun(v, es) && l in Run(v, es).loads ensures Safe(l) { InvRun(v, es); }
  }

  /**
   * The exact condition: whatever disciplined future follows a snapshot is safe
   * if and only if no compaction was in flight when it was taken, or one whose
   * output is already unlinked.
   */
  lemma SnapshotIsSafeIff(v: Vm, e: Event)
    requires Inv(v) && ImagesUsed(v) && e.Snapshot? && e.ok && Enabled(v, e)
    ensures StaysSafe(Next(v, e)) <==> v.compact.None? || v.compact.value.out.Unlinked?
  {
    var d := Next(v, e);
    if v.CanLand() {
      LandingRun(d);
      assert Run(d, Landing()).Memory() != d.state;
      NotStaysSafe(d, Landing());
    } else {
      InvStep(v, e);
      InvStaysSafe(d);
    }
  }

  /**
   * And it is kept if and only if there was none: once the compaction ends, the
   * memory in place is the old one or, if its output was unlinked, none, and
   * then the next start boots the guest fresh.
   */
  lemma SnapshotIsKeptIff(v: Vm, e: Event, env: StartEnv)
    requires Inv(v) && ImagesUsed(v) && e.Snapshot? && e.ok && Enabled(v, e)
    ensures var d := Run(Next(v, e), Landing());
      && (d.Memory() == Some(Image(v.nextSnap, v.rev, true)) <==> v.compact.None?)
      && (v.compact.Some? && v.compact.value.out.Unlinked? ==>
           !d.HasSnapshot() && Wake(d, env).0.loads == v.loads && (Wake(d, env).1 <==> env.bootOk))
  {
    LandingRun(Next(v, e));
  }

  lemma DisciplinedSplit(v: Vm, a: seq<Event>, b: seq<Event>)
    requires DisciplinedRun(v, a) && DisciplinedRun(Run(v, a), b)
    ensures DisciplinedRun(v, a + b)
    decreases |a|
  {
    if a == [] {
      assert a + b == b;
    } else {
      assert (a + b)[1..] == a[1..] + b;
      DisciplinedSplit(Next(v, a[0]), a[1..], b);
    }
  }

  function CrashPart1(): seq<Event> { [Spawn(true, true), LoadSnapshot(Done), GuestRuns, WaitServing(true)] }

  function CrashPart2(): seq<Event> { [DriverCrash, GuestRuns, VmmDies, Decompress(true, true)] }

  /** A driver's death leaves nothing that a start would restore, or a good snapshot and no guest to outdate it. */
  predicate CrashIsHarmless(v: Vm) {
    !v.Restorable() || (Good(v) && v.vmm in {Down, Blank})
  }

  /** The exact condition: at which points the driver may die without a later start restoring what it must not. */
  lemma CrashIsSafeIff(v: Vm)
    requires Inv(v)
    ensures StaysSafe(Next(v, DriverCrash)) <==> CrashIsHarmless(v)
  {
    var c := Next(v, DriverCrash);
    if CrashIsHarmless(v) {
      InvStaysSafe(c);
    } else if !Good(v) {
      NotStaysSafe(c, []);
    } else {
      assert !c.vmm.Down? && !c.vmm.Blank?;
      OutdatedRun(c);
      NotStaysSafe(c, Outdating());
    }
  }

  /** A paused guest is resumed, and a running one writes. */
  function Outdating(): seq<Event> { [Heal(Done, true), GuestRuns] }

  lemma OutdatedRun(v: Vm)
    requires v.pc.Free? && (v.vmm.Running? || v.vmm.Paused?)
    ensures DisciplinedRun(v, Outdating()) && Run(v, Outdating()) == v.(vmm := Running, rev := v.rev + 1)
  {
    var es := Outdating();
    assert es[1..][1..] == [];
    var up := v.(vmm := Running);
    var rest := [GuestRuns];
    assert es[1..] == rest && rest[1..] == [] && Next(v, es[0]) == up;
    assert DisciplinedRun(up, rest) && Run(up, rest) == Next(up, GuestRuns);
  }

  /** A driver that dies between loading a snapshot and dropping it restores it a second time, over a newer rootfs. */
  lemma CrashRestoresTwice()
    ensures var v := Run(Serving, LatePart0() + CrashPart1() + CrashPart2() + CrashPart1());
      |v.loads| == 2 && v.loads[1].state.snap in v.loads[1].before && v.loads[1].mem.rev < v.loads[1].rev
  {
    RunParts(Serving, LatePart0(), CrashPart1(), CrashPart2(), CrashPart1());
    CrashParts();
  }

  lemma CrashParts()
    ensures var v := Run(Run(Run(Run(Serving, LatePart0()), CrashPart1()), CrashPart2()), CrashPart1());
      |v.loads| == 2 && v.loads[1].state.snap in v.loads[1].before && v.loads[1].mem.rev < v.loads[1].rev
  {
    var l := Load(S0, S0, 0, {});
    Late0();
    Crash1(0, []);
    assert SnapsOf([]) == {} && SnapsOf([l]) == {0};
    assert Run(Checked, CrashPart1()) == Checked.(vmm := Running, rev := 1, pc := ToConsume, loads := [l]);
    Crash2(l);
    Crash1(2, [l]);
  }

  lemma Crash1(rev: nat, loads: seq<Load>)
    ensures Run(Checked.(rev := rev, loads := loads), CrashPart1())
         == Checked.(vmm := Running, rev := rev + 1, pc := ToConsume, loads := loads + [Load(S0, S0, rev, SnapsOf(loads))])
  {
    var v := Checked.(rev := rev, loads := loads);
    var blank := v.(vmm := Blank, pc := ToLoad);
    LoadsOnce(v);
    var loaded := v.(vmm := Running, pc := ToWait, loads := loads + [Load(S0, S0, rev, SnapsOf(loads))]);
    RunFour(CrashPart1(), v, blank, loaded, loaded.(rev := rev + 1), loaded.(rev := rev + 1, pc := ToConsume));
  }

  /** A snapshot in place is loaded by a VMM just spawned. */
  lemma LoadsOnce(v: Vm)
    requires v.raw == Some(S0) && v.state == Some(S0)
    ensures var b := v.(vmm := Blank, pc := ToLoad);
      Next(b, LoadSnapshot(Done))
      == v.(vmm := Running, pc := ToWait, loads := v.loads + [Load(S0, S0, v.rev, SnapsOf(v.loads))])
  {}

  lemma Crash2(l: Load)
    ensures Run(Checked.(vmm := Running, rev := 1, pc := ToConsume, loads := [l]), CrashPart2())
         == Checked.(rev := 2, loads := [l])
  {
    var v := Checked.(vmm := Running, rev := 1, pc := ToConsume, loads := [l]);
    var crashed := v.(pc := Free);
    var ran := crashed.(rev := 2);
    RunFour(CrashPart2(), v, crashed, ran, ran.(vmm := Down), Checked.(rev := 2, loads := [l]));
  }

  /** A compaction with nothing in between keeps what a start would restore. */
  lemma CompactKeeps(v: Vm, ok: bool)
    requires Inv(v) && v.compact.None? && v.raw.Some?
    ensures var d := Next(Next(Next(v, CompactBegin), CompactOpen), CompactEnd(ok));
      && Inv(d) && d.HasSnapshot() && d.Memory() == v.Memory() && d.compact.None?
      && d == v.(raw := if ok then None else v.raw, zst := if ok then Some(Packed(v.raw.value, true)) else None)
  {
    InvCompact(v, CompactBegin);
    InvCompact(Next(v, CompactBegin), CompactOpen);
    InvCompact(Next(Next(v, CompactBegin), CompactOpen), CompactEnd(ok));
  }

  // ----------------------------------------------------------------- Suspend

  /** Suspend without interleavings: the state it leaves and whether it returns an error. */
  function Suspend(v: Vm, pause: Call, snap: Event, resume: Call): (Vm, bool)
    requires v.pc.Free? && snap.Snapshot?
  {
    if v.vmm.Down? then (v, false)
    else if v.ephemeral then (Next(v, TearDown), false)
    else
      var v1 := Next(v, Pause(pause));
      if !v1.pc.ToSnapshot? then (v1, true)
      else
        var v2 := Next(v1, snap);
        if v2.pc.ToKill? then (Next(v2, KillPaused), false)
        else (Next(Next(v2, Resume(resume)), DropPartial), true)
  }

  predicate Possible(v: Vm, pause: Call, snap: Event, resume: Call) {
    && snap.Snapshot?
    && (!v.vmm.Down? && !v.ephemeral ==> Enabled(v, Pause(pause)))
  }

  /**
   * No VM is left paused, whichever call fails, if and only if a pause that
   * reports an error did not pause it (and it was not paused already).
   */
  lemma LeftPausedIff(v: Vm, pause: Call, snap: Event, resume: Call)
    requires v.pc.Free? && Possible(v, pause, snap, resume)
    ensures Suspend(v, pause, snap, resume).0.vmm.Paused? <==>
      && !v.ephemeral && pause != Done
      && (v.vmm.Paused? || (v.vmm.Running? && pause == Lost))
  {}

  /**
   * What else Suspend promises: success means the guest is down with a complete
   * snapshot of its rootfs (none for an ephemeral one), an error after the pause
   * means no snapshot file is left, and a guest whose snapshot failed serves
   * again or is down.
   */
  lemma SuspendOutcome(v: Vm, pause: Call, snap: Event, resume: Call)
    requires Inv(v) && v.pc.Free? && v.compact.None? && Possible(v, pause, snap, resume) && !v.vmm.Down?
    ensures var (d, err) := Suspend(v, pause, snap, resume);
      && Inv(d)
      && d.pc.Free?
      && (!err && v.ephemeral ==> d.vmm.Down? && d.raw == v.raw && d.zst == v.zst && d.state == v.state)
      && (!err && !v.ephemeral ==> d.vmm.Down? && d.raw.Some? && d.state == d.raw && d.raw.value.whole && d.raw.value.rev == d.rev)
      && (err && !v.vmm.Blank? ==> !d.Restorable())
      && (err && pause == Done ==> !d.HasSnapshot() && d.vmm in {Running, Down})
  {
    if v.ephemeral {
      InvSuspend(v, TearDown);
    } else {
      var v1 := Next(v, Pause(pause));
      InvSuspend(v, Pause(pause));
      if v1.pc.ToSnapshot? { SnapshotOutcome(v1, snap, resume); }
    }
  }

  lemma SnapshotOutcome(v: Vm, snap: Event, resume: Call)
    requires Inv(v) && v.pc.ToSnapshot? && v.compact.None? && snap.Snapshot? && v.vmm.Paused?
    ensures var d1 := Next(v, snap);
      if d1.pc.ToKill? then
        var d := Next(d1, KillPaused);
        && Inv(d) && d.pc.Free? && d.vmm.Down? && d.raw.Some? && d.state == d.raw && d.raw.value.whole && d.raw.value.rev == d.rev
      else
        var d := Next(Next(d1, Resume(resume)), DropPartial);
        Inv(d) && d.pc.Free? && d.state.None? && !d.HasSnapshot() && d.vmm in {Running, Down}
  {
    InvSuspend(v, snap);
    var d1 := Next(v, snap);
    if d1.pc.ToKill? {
      InvSuspend(d1, KillPaused);
    } else {
      InvSuspend(d1, Resume(resume));
      InvSuspend(Next(d1, Resume(resume)), DropPartial);
    }
  }

  // ------------------------------------------------------------------- Start

  /** The environment of one Start: is a pause visible, and how each call of the three paths ends. */
  datatype StartEnv = StartEnv(seen: bool, heal: Call, serves: bool, decompressOk: bool, left: bool,
                               spawnOk: bool, spawnAlive: bool, load: Call, waitOk: bool, bootOk: bool, bootAlive: bool)

  function SpawnStep(v: Vm, e: StartEnv): Vm { Next(v, Spawn(e.spawnOk, e.spawnAlive)) }

  function LoadStep(v: Vm, e: StartEnv): Vm {
    Next(v, LoadSnapshot(if Enabled(v, LoadSnapshot(e.load)) then e.load else Refused))
  }

  function EndStep(v: Vm, e: StartEnv): Vm {
    if v.pc.ToWait? && e.waitOk then Next(Next(v, WaitServing(true)), Consume)
    else if v.pc.ToWait? then Next(Next(v, WaitServing(false)), GiveUp)
    else Next(v, GiveUp)
  }

  /** From a checked memory file to a serving guest, or to the fresh boot that a failed restore falls back to. */
  function RestoreFrom(v: Vm, e: StartEnv): Vm {
    EndStep(LoadStep(SpawnStep(v, e), e), e)
  }

  /** A compressed file that was cut short cannot be decompressed. */
  predicate Decompresses(v: Vm, e: StartEnv) {
    v.raw.Some? || (e.decompressOk && v.zst.Some? && v.zst.value.complete)
  }

  function Restore(v: Vm, e: StartEnv): Vm {
    var v1 := Next(v, Decompress(Decompresses(v, e), e.left));
    if v1.pc.ToSpawn? then RestoreFrom(v1, e) else Next(v1, GiveUp)
  }

  /** Start of a VM that is down: restore if it can, else boot. */
  function Wake(v: Vm, e: StartEnv): (Vm, bool) {
    var v2 := if v.HasSnapshot() then Restore(v, e) else v;
    if v2.vmm.Running? then (v2, true) else (Next(v2, Boot(e.bootOk, e.bootAlive)), e.bootOk)
  }

  /** Start without interleavings: the state it leaves and whether it reports a running instance. */
  function Start(v: Vm, e: StartEnv): (Vm, bool)
    requires v.pc.Free?
  {
    if v.vmm in {Running, Blank} || (v.vmm.Paused? && !e.seen) then (v, true)
    else
      var v1 := if v.vmm.Paused? then Next(v, Heal(e.heal, e.serves && e.heal.Done?)) else v;
      if v1.vmm.Running? then (v1, true) else Wake(v1, e)
  }

  lemma WakeKeeps(v: Vm, e: StartEnv)
    requires Inv(v) && v.pc.Free? && v.vmm.Down? && v.compact.None?
    ensures var (d, ok) := Wake(v, e);
      Inv(d) && d.pc.Free? && (e.bootOk ==> ok) && (ok ==> d.vmm.Running?) && (d.vmm.Running? ==> !d.Restorable())
  {
    if v.HasSnapshot() { RestoreKeeps(v, e); }
    var v2 := if v.HasSnapshot() then Restore(v, e) else v;
    if !v2.vmm.Running? { InvStart(v2, Boot(e.bootOk, e.bootAlive)); }
  }

  lemma RestoreKeeps(v: Vm, e: StartEnv)
    requires Inv(v) && v.pc.Free? && v.vmm.Down? && v.compact.None? && v.HasSnapshot()
    ensures var d := Restore(v, e);
      Inv(d) && d.compact.None? && !d.HasSnapshot() && (if d.pc.Free? then d.vmm.Running? else d.pc.ToBoot? && d.vmm.Down?)
  {
    var x := Decompress(Decompresses(v, e), e.left);
    InvStep(v, x);
    var v1 := Next(v, x);
    if v1.pc.ToSpawn? { RestoreFromKeeps(v1, e); } else { InvStep(v1, GiveUp); }
  }

  lemma SpawnKeeps(v: Vm, e: StartEnv)
    requires Inv(v) && v.pc.ToSpawn? && v.compact.None?
    ensures var d := SpawnStep(v, e); Inv(d) && d.compact.None? && (d.pc.ToGiveUp? || (d.pc.ToLoad? && d.vmm.Blank?))
  {
    InvStart(v, Spawn(e.spawnOk, e.spawnAlive));
  }

  lemma LoadKeeps(v: Vm, e: StartEnv)
    requires Inv(v) && v.compact.None? && (v.pc.ToGiveUp? || v.pc.ToLoad?)
    ensures var d := LoadStep(v, e); Inv(d) && d.compact.None? && (d.pc.ToGiveUp? || (d.pc.ToWait? && d.vmm.Running?))
  {
    InvLoad(v, LoadSnapshot(if Enabled(v, LoadSnapshot(e.load)) then e.load else Refused));
  }

  lemma EndKeeps(v: Vm, e: StartEnv)
    requires Inv(v) && v.compact.None? && (v.pc.ToGiveUp? || (v.pc.ToWait? && v.vmm.Running?))
    ensures var d := EndStep(v, e);
      Inv(d) && d.compact.None? && !d.HasSnapshot() && (if d.pc.Free? then d.vmm.Running? else d.pc.ToBoot? && d.vmm.Down?)
  {
    if v.pc.ToWait? {
      InvStart(v, WaitServing(e.waitOk));
      InvStart(Next(v, WaitServing(e.waitOk)), if e.waitOk then Consume else GiveUp);
    } else {
      InvStart(v, GiveUp);
    }
  }

  lemma RestoreFromKeeps(v: Vm, e: StartEnv)
    requires Inv(v) && v.pc.ToSpawn? && v.compact.None?
    ensures var d := RestoreFrom(v, e);
      Inv(d) && d.compact.None? && !d.HasSnapshot() && (if d.pc.Free? then d.vmm.Running? else d.pc.ToBoot? && d.vmm.Down?)
  {
    SpawnKeeps(v, e);
    LoadKeeps(SpawnStep(v, e), e);
    EndKeeps(LoadStep(SpawnStep(v, e), e), e);
  }

  /**
   * A failed restore never wedges the workload: if a fresh boot would work,
   * Start ends with a running instance. And Start reports one without a running
   * guest exactly when it finds a VMM that never started its guest, or a paused
   * one it cannot ask.
   */
  lemma StartOutcome(v: Vm, e: StartEnv)
    requires Inv(v) && v.pc.Free? && v.compact.None?
    ensures var (d, ok) := Start(v, e);
      && Inv(d) && d.pc.Free?
      && (e.bootOk ==> ok)
      && (ok && !d.vmm.Running? <==> v.vmm.Blank? || (v.vmm.Paused? && !e.seen))
      && (d.vmm.Running? && !v.vmm.Running? ==> !d.Restorable())
  {
    if v.vmm.Down? {
      WakeKeeps(v, e);
    } else if v.vmm.Paused? && e.seen {
      var h := Heal(e.heal, e.serves && e.heal.Done?);
      InvStart(v, h);
      if !Next(v, h).vmm.Running? { WakeKeeps(Next(v, h), e); }
    }
  }

  // ------------------------------------------------- by the answers alone

  /**
   * After a suspend that failed the files are gone if the guest was paused, and
   * the guest serves again exactly if its resume works; else nothing was touched
   * but by a pause whose answer got lost.
   */
  lemma SuspendFails(v: Vm, pause: Call, snap: Event, resume: Call)
    requires v.pc.Free? && Possible(v, pause, snap, resume)
    ensures var (d, err) := Suspend(v, pause, snap, resume);
      && d.rev == v.rev && d.loads == v.loads
      && (err && pause == Done ==>
          d.raw.None? && d.zst.None? && d.state.None? && d.vmm == if resume == Done then Running else Down)
      && (err && pause != Done ==>
          d.raw == v.raw && d.zst == v.zst && d.state == v.state && d.vmm == if pause == Lost then Paused else v.vmm)
  {}

  /** Suspend reports no error exactly for a VM that was down, an ephemeral one, or one that was paused and whose snapshot was made. */
  lemma SuspendSucceedsIff(v: Vm, pause: Call, snap: Event, resume: Call)
    requires v.pc.Free? && Possible(v, pause, snap, resume)
    ensures var (d, err) := Suspend(v, pause, snap, resume);
      && (!err <==> v.vmm.Down? || v.ephemeral || (pause == Done && snap.ok))
      && (!err ==> d.vmm.Down? && d.pc.Free? && d.rev == v.rev && d.loads == v.loads)
      && (!err && !v.vmm.Down? && !v.ephemeral ==> d.raw == d.state == Some(Image(v.nextSnap, v.rev, true)))
      && (v.vmm.Down? ==> d == v)
  {}

  /** The memory a restore finds, or decompresses. */
  function MemoryFor(v: Vm, e: StartEnv): Option<Image> {
    if v.raw.Some? then v.raw
    else if v.zst.Some? && v.zst.value.complete && e.decompressOk then Some(v.zst.value.image)
    else None
  }

  /** The snapshot is loaded, though the call that loads it may report an error. */
  predicate IsLoaded(v: Vm, e: StartEnv) {
    MemoryFor(v, e).Some? && v.state.Some? && e.spawnOk && e.load != Refused
  }

  /** And the guest it resumes serves. */
  predicate Resumes(v: Vm, e: StartEnv) { IsLoaded(v, e) && e.load == Done && e.waitOk }

  /** The guests a start of v resumes from memory, with those before. */
  function LoadsAfter(v: Vm, e: StartEnv): seq<Load> {
    if IsLoaded(v, e) then v.loads + [Load(MemoryFor(v, e).value, v.state.value, v.rev, SnapsOf(v.loads))] else v.loads
  }

  /** A guest that serves from the snapshot of this very rootfs, with the snapshot gone. */
  predicate Resumed(v: Vm, d: Vm) { d.vmm.Running? && d.rev == v.rev && !d.HasSnapshot() && d.state.None? }

  /** A fresh boot, which writes the rootfs. */
  predicate Booted(v: Vm, e: StartEnv, d: Vm) {
    && d.rev == v.rev + 1 && d.vmm == (if e.bootOk then Running else if e.bootAlive then Blank else Down)
    && !d.HasSnapshot() && (v.HasSnapshot() ==> d.state.None?)
  }

  /**
   * A start of a VM that is down resumes its snapshot exactly when the memory file
   * is there or decompresses, its state file is there, and the spawn, the load and
   * the wait all work. Otherwise it boots the guest afresh, and is as good as that.
   */
  lemma StartResumesIff(v: Vm, e: StartEnv)
    requires v.pc.Free? && v.vmm.Down? && v.compact.None?
    ensures var (d, ok) := Start(v, e);
      && d.pc.Free? && d.loads == LoadsAfter(v, e)
      && if Resumes(v, e) then ok && Resumed(v, d) else ok == e.bootOk && Booted(v, e, d)
  {
    if v.HasSnapshot() { RestoreResumesIff(v, e); }
  }

  lemma RestoreResumesIff(v: Vm, e: StartEnv)
    requires v.pc.Free? && v.vmm.Down? && v.compact.None? && v.HasSnapshot()
    ensures var d := Restore(v, e);
      && d.loads == LoadsAfter(v, e) && d.rev == v.rev && !d.HasSnapshot() && d.state.None? && d.compact.None?
      && if Resumes(v, e) then d.pc.Free? && d.vmm.Running? else d.pc.ToBoot? && d.vmm.Down?
  {
    var v1 := Next(v, Decompress(Decompresses(v, e), e.left));
    if v1.pc.ToSpawn? { ResumesFromIff(v1, e); }
  }

  lemma ResumesFromIff(v: Vm, e: StartEnv)
    requires v.pc.ToSpawn? && v.vmm.Down? && v.compact.None? && v.raw.Some?
    ensures var d := RestoreFrom(v, e);
      && d.loads == LoadsAfter(v, e) && d.rev == v.rev && !d.HasSnapshot() && d.state.None? && d.compact.None?
      && if Resumes(v, e) then d.pc.Free? && d.vmm.Running? else d.pc.ToBoot? && d.vmm.Down?
  {
    IsLoadedIff(v, e);
    EndsIn(LoadStep(SpawnStep(v, e), e), e);
  }

  lemma IsLoadedIff(v: Vm, e: StartEnv)
    requires v.pc.ToSpawn? && v.vmm.Down? && v.raw.Some?
    ensures var d := LoadStep(SpawnStep(v, e), e);
      && d.loads == LoadsAfter(v, e) && d.rev == v.rev && d.compact == v.compact && (IsLoaded(v, e) ==> d.vmm.Running?)
      && d.pc == if IsLoaded(v, e) && e.load == Done then ToWait else ToGiveUp
  {
    assert SpawnStep(v, e)
      == v.(vmm := if e.spawnOk || e.spawnAlive then Blank else Down, pc := if e.spawnOk then ToLoad else ToGiveUp);
  }

  lemma EndsIn(v: Vm, e: StartEnv)
    requires (v.pc.ToWait? && v.vmm.Running?) || v.pc.ToGiveUp?
    ensures var d := EndStep(v, e);
      && d.loads == v.loads && d.rev == v.rev && !d.HasSnapshot() && d.state.None? && (v.compact.None? ==> d.compact.None?)
      && if v.pc.ToWait? && e.waitOk then d.pc.Free? && d.vmm.Running? else d.pc.ToBoot? && d.vmm.Down?
  {}

  /**
   * One that finds a VMM leaves a guest that runs, or was never started, alone;
   * a paused one it can ask serves again exactly when the resume works and it
   * answers, and is else killed and started from what is on the disk.
   */
  lemma StartOfAVmm(v: Vm, e: StartEnv)
    requires v.pc.Free? && !v.vmm.Down? && v.compact.None?
    ensures var (d, ok) := Start(v, e);
      if v.vmm.Running? || v.vmm.Blank? || !e.seen then d == v && ok
      else if e.heal == Done && e.serves then d == v.(vmm := Running) && ok
      else (d, ok) == Start(v.(vmm := Down, rev := v.rev + if e.heal == Refused then 0 else 1), e)
  {
    if v.vmm.Paused? && e.seen {
      assert Next(v, Heal(e.heal, e.serves && e.heal.Done?))
        == if e.heal == Done && e.serves then v.(vmm := Running)
           else v.(vmm := Down, rev := v.rev + if e.heal == Refused then 0 else 1);
    }
  }

  /** Stop and Delete leave no VMM and no snapshot; a deleted VM's rootfs is not the next one's. */
  lemma StopAndDelete(v: Vm)
    requires v.pc.Free?
    ensures var d := Next(v, Stop); d.vmm.Down? && !d.HasSnapshot() && d.state.None? && d.rev == v.rev && d.loads == v.loads
    ensures var d := Next(v, Delete); d.vmm.Down? && !d.HasSnapshot() && d.state.None? && d.rev != v.rev && d.loads == v.loads
  {}
}

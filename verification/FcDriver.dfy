/**
 * The driver's Suspend, Start, Compact, Stop and Delete over one VM, as one
 * caller runs them, with the ends of its API calls and commands as parameters.
 * Every method is proved equal to the steps of MicroVm it is made of.
 */
module FcDriver {
  import opened Common
  import opened MicroVm

  class FcVm {
    var vmm: Vmm
    const ephemeral: bool
    var rev: nat
    var raw: Option<Image>
    var zst: Option<Packed>
    var state: Option<Image>
    var nextSnap: nat
    ghost var compact: Option<Compaction>
    var pc: Pc
    ghost var loads: seq<Load>

    ghost function View(): Vm
      reads this
    {
      Vm(vmm, ephemeral, rev, raw, zst, state, nextSnap, compact, pc, loads)
    }

    constructor (ephemeral: bool)
      ensures Init(View()) && vmm.Down? && this.ephemeral == ephemeral
    {
      this.ephemeral := ephemeral;
      vmm, rev, raw, zst, state, nextSnap := Down, 0, None, None, None, 0;
      compact, pc, loads := None, Free, [];
    }

    /** The files go; the output of a compaction in flight is unlinked with them. */
    method DropSnapshot()
      modifies this`raw, this`zst, this`state, this`compact
      ensures View() == old(View()).Dropped()
      ensures raw.None? && zst.None? && state.None? && (compact.Some? ==> compact.value.out != Linked)
    {
      raw, zst, state := None, None, None;
      if compact.Some? && compact.value.out.Linked? { compact := Some(compact.value.(out := Unlinked)); }
    }

    /** kill: whatever the VMM was doing, it is gone. */
    method Kill()
      modifies this`vmm
      ensures vmm.Down?
    {
      vmm := Down;
    }

    method PauseVm(call: Call) returns (err: bool)
      requires pc.Free? && !ephemeral && !vmm.Down? && Enabled(View(), Pause(call))
      modifies this`vmm, this`pc
      ensures View() == Next(old(View()), Pause(call)) && err == (call != Done)
    {
      if call != Refused { vmm := Paused; }
      if call == Done { pc := ToSnapshot; }
      return call != Done;
    }

    method CreateSnapshot(snap: Event) returns (err: bool)
      requires pc.ToSnapshot? && snap.Snapshot? && Enabled(View(), snap)
      modifies this`raw, this`state, this`nextSnap, this`pc
      ensures View() == Next(old(View()), snap) && err == !snap.ok
    {
      var file := Some(Image(nextSnap, rev, snap.ok));
      if snap.ok || snap.rawLeft { raw := file; }
      if snap.ok || snap.stateLeft { state := file; }
      nextSnap, pc := nextSnap + 1, if snap.ok then ToKill else ToResume;
      return !snap.ok;
    }

    /** The snapshot failed: resume the guest, or kill it when that fails too, and drop the partial files. */
    method RecoverFromSnapshot(resume: Call)
      requires pc.ToResume? && Enabled(View(), Resume(resume))
      modifies this`vmm, this`pc, this`raw, this`zst, this`state, this`compact
      ensures View() == Next(Next(old(View()), Resume(resume)), DropPartial)
    {
      if resume == Done { vmm := Running; } else { Kill(); }
      DropSnapshot();
      pc := Free;
    }

    method SuspendVm(pause: Call, snap: Event, resume: Call) returns (err: bool)
      requires pc.Free? && Possible(View(), pause, snap, resume)
      modifies this
      ensures (View(), err) == Suspend(old(View()), pause, snap, resume)
      ensures !err <==> old(vmm).Down? || ephemeral || (pause == Done && snap.ok)
      ensures !err && !old(vmm).Down? && !ephemeral ==> vmm.Down? && raw == state == Some(Image(old(nextSnap), rev, true))
      ensures rev == old(rev) && loads == old(loads)
      ensures err && pause == Done ==> raw.None? && zst.None? && state.None? && vmm == if resume == Done then Running else Down
      ensures err && pause != Done ==>
        raw == old(raw) && zst == old(zst) && state == old(state) && vmm == if pause == Lost then Paused else old(vmm)
    {
      SuspendFails(View(), pause, snap, resume);
      SuspendSucceedsIff(View(), pause, snap, resume);
      if vmm.Down? { return false; }
      if ephemeral {
        Kill();
        return false;
      }
      err := PauseVm(pause);
      if err { return; }
      err := CreateSnapshot(snap);
      if err {
        RecoverFromSnapshot(resume);
        return;
      }
      Kill();
      pc := Free;
    }

    /**
     * The compaction, run whole: a failed one keeps the raw file, so that a start
     * is never blocked, and one without a zstd touches nothing.
     */
    method CompactVm(installed: bool, ok: bool) returns (err: bool)
      requires Inv(View()) && compact.None?
      modifies this`raw, this`zst
      ensures View() == if old(raw).None? || !installed then old(View())
                        else Next(Next(Next(old(View()), CompactBegin), CompactOpen), CompactEnd(ok))
      ensures err == (old(raw).Some? && !(installed && ok))
      ensures Inv(View()) && (old(View()).HasSnapshot() ==> View().HasSnapshot())
      ensures View().Memory() == old(View()).Memory() || old(raw).None?
      ensures old(raw).Some? && !err ==> raw.None? && zst == Some(Packed(old(raw).value, true))
      ensures old(raw).None? || err ==> raw == old(raw) && (zst == old(zst) || (installed && zst.None?))
    {
      if raw.None? { return false; }
      if !installed { return true; }
      CompactKeeps(View(), ok);
      if !ok {
        zst := None;
        return true;
      }
      raw, zst := None, Some(Packed(raw.value, true));
      return false;
    }

    /** The memory file as the restore needs it: raw, decompressed if only the compressed form remains. */
    method CheckMemory(e: StartEnv) returns (ok: bool)
      requires pc.Free? && vmm.Down? && compact.None? && View().HasSnapshot()
      modifies this`raw, this`zst, this`pc
      ensures View() == Next(old(View()), Decompress(Decompresses(old(View()), e), e.left)) && ok == pc.ToSpawn?
    {
      ok := true;
      if raw.None? {
        if e.decompressOk && zst.value.complete {
          raw, zst := Some(zst.value.image), None;
        } else {
          raw, ok := if e.left then Some(zst.value.image.(whole := false)) else None, false;
        }
      }
      pc := if ok then ToSpawn else ToGiveUp;
    }

    method SpawnVmm(e: StartEnv)
      requires pc.ToSpawn?
      modifies this`vmm, this`pc
      ensures View() == SpawnStep(old(View()), e)
    {
      vmm := if e.spawnOk || e.spawnAlive then Blank else Down;
      pc := if e.spawnOk then ToLoad else ToGiveUp;
    }

    method LoadMemory(e: StartEnv)
      modifies this`vmm, this`pc, this`loads
      ensures View() == LoadStep(old(View()), e)
    {
      if pc.ToLoad? {
        if e.load != Refused && vmm.Blank? && raw.Some? && state.Some? {
          vmm, pc := Running, if e.load == Done then ToWait else ToGiveUp;
          loads := loads + [Load(raw.value, state.value, rev, SnapsOf(loads))];
        } else {
          pc := ToGiveUp;
        }
      }
    }

    /** Consume the snapshot once the guest serves; kill and drop whatever the failed restore left. */
    method EndRestore(e: StartEnv)
      requires pc.ToGiveUp? || (pc.ToWait? && vmm.Running?)
      modifies this`vmm, this`pc, this`raw, this`zst, this`state, this`compact
      ensures View() == EndStep(old(View()), e)
    {
      if pc.ToWait? {
        WaitForGuest(e.waitOk);
      }
      if pc.ToConsume? { ConsumeSnapshot(); } else { GiveUpRestore(); }
    }

    method WaitForGuest(ok: bool)
      requires pc.ToWait? && vmm.Running?
      modifies this`pc
      ensures View() == Next(old(View()), WaitServing(ok)) && (if ok then pc.ToConsume? else pc.ToGiveUp?)
    {
      pc := if ok then ToConsume else ToGiveUp;
    }

    method ConsumeSnapshot()
      requires pc.ToConsume?
      modifies this`pc, this`raw, this`zst, this`state, this`compact
      ensures View() == Next(old(View()), Consume)
    {
      DropSnapshot();
      pc := Free;
    }

    method GiveUpRestore()
      requires pc.ToGiveUp?
      modifies this`vmm, this`pc, this`raw, this`zst, this`state, this`compact
      ensures View() == Next(old(View()), GiveUp)
    {
      Kill();
      DropSnapshot();
      pc := ToBoot;
    }

    method RestoreVm(e: StartEnv) returns (ok: bool)
      requires Inv(View()) && pc.Free? && vmm.Down? && compact.None? && View().HasSnapshot()
      modifies this
      ensures View() == Restore(old(View()), e) && ok == vmm.Running? == Resumes(old(View()), e)
      ensures loads == LoadsAfter(old(View()), e) && rev == old(rev) && raw.None? && zst.None? && state.None?
    {
      RestoreResumesIff(View(), e);
      InvStart(View(), Decompress(Decompresses(View(), e), e.left));
      ok := CheckMemory(e);
      if ok { SpawnAndLoad(e); } else { GiveUpRestore(); }
      ok := vmm == Running;
    }

    /** The rest of a restore, from a memory file that is there. */
    method SpawnAndLoad(e: StartEnv)
      requires Inv(View()) && pc.ToSpawn? && compact.None?
      modifies this
      ensures View() == RestoreFrom(old(View()), e)
    {
      SpawnKeeps(View(), e);
      SpawnVmm(e);
      LoadKeeps(View(), e);
      LoadMemory(e);
      EndRestore(e);
    }

    /** A fresh boot; its host-side preparation writes the rootfs. */
    method BootVm(booted: bool, alive: bool) returns (ok: bool)
      requires Enabled(View(), Boot(booted, alive))
      modifies this`rev, this`vmm, this`pc
      ensures View() == Next(old(View()), Boot(booted, alive)) && ok == booted
    {
      rev := rev + 1;
      vmm := if booted then Running else if alive then Blank else Down;
      pc := Free;
      return booted;
    }

    method WakeVm(e: StartEnv) returns (ok: bool)
      requires Inv(View()) && pc.Free? && vmm.Down? && compact.None?
      modifies this
      ensures (View(), ok) == Wake(old(View()), e)
    {
      if raw.Some? || zst.Some? {
        RestoreKeeps(View(), e);
        var restored := RestoreVm(e);
        if restored { return true; }
      }
      ok := BootVm(e.bootOk, e.bootAlive);
    }

    method StartVm(e: StartEnv) returns (ok: bool)
      requires Inv(View()) && pc.Free? && compact.None?
      modifies this
      ensures (View(), ok) == Start(old(View()), e)
      ensures old(vmm).Down? ==> loads == LoadsAfter(old(View()), e)
      ensures old(vmm).Down? ==> if Resumes(old(View()), e) then ok && Resumed(old(View()), View()) else ok == e.bootOk && Booted(old(View()), e, View())
    {
      if vmm == Down { StartResumesIff(View(), e); }
      if vmm == Running || vmm == Blank { return true; }
      if vmm == Paused {
        if !e.seen { return true; }
        InvStart(View(), Heal(e.heal, e.serves && e.heal.Done?));
        ok := HealVm(e);
        if ok { return; }
      }
      ok := WakeVm(e);
    }

    /** A paused guest is resumed; one that does not serve then is killed. */
    method HealVm(e: StartEnv) returns (ok: bool)
      requires pc.Free? && vmm.Paused?
      modifies this`vmm, this`rev
      ensures View() == Next(old(View()), Heal(e.heal, e.serves && e.heal.Done?)) && ok == vmm.Running? && (ok || vmm.Down?)
    {
      if e.heal == Done && e.serves {
        vmm := Running;
        return true;
      }
      if e.heal != Refused { rev := rev + 1; }
      Kill();
      return false;
    }

    method StopVm()
      requires pc.Free?
      modifies this
      ensures View() == Next(old(View()), Stop)
      ensures vmm.Down? && raw.None? && zst.None? && state.None? && rev == old(rev) && loads == old(loads)
    {
      vmm := Down;
      DropSnapshot();
    }

    /** The VMM, the thin volume and the VM's directory go; a VM of this name starts from another rootfs. */
    method DeleteVm()
      requires pc.Free?
      modifies this
      ensures View() == Next(old(View()), Delete)
      ensures vmm.Down? && raw.None? && zst.None? && state.None? && rev != old(rev) && loads == old(loads)
    {
      Kill();
      rev := rev + 1;
      DropSnapshot();
    }
  }
}

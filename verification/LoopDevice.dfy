/** The loop-device snapshotter itself: the fields it keeps between calls and the loops
    and branches of its methods, each proved against LoopDeviceSpec. */
module LoopDevices {
  import opened Basics
  import opened SnapshotIds
  import opened LoopDeviceSpec

  class LoopDevice {
    const booted: set<nat>      // snapshots backing a loop device
    const maxSnaps: int
    var store: Store            // the state partition and the bootloader environment
    var currentSnapshotID: nat
    var activeSnapshotID: nat

    constructor (store: Store, booted: set<nat>, maxSnaps: int)
      ensures this.store == store && this.booted == booted && this.maxSnaps == maxSnaps
      ensures currentSnapshotID == activeSnapshotID == 0
    {
      this.store, this.booted, this.maxSnaps := store, booted, maxSnaps;
      currentSnapshotID, activeSnapshotID := 0, 0;
    }

    method GetSnapshots(faults: set<Step>) returns (ids: seq<nat>, err: bool)
      ensures err <==> ListDir in faults
      ensures !err ==> ids == Listing(store.dirs)
    {
      if ListDir in faults { return [], true; }
      return Listing(store.dirs), false;
    }

    method IsSnapshotInUse(id: nat, faults: set<Step>) returns (inUse: bool, err: bool)
      ensures err <==> Losetup in faults
      ensures !err ==> (inUse <==> id in booted)
    {
      if Losetup in faults { return false, true; }
      return id in booted, false;
    }

    method GetActiveSnapshot(faults: set<Step>) returns (id: nat, err: bool)
      ensures err <==> ReadLink in faults || ActiveId(store) < 0
      ensures !err ==> id == ActiveId(store)
    {
      if ReadLink in faults { return 0, true; }
      match store.link {
        case NoLink => return 0, false;
        case To(a) =>
          if a !in store.images { return 0, true; }
          return a, false;
      }
    }

    method GetNextSnapshotID(faults: set<Step>) returns (id: nat, err: bool)
      modifies this`currentSnapshotID
      ensures err <==> ListDir in faults || (store.dirs != {} && Losetup in faults)
      ensures !err ==> id == NextId(store.dirs)
      ensures !err ==> currentSnapshotID == LastBooted(Listing(store.dirs), booted, old(currentSnapshotID))
    {
      var ids;
      ids, err := GetSnapshots(faults);
      if err { return 0, true; }
      id, err := ScanIds(ids, faults);
      if err { return 0, true; }
      LargestIsNext(ids, store.dirs, id);
      id := id + 1;
    }

    /** The loop over the listed IDs: the largest one, and the booted one met last. */
    method ScanIds(ids: seq<nat>, faults: set<Step>) returns (id: nat, err: bool)
      modifies this`currentSnapshotID
      ensures err <==> ids != [] && Losetup in faults
      ensures !err ==> Largest(id, ids) && currentSnapshotID == LastBooted(ids, booted, old(currentSnapshotID))
    {
      id := 0;
      for k := 0 to |ids|
        invariant k > 0 ==> Losetup !in faults
        invariant Largest(id, ids[..k])
        invariant currentSnapshotID == LastBooted(ids[..k], booted, old(currentSnapshotID))
      {
        assert ids[..k + 1][..k] == ids[..k];
        var inUse;
        inUse, err := IsSnapshotInUse(ids[k], faults);
        if err { return 0, true; }
        if inUse { currentSnapshotID := ids[k]; }
        LargestNext(id, ids, k);
        if ids[k] > id { id := ids[k]; }
      }
      err := false;
      assert ids[..|ids|] == ids;
    }

    method StartTransaction(faults: set<Step>) returns (snap: Snapshot, err: bool)
      modifies this
      ensures (store, err) == Start(old(store), faults)
      ensures !err ==> snap == Snapshot(NextId(old(store).dirs), true) && activeSnapshotID == ActiveId(old(store))
    {
      var nextID, active;
      snap := Snapshot(0, false);
      nextID, err := GetNextSnapshotID(faults);
      if err { return; }
      active, err := GetActiveSnapshot(faults);
      if err { return; }
      if active == currentSnapshotID {
        activeSnapshotID := currentSnapshotID;
      } else {
        activeSnapshotID := active;
      }
      if MakeSnapDir in faults { return snap, true; }
      store := store.(dirs := store.dirs + {nextID});
      if MakeWorkDir in faults || MakeMountPoint in faults || Bind in faults {
        if RemoveSnapDir !in faults {
          store := store.(dirs := store.dirs - {nextID});
          assert store.dirs == old(store).dirs;
        }
        return snap, true;
      }
      store := store.(bound := store.bound + 1);
      return Snapshot(nextID, true), false;
    }

    method CloseTransactionOnError(snap: Snapshot, faults: set<Step>) returns (err: bool)
      modifies this`store
      ensures (store, err) == Abort(old(store), snap, faults)
    {
      err := false;
      if snap.inProgress { err := Unmount(faults); }
      if RemoveSnapDir in faults { return true; }
      store := WithoutSnapshot(store, snap.id);
    }

    method Unmount(faults: set<Step>) returns (err: bool)
      modifies this`store
      ensures (store, err) == Unmounted(old(store), faults)
    {
      err := store.bound == 0 || Unbind in faults;
      if !err { store := store.(bound := store.bound - 1); }
    }

    /** Closes the transaction; the snapshot comes back with its progress flag updated. */
    method CloseTransaction(snap: Snapshot, f: CloseFaults) returns (snap': Snapshot, err: bool)
      modifies this`store
      ensures (store, err) == Close(old(store), snap, booted, activeSnapshotID, maxSnaps, f)
      ensures snap' == if err then snap else snap.(inProgress := false)
    {
      snap' := snap;
      err := CommitSnapshot(snap, f.steps);
      if err {
        var _ := CloseTransactionOnError(snap, f.abort);
        return;
      }
      CleanOldSnapshots(f.retain, f.drop);
      UpdateBootloader(f.grub);
      snap' := snap.(inProgress := false);
    }

    method CommitSnapshot(snap: Snapshot, faults: set<Step>) returns (err: bool)
      modifies this`store
      ensures (store, err) == Commit(old(store), snap, activeSnapshotID, faults)
    {
      if !snap.inProgress { return true; }
      err := Unmount(faults);
      if err { return; }
      if MakeImage in faults { return true; }
      store := store.(images := store.images + {snap.id});
      if RemoveWorkDir in faults { return true; }
      if Unlink !in faults { store := store.(link := NoLink); }
      if Symlink !in faults && store.link.NoLink? {
        store := store.(link := To(snap.id));
        return false;
      }
      if Relink !in faults && store.link.NoLink? {
        store := store.(link := To(activeSnapshotID));
      }
      return true;
    }

    method DeleteSnapshot(id: nat, faults: set<Step>) returns (err: bool)
      modifies this`store
      ensures (store, err) == Delete(old(store), booted, activeSnapshotID, id, faults)
    {
      var inUse, snaps;
      inUse, err := IsSnapshotInUse(id, faults);
      if err { return; }
      if inUse { return true; }
      snaps, err := GetSnapshots(faults);
      if err { return; }
      if id !in snaps { return false; }
      if activeSnapshotID == id {
        if Unlink in faults || store.link.NoLink? { return true; }
        store := store.(link := NoLink);
      }
      if RemoveSnapDir in faults { return true; }
      store := WithoutSnapshot(store, id);
    }

    method GetPassiveSnapshots(faults: set<Step>) returns (ids: seq<nat>, err: bool)
      ensures err <==> ListFails(store, faults)
      ensures !err ==> ids == PassiveList(store)
    {
      var all, active;
      all, err := GetSnapshots(faults);
      if err { return [], true; }
      active, err := GetActiveSnapshot(faults);
      if err { return [], true; }
      ids := SkipActive(all, active);
    }

    method CleanOldSnapshots(faults: set<Step>, drop: nat -> set<Step>)
      modifies this`store
      ensures store == Retain(old(store), booted, activeSnapshotID, maxSnaps, faults, drop)
    {
      var listed, err := GetPassiveSnapshots(faults);
      if err { return; }
      PassivesAreListed(store);
      DeleteOldest(Elements(listed), drop);
    }

    /** Sorts the passives and drops the oldest until the rest fits. */
    method DeleteOldest(passives: set<nat>, drop: nat -> set<Step>)
      modifies this`store
      ensures store == Drop(old(store), booted, activeSnapshotID, Victims(passives, maxSnaps), drop)
    {
      var sorted := Ascending(passives);
      ghost var k := DeleteFirst(sorted, drop);
      PrefixIsVictims(passives, maxSnaps, k);
    }

    /** The retention loop; `k` is how many deletions it tries. */
    method DeleteFirst(sorted: seq<nat>, drop: nat -> set<Step>) returns (ghost k: nat)
      requires Increasing(sorted)
      modifies this`store
      ensures k <= |sorted| && (k == |sorted| || |sorted| - k <= maxSnaps - 1)
      ensures k == 0 || |sorted| - (k - 1) > maxSnaps - 1
      ensures store == Drop(old(store), booted, activeSnapshotID, Elements(sorted[..k]), drop)
    {
      var ids := sorted;
      k := 0;
      DropNothing(store, booted, activeSnapshotID, drop);
      assert sorted[..0] == [];
      while |ids| > maxSnaps - 1 && |ids| > 0
        invariant 0 <= k <= |sorted| && ids == sorted[k..]
        invariant k == 0 || |sorted| - (k - 1) > maxSnaps - 1
        invariant store == Drop(old(store), booted, activeSnapshotID, Elements(sorted[..k]), drop)
        decreases |ids|
      {
        DropNext(old(store), booted, activeSnapshotID, sorted, k, drop);
        var _ := DeleteSnapshot(ids[0], drop(ids[0]));
        ids := ids[1..];
        k := k + 1;
      }
    }

    method UpdateBootloader(faults: set<Step>)
      modifies this`store
      ensures store == SetBootloader(old(store), faults)
    {
      var ids, err := GetPassiveSnapshots(faults);
      if err { return; }
      var passives := Backwards(ids);
      var fallback := CountUpto(|ids| + 2);
      if GrubEnv in faults { return; }
      store := store.(grub := Grub(passives, fallback));
    }
  }

  /** The loop that leaves the active snapshot out of the listing. */
  method SkipActive(all: seq<nat>, active: nat) returns (ids: seq<nat>)
    ensures ids == Without(all, active)
  {
    ids := [];
    for k := 0 to |all|
      invariant ids + Without(all[k..], active) == Without(all, active)
    {
      assert all[k..][1..] == all[k + 1..];
      if all[k] != active { ids := ids + [all[k]]; }
    }
  }

  method CountUpto(n: nat) returns (r: seq<nat>)
    ensures r == Upto(n)
  {
    r := [];
    for j := 0 to n
      invariant r == Upto(j)
    {
      r := r + [j];
    }
  }

  /** The largest of `ids`, 0 if there is none. */
  ghost predicate Largest(id: nat, ids: seq<nat>)
  {
    (id == 0 || id in ids) && forall i :: 0 <= i < |ids| ==> ids[i] <= id
  }

  lemma LargestNext(id: nat, ids: seq<nat>, k: nat)
    requires k < |ids| && Largest(id, ids[..k])
    ensures Largest(if ids[k] > id then ids[k] else id, ids[..k + 1])
  {
    assert ids[..k + 1] == ids[..k] + [ids[k]];
  }

  lemma LargestIsNext(ids: seq<nat>, dirs: set<nat>, id: nat)
    requires Lists(ids, dirs) && Largest(id, ids)
    ensures NextId(dirs) == id + 1
  {
    var next := NextId(dirs);
    if next > 1 {
      assert next - 1 in ids;
      var i :| 0 <= i < |ids| && ids[i] == next - 1;
    }
    if id > 0 { assert id in dirs; }
  }

  method Backwards(ids: seq<nat>) returns (r: seq<nat>)
    ensures r == Rev(ids)
  {
    r := [];
    var i := |ids|;
    assert ids[..i] == ids;
    while i > 0
      invariant 0 <= i <= |ids| && r + Rev(ids[..i]) == Rev(ids)
    {
      i := i - 1;
      assert ids[..i + 1][..i] == ids[..i];
      r := r + [ids[i]];
    }
  }

  lemma PassivesAreListed(s: Store)
    ensures Elements(PassiveList(s)) == Passives(s)
  {
    WithoutLists(Listing(s.dirs), s.dirs, ActiveId(s));
    forall d ensures d in PassiveList(s) <==> d in Passives(s) {
    }
  }

  /** The booted snapshot met last, `before` if none is met. */
  function LastBooted(ids: seq<nat>, booted: set<nat>, before: nat): nat
  {
    if ids == [] then before
    else if ids[|ids| - 1] in booted then ids[|ids| - 1]
    else LastBooted(ids[..|ids| - 1], booted, before)
  }

  /** Which one that is, without following the loop. */
  lemma {:induction false} LastBootedIs(ids: seq<nat>, booted: set<nat>, before: nat)
    ensures (forall i :: 0 <= i < |ids| ==> ids[i] !in booted) ==> LastBooted(ids, booted, before) == before
    ensures forall i :: 0 <= i < |ids| && ids[i] in booted && (forall j :: i < j < |ids| ==> ids[j] !in booted) ==>
      LastBooted(ids, booted, before) == ids[i]
  {
    if ids != [] && ids[|ids| - 1] !in booted { LastBootedIs(ids[..|ids| - 1], booted, before); }
  }

  lemma DropNothing(s: Store, booted: set<nat>, stale: nat, drop: nat -> set<Step>)
    ensures Drop(s, booted, stale, Elements([]), drop) == s
  {
    assert s.dirs - {} == s.dirs && s.images - {} == s.images;
  }

  lemma DropNext(s: Store, booted: set<nat>, stale: nat, sorted: seq<nat>, k: nat, drop: nat -> set<Step>)
    requires Increasing(sorted) && k < |sorted|
    ensures Delete(Drop(s, booted, stale, Elements(sorted[..k]), drop), booted, stale, sorted[k], drop(sorted[k])).0
         == Drop(s, booted, stale, Elements(sorted[..k + 1]), drop)
  {
    assert Elements(sorted[..k + 1]) == Elements(sorted[..k]) + {sorted[k]} by {
      assert sorted[..k + 1] == sorted[..k] + [sorted[k]];
    }
    DropOneMore(s, booted, stale, Elements(sorted[..k]), drop, sorted[k]);
  }
}

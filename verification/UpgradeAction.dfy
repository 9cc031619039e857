/** UpgradeAction with its snapshotter, clean-up stack and state.yaml, proved against UpgradeSpec. */
module UpgradeActions {
  import opened SnapshotIds
  import opened LoopDeviceSpec
  import opened LoopDevices
  import opened CleanStacks
  import opened UpgradeSpec
  import Mounts

  /** The loop over the entries: the active one and those whose snapshot is gone. */
  method ScanEntries(e: Entries, visit: seq<nat>, snapshots: seq<nat>, ghost dirs: set<nat>)
    returns (oldActiveID: nat, deleted: set<nat>)
    requires Lists(snapshots, dirs)
    ensures oldActiveID == LastActive(e, visit) && deleted == Orphaned(e, visit, dirs)
  {
    oldActiveID, deleted := 0, {};
    for k := 0 to |visit|
      invariant oldActiveID == LastActive(e, visit[..k])
      invariant deleted == Orphaned(e, visit[..k], dirs)
    {
      var id := visit[k];
      assert visit[..k + 1] == visit[..k] + [id];
      assert Orphaned(e, visit[..k + 1], dirs)
        == Orphaned(e, visit[..k], dirs) + (if id in e && id !in dirs then {id} else {});
      if id in e {
        if e[id] { oldActiveID := id; }
        if id !in snapshots { deleted := deleted + {id}; }
      }
    }
    assert visit[..|visit|] == visit;
  }

  method RewriteEntries(e: Entries, visit: seq<nat>, id: nat, snapshots: seq<nat>, ghost dirs: set<nat>)
    returns (updated: Entries)
    requires Lists(snapshots, dirs)
    ensures updated == Updated(e, visit, id, dirs)
  {
    var oldActiveID, deleted := ScanEntries(e, visit, snapshots, dirs);
    updated := e[id := true];
    if oldActiveID in updated { updated := updated[oldActiveID := false]; }
    updated := updated - deleted;
  }

  class UpgradeAction {
    const cfg: Config
    const snapshotter: LoopDevice
    var snapshot: Snapshot
    var mounts: Points
    var entries: Entries

    ghost predicate Valid()
    {
      snapshotter.booted == cfg.booted && snapshotter.maxSnaps == cfg.maxSnaps
    }

    function Current(): World
      reads this, snapshotter
    {
      World(snapshotter.store, snapshot, mounts, entries)
    }

    constructor (cfg: Config, snapshotter: LoopDevice, snapshot: Snapshot, mounts: Points, entries: Entries)
      requires snapshotter.booted == cfg.booted && snapshotter.maxSnaps == cfg.maxSnaps
      ensures Valid() && this.cfg == cfg && Current() == World(snapshotter.store, snapshot, mounts, entries)
    {
      this.cfg, this.snapshotter, this.snapshot := cfg, snapshotter, snapshot;
      this.mounts, this.entries := mounts, entries;
    }

    method MountRWPartitions(cleanup: CleanStack<World>, plan: Plan) returns (err: bool)
      requires cleanup.Valid()
      modifies this`mounts, cleanup
      ensures cleanup.Valid()
      ensures Progress(Current(), cleanup.Live(), err)
        == MountAll(Progress(old(Current()), old(cleanup.Live()), false), Parts(cfg), plan)
    {
      var parts := Parts(cfg);
      err := false;
      var k := 0;
      while k < |parts| && !err
        invariant 0 <= k <= |parts| && cleanup.Valid()
        invariant MountAll(Progress(Current(), cleanup.Live(), err), parts[k..], plan)
               == MountAll(Progress(old(Current()), old(cleanup.Live()), false), parts, plan)
        decreases |parts| - k, !err
      {
        var p := parts[k];
        assert parts[k..][1..] == parts[k + 1..];
        var r := Mounts.MountRW(At(mounts, p), plan.mount(p));
        if r.2 {
          err := true;
        } else {
          mounts := Put(mounts, p, r.0);
          cleanup.Push(UndoJob(p, r.1, plan.undo(p)));
        }
        k := k + 1;
      }
    }

    /** Rewrites the entries: drop the deleted, add the new one, demote the old active one. */
    method UpgradeInstallStateYaml(plan: Plan) returns (err: bool)
      modifies this`entries
      ensures err <==> ListForState in plan.fails || WriteState in plan.fails
      ensures entries ==
        if err then old(entries) else Updated(old(entries), plan.visit, snapshot.id, snapshotter.store.dirs)
    {
      if ListForState in plan.fails { return true; }
      var snapshots := Listing(snapshotter.store.dirs);
      var updated := RewriteEntries(entries, plan.visit, snapshot.id, snapshots, snapshotter.store.dirs);
      if WriteState in plan.fails { return true; }
      entries := updated;
      return false;
    }

    /** The statements of Run; what is still on the stack when they end is run by the caller, unless the
        machine went down. */
    method Steps(cleanup: CleanStack<World>, plan: Plan) returns (err: bool, down: bool)
      requires Valid() && cleanup.Valid() && cleanup.Live() == []
      modifies this, snapshotter, cleanup
      ensures cleanup.Valid()
      ensures Ends(Upgrade(old(Current()), cfg, plan), cleanup.Live(), Current(), err, down)
    {
      down := false;
      err := MountRWPartitions(cleanup, plan);
      if err { return; }
      if InitSnapshotter in plan.fails || BeforeHook in plan.fails { return true, false; }
      var snap;
      snap, err := snapshotter.StartTransaction(plan.start);
      if err { return; }
      snapshot := snap;
      cleanup.Push(AbortJob(plan.abort));
      err, down := WithinTransaction(cleanup, plan);
    }

    method WithinTransaction(cleanup: CleanStack<World>, plan: Plan) returns (err: bool, down: bool)
      requires Valid() && cleanup.Valid()
      modifies this, snapshotter, cleanup
      ensures cleanup.Valid()
      ensures var at := Progress(old(Current()), old(cleanup.Live()), false);
        Ends(Transaction(at, old(snapshotter.activeSnapshotID), cfg, plan), cleanup.Live(), Current(), err, down)
    {
      if Deploy in plan.fails || Refine in plan.fails { return true, false; }
      snapshot, err := snapshotter.CloseTransaction(snapshot, plan.close);
      if err { return err, false; }
      err, down := AfterTransaction(cleanup, plan);
    }

    method AfterTransaction(cleanup: CleanStack<World>, plan: Plan) returns (err: bool, down: bool)
      requires Valid() && cleanup.Valid()
      modifies this, snapshotter, cleanup
      ensures cleanup.Valid()
      ensures var at := Progress(old(Current()), old(cleanup.Live()), false);
        Ends(Closing(at, cfg, plan), cleanup.Live(), Current(), err, down)
    {
      if cfg.recoveryUpgrade {
        err, down := UpgradeRecovery(plan);
        if err || down { return; }
      }
      if PostHook in plan.fails { return true, false; }
      err := UpgradeInstallStateYaml(plan);
      if err { return err, false; }
      err := RunCleanup(cleanup, err);
      if err { return err, false; }
      if cfg.power {
        if Power in plan.fails { return true, false; }
        return false, true;
      }
      return false, false;
    }

    /** The nested recovery upgrade: it fails, or is done, in which case its own power action may have
        taken the machine down. */
    method UpgradeRecovery(plan: Plan) returns (err: bool, down: bool)
      requires cfg.recoveryUpgrade
      ensures err <==> RecoveryUpgrade in plan.fails
      ensures down <==> PowersDown(cfg, plan)
    {
      if RecoveryUpgrade in plan.fails { return true, false; }
      if plan.salvaged { return false, false; }
      return false, cfg.power;
    }

    method RunCleanup(cleanup: CleanStack<World>, err: bool) returns (errs: bool)
      requires Valid() && cleanup.Valid()
      modifies this, snapshotter, cleanup
      ensures cleanup.Valid() && cleanup.Live() == []
      ensures (Current(), errs) == RunJobs(old(cleanup.Live()), old(Current()), err)
    {
      var w;
      w, errs := cleanup.Cleanup(Current(), err);
      snapshotter.store, snapshot, mounts, entries := w.store, w.snap, w.mounts, w.entries;
    }

    /** Once the machine is down nothing runs any more, the deferred clean-up included. */
    method Run(plan: Plan) returns (err: bool, down: bool)
      requires Valid()
      modifies this, snapshotter
      ensures var out := Upgrade(old(Current()), cfg, plan);
        Current() == out.w && err == out.err && down == out.down
    {
      var cleanup := new CleanStack<World>();
      err, down := Steps(cleanup, plan);
      if !down { err := RunCleanup(cleanup, err); }
    }
  }

  /** `out` is what comes of a run that has got to `w` with `jobs` still to be run. */
  ghost predicate Ends(out: Outcome, jobs: seq<Job<World>>, w: World, err: bool, down: bool)
  {
    && down == out.down
    && (out.w, out.err) == if down then (w, err) else RunJobs(jobs, w, err)
  }
}

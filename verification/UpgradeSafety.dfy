/** Safety of a single upgrade: what it leaves when it fails before the commit, when it
    succeeds, and when it fails too late. */
module UpgradeSafety {
  import opened SnapshotIds
  import opened LoopDeviceSpec
  import opened CleanStacks
  import opened UpgradeSpec
  import opened UpgradeTheorems
  import Mounts

  // ---- Failing before the commit ----

  /** StartTransaction gets to create the snapshot directory. */
  ghost predicate Creates(w: World, c: Config, plan: Plan)
  {
    Begins(w, c, plan) && !QueriesFail(w.store, plan.start) && MakeSnapDir !in plan.start
  }

  /** None of the attempts to remove the directory of a run that failed before the commit works:
      StartTransaction's own, CloseTransaction's, the one on the clean-up stack. */
  ghost predicate Strands(w: World, c: Config, plan: Plan)
  {
    && Creates(w, c, plan)
    && if Start(w.store, plan.start).1 then RemoveSnapDir in plan.start
       else RemoveSnapDir in plan.abort &&
            (Deploy in plan.fails || Refine in plan.fails || RemoveSnapDir in plan.close.abort)
  }

  /** The run gets to replacing the link. */
  ghost predicate ReachesSwitch(w: World, c: Config, plan: Plan)
  {
    && Creates(w, c, plan) && !Start(w.store, plan.start).1
    && Deploy !in plan.fails && Refine !in plan.fails
    && Unbind !in plan.close.steps && MakeImage !in plan.close.steps && RemoveWorkDir !in plan.close.steps
  }

  /** The link is taken away and the old one is not put back, or one is put where none was. */
  ghost predicate LosesLink(w: World, c: Config, plan: Plan)
  {
    && ReachesSwitch(w, c, plan)
    && (Unlink !in plan.close.steps || w.store.link.NoLink?)
    && (w.store.link.To? <==> Relink in plan.close.steps)
  }

  /** How many of the unmounts of its work directory work in a transaction that does not commit. */
  function Unmounts(plan: Plan): nat
  {
    (if Unbind in plan.abort then 0 else 1)
    + if Deploy in plan.fails || Refine in plan.fails then 0
      else (if Unbind in plan.close.steps then 0 else 1) + (if Unbind in plan.close.abort then 0 else 1)
  }

  function Less(n: nat, k: nat): nat
  {
    if n > k then n - k else 0
  }

  /** The bind mounts there are after a run that does not commit: each unmount that works takes one away,
      one of an earlier run when the run's own is gone. */
  ghost function LeftBound(w: World, c: Config, plan: Plan): nat
  {
    if Creates(w, c, plan) && !Start(w.store, plan.start).1 then Less(w.store.bound + 1, Unmounts(plan))
    else w.store.bound
  }

  /** The link can be replaced once the switch is reached. */
  ghost predicate Commits(w: World, c: Config, plan: Plan)
  {
    && ReachesSwitch(w, c, plan)
    && Symlink !in plan.close.steps && (Unlink !in plan.close.steps || w.store.link.NoLink?)
  }

  lemma SwitchCommits(w: World, c: Config, plan: Plan)
    requires Creates(w, c, plan) && !Start(w.store, plan.start).1 && Deploy !in plan.fails && Refine !in plan.fails
    ensures Commit(Start(w.store, plan.start).0, Snapshot(NextId(w.store.dirs), true),
           ActiveId(w.store), plan.close.steps).1
      <==> !Commits(w, c, plan)
  {
  }

  lemma EffectCommits(w: World, c: Config, plan: Plan)
    ensures EffectOf(w, c, plan).committed <==> Commits(w, c, plan)
  {
    if Creates(w, c, plan) && !Start(w.store, plan.start).1 && Deploy !in plan.fails && Refine !in plan.fails {
      SwitchCommits(w, c, plan);
    }
  }

  /** Which runs get past their commit, in terms of the calls that work. */
  lemma CommitsExactly(w: World, c: Config, plan: Plan)
    ensures Upgrade(w, c, plan).committed <==> Commits(w, c, plan)
  {
    UpgradeEffect(w, c, plan);
    EffectCommits(w, c, plan);
  }

  /** A failed CloseTransaction of `snap` took `s` to `r`: it touched the new snapshot and possibly the
      link, nothing else. */
  ghost predicate ClosedOnError(s: Store, snap: Snapshot, stale: nat, f: CloseFaults, r: Store)
  {
    && r.dirs == (if RemoveSnapDir in f.abort then s.dirs else s.dirs - {snap.id})
    && r.images - {snap.id} == s.images - {snap.id} && r.grub == s.grub
    && (snap.id in r.images <==>
          RemoveSnapDir in f.abort && (snap.id in s.images || (Unbind !in f.steps && MakeImage !in f.steps)))
    && r.bound == Less(s.bound, (if Unbind in f.steps then 0 else 1) + (if Unbind in f.abort then 0 else 1))
    && r.link ==
         if Unbind in f.steps || MakeImage in f.steps || RemoveWorkDir in f.steps || (Unlink in f.steps && s.link.To?)
         then s.link else if Relink in f.steps then NoLink else To(stale)
  }

  lemma FailedClose(s: Store, snap: Snapshot, booted: set<nat>, stale: nat, max: int, f: CloseFaults)
    requires snap.inProgress && s.bound > 0 && Close(s, snap, booted, stale, max, f).1
    ensures ClosedOnError(s, snap, stale, f, Close(s, snap, booted, stale, max, f).0)
  {
  }

  lemma AbortedStart(w: World, s: Store, id: nat, faults: set<Step>)
    requires id !in w.store.dirs && id !in w.store.images
    requires s.dirs == w.store.dirs || s.dirs == w.store.dirs + {id}
    requires s.images - {id} == w.store.images
    ensures var r := Abort(s, Snapshot(id, true), faults).0;
      && r.link == s.link && r.grub == s.grub
      && r.dirs == (if RemoveSnapDir in faults then s.dirs else w.store.dirs)
      && r.images == (if RemoveSnapDir in faults then s.images else w.store.images)
      && r.bound == (if Unbind in faults then s.bound else Less(s.bound, 1))
  {
  }

  /** What the effect `e` of an uncommitted run leaves of the store `s` it started from. */
  ghost predicate RolledBack(w: World, e: Effect, id: nat, stranded: bool, lost: bool, bound: nat)
  {
    var s := w.store;
    && e.failed && e.entries == w.entries && e.store.grub == s.grub
    && e.store.dirs == (if stranded then s.dirs + {id} else s.dirs)
    && e.store.images - {id} == s.images && (!stranded ==> e.store.images == s.images)
    && e.store.link == (if !lost then s.link else if s.link.To? then NoLink else To(0))
    && e.store.bound == bound
  }

  lemma TransactionRollsBack(w: World, c: Config, plan: Plan)
    requires WellFormed(w.store) && Begins(w, c, plan) && !Start(w.store, plan.start).1
      && !EffectOf(w, c, plan).committed
    ensures RolledBack(w, EffectOf(w, c, plan), NextId(w.store.dirs),
               Strands(w, c, plan), LosesLink(w, c, plan), LeftBound(w, c, plan))
  {
    var id, s := NextId(w.store.dirs), Start(w.store, plan.start).0;
    assert s.dirs - {id} == w.store.dirs && s.images - {id} == w.store.images;
    if Deploy in plan.fails || Refine in plan.fails {
      AbortedStart(w, s, id, plan.abort);
    } else {
      FailedCloseRollsBack(w, c, plan);
    }
  }

  lemma FailedCloseRollsBack(w: World, c: Config, plan: Plan)
    requires WellFormed(w.store) && Begins(w, c, plan) && !Start(w.store, plan.start).1
      && !EffectOf(w, c, plan).committed
    requires Deploy !in plan.fails && Refine !in plan.fails
    ensures RolledBack(w, EffectOf(w, c, plan), NextId(w.store.dirs),
               Strands(w, c, plan), LosesLink(w, c, plan), LeftBound(w, c, plan))
  {
    var s, snap, f := Start(w.store, plan.start).0, Snapshot(NextId(w.store.dirs), true), plan.close;
    FailedClose(s, snap, c.booted, ActiveId(w.store), c.maxSnaps, f);
    EffectCommits(w, c, plan);
    LinkAfterClose(w, c, plan);
    LeftAfterClose(w, c, plan);
    AbortAfterClose(w, snap.id, f, plan.abort,
                    Close(s, snap, c.booted, ActiveId(w.store), c.maxSnaps, f).0,
                    LosesLink(w, c, plan));
  }

  lemma AbortAfterClose(w: World, id: nat, f: CloseFaults, abort: set<Step>, r: Store, lost: bool)
    requires id !in w.store.dirs && id !in w.store.images && ActiveId(w.store) >= 0
    requires ClosedOnError(w.store.(dirs := w.store.dirs + {id}, bound := w.store.bound + 1),
                           Snapshot(id, true), ActiveId(w.store), f, r)
    requires r.link == if !lost then w.store.link else if w.store.link.To? then NoLink else To(0)
    ensures RolledBack(w, Effect(Abort(r, Snapshot(id, true), abort).0, w.entries, false, true), id,
                       RemoveSnapDir in abort && RemoveSnapDir in f.abort, lost,
                       Less(w.store.bound + 1,
                            (if Unbind in abort then 0 else 1) + (if Unbind in f.steps then 0 else 1)
                            + (if Unbind in f.abort then 0 else 1)))
  {
    assert w.store.dirs + {id} - {id} == w.store.dirs && w.store.images - {id} == w.store.images;
    assert r.images - {id} == w.store.images;
    AbortedStart(w, r, id, abort);
    assert RemoveSnapDir !in f.abort ==> r.images == w.store.images;
  }

  lemma LeftAfterClose(w: World, c: Config, plan: Plan)
    requires Creates(w, c, plan) && !Start(w.store, plan.start).1 && Deploy !in plan.fails && Refine !in plan.fails
    ensures Strands(w, c, plan) <==> RemoveSnapDir in plan.abort && RemoveSnapDir in plan.close.abort
    ensures LeftBound(w, c, plan)
      == Less(w.store.bound + 1,
              (if Unbind in plan.abort then 0 else 1) + (if Unbind in plan.close.steps then 0 else 1)
              + (if Unbind in plan.close.abort then 0 else 1))
  {
  }

  lemma LinkAfterClose(w: World, c: Config, plan: Plan)
    requires Creates(w, c, plan) && !Start(w.store, plan.start).1 && !Commits(w, c, plan)
    requires Deploy !in plan.fails && Refine !in plan.fails
    ensures var f, link := plan.close, w.store.link;
      (if Unbind in f.steps || MakeImage in f.steps || RemoveWorkDir in f.steps || (Unlink in f.steps && link.To?)
       then link else if Relink in f.steps then NoLink else To(ActiveId(w.store)))
      == if !LosesLink(w, c, plan) then link else if link.To? then NoLink else To(0)
  {
  }

  lemma EarlyFailureRollsBack(w: World, c: Config, plan: Plan)
    requires WellFormed(w.store) && (!Begins(w, c, plan) || Start(w.store, plan.start).1)
    ensures RolledBack(w, EffectOf(w, c, plan), NextId(w.store.dirs),
               Strands(w, c, plan), LosesLink(w, c, plan), LeftBound(w, c, plan))
  {
    assert w.store.images - {NextId(w.store.dirs)} == w.store.images;
  }

  lemma EffectRollsBack(w: World, c: Config, plan: Plan)
    requires WellFormed(w.store) && !EffectOf(w, c, plan).committed
    ensures RolledBack(w, EffectOf(w, c, plan), NextId(w.store.dirs),
               Strands(w, c, plan), LosesLink(w, c, plan), LeftBound(w, c, plan))
  {
    if Begins(w, c, plan) && !Start(w.store, plan.start).1 {
      TransactionRollsBack(w, c, plan);
    } else {
      EarlyFailureRollsBack(w, c, plan);
    }
  }

  /** An upgrade that fails before the commit reports it and leaves the old images, the bootloader
      list and state.yaml alone. It leaves the same snapshot directories exactly unless every
      removal failed, and the same link exactly unless restoring it failed. */
  lemma RollbackIsExact(w: World, c: Config, plan: Plan)
    requires WellFormed(w.store) && !Upgrade(w, c, plan).committed
    ensures var out, id := Upgrade(w, c, plan), NextId(w.store.dirs);
      && out.err && out.w.entries == w.entries && out.w.store.grub == w.store.grub
      && out.w.store.dirs == (if Strands(w, c, plan) then w.store.dirs + {id} else w.store.dirs)
      && out.w.store.images - {id} == w.store.images
      && (!Strands(w, c, plan) ==> out.w.store.images == w.store.images)
      && out.w.store.bound == LeftBound(w, c, plan)
      && (out.w.store.link == w.store.link <==> !LosesLink(w, c, plan))
  {
    UpgradeEffect(w, c, plan);
    EffectRollsBack(w, c, plan);
  }

  // ---- The partitions mounted for the run ----

  /** The point of `p` when its mount, with the calls the plan lets fail, has been undone. */
  function RoundTrip(before: Mounts.Point, p: Part, plan: Plan): Mounts.Point
  {
    var (after, undo, _) := Mounts.MountRW(before, plan.mount(p));
    Mounts.RunUndo(after, undo, plan.undo(p)).0
  }

  predicate CannotMount(m: Points, p: Part, plan: Plan)
  {
    Mounts.MountRW(At(m, p), plan.mount(p)).2
  }

  /** The mount points after a run: up to the first partition that cannot be mounted, each has gone
      through its mount and the undo of it. */
  function Settled(m: Points, parts: seq<Part>, plan: Plan): Points
    decreases parts
  {
    if parts == [] || CannotMount(m, parts[0], plan) then m
    else Settled(Put(m, parts[0], RoundTrip(At(m, parts[0]), parts[0], plan)), parts[1..], plan)
  }

  predicate Distinct(parts: seq<Part>)
  {
    forall i, j :: 0 <= i < j < |parts| ==> parts[i] != parts[j]
  }

  lemma PartsAreDistinct(c: Config)
    ensures Distinct(Parts(c))
  {
  }

  lemma PutPut(m: Points, p: Part, q: Part, x: Mounts.Point, y: Mounts.Point)
    ensures At(Put(m, p, x), p) == x && (p != q ==> At(Put(m, p, x), q) == At(m, q))
    ensures Put(Put(m, p, x), p, y) == Put(m, p, y) && Put(m, p, At(m, p)) == m
    ensures p != q ==> Put(Put(m, p, x), q, y) == Put(Put(m, q, y), p, x)
  {
  }

  /** Settling other partitions does not depend on what is mounted on `p`. */
  lemma {:induction false} SettledElsewhere(m: Points, parts: seq<Part>, plan: Plan, p: Part, x: Mounts.Point)
    requires p !in parts
    ensures Settled(Put(m, p, x), parts, plan) == Put(Settled(m, parts, plan), p, x)
    decreases parts
  {
    if parts != [] {
      var q := parts[0];
      var y := RoundTrip(At(m, q), q, plan);
      PutPut(m, p, q, x, y);
      if !CannotMount(m, q, plan) { SettledElsewhere(Put(m, q, y), parts[1..], plan, p, x); }
    }
  }

  predicate UndoOfFails(m: Points, p: Part, plan: Plan)
  {
    Mounts.UndoFails(At(m, p), plan.mount(p), plan.undo(p))
  }

  /** One of the undos of the partitions mounted reports an error. */
  predicate SomeUndoFails(m: Points, parts: seq<Part>, plan: Plan)
  {
    && parts != [] && !CannotMount(m, parts[0], plan)
    && (UndoOfFails(m, parts[0], plan) || SomeUndoFails(m, parts[1..], plan))
  }

  lemma {:induction false} FailsElsewhere(m: Points, parts: seq<Part>, plan: Plan, p: Part, x: Mounts.Point)
    requires p !in parts
    ensures SomeUndoFails(Put(m, p, x), parts, plan) <==> SomeUndoFails(m, parts, plan)
  {
    if parts != [] {
      PutPut(m, p, parts[0], x, x);
      FailsElsewhere(m, parts[1..], plan, p, x);
    }
  }

  /** Popping the jobs pushed while mounting settles the partitions, whichever of the jobs fail, and adds
      an error exactly if one does. */
  lemma {:induction false} MountJobsSettle(at: Progress, parts: seq<Part>, plan: Plan, w: World, err: bool)
    requires !at.err && Distinct(parts) && w.mounts == MountAll(at, parts, plan).w.mounts
    ensures RunJobs(MountAll(at, parts, plan).jobs, w, err)
         == RunJobs(at.jobs, w.(mounts := Settled(at.w.mounts, parts, plan)),
                    err || SomeUndoFails(at.w.mounts, parts, plan))
    decreases parts
  {
    if parts != [] && !MountOne(at, parts[0], plan).err {
      var p, rest := parts[0], parts[1..];
      var next := MountOne(at, p, plan);
      assert p !in rest;
      MountJobsSettle(next, rest, plan, w, err);
      UndoSettles(at, p, rest, plan, w, err || SomeUndoFails(next.w.mounts, rest, plan));
      FailsElsewhere(at.w.mounts, rest, plan, p, At(next.w.mounts, p));
      PutPut(at.w.mounts, p, p, At(next.w.mounts, p), []);
    }
  }

  lemma UndoSettles(at: Progress, p: Part, rest: seq<Part>, plan: Plan, w: World, err: bool)
    requires p !in rest && !MountOne(at, p, plan).err
    ensures var m, next := at.w.mounts, MountOne(at, p, plan);
      RunJobs(next.jobs, w.(mounts := Settled(next.w.mounts, rest, plan)), err)
        == RunJobs(at.jobs, w.(mounts := Settled(Put(m, p, RoundTrip(At(m, p), p, plan)), rest, plan)),
                   err || UndoOfFails(m, p, plan))
  {
    var m := at.w.mounts;
    var before, base := At(m, p), Settled(m, rest, plan);
    var (after, undo, _) := Mounts.MountRW(before, plan.mount(p));
    SettledElsewhere(m, rest, plan, p, after);
    SettledElsewhere(m, rest, plan, p, RoundTrip(before, p, plan));
    Mounts.UndoError(before, plan.mount(p), plan.undo(p));
    PopUndo(at.jobs, base, p, after, undo, plan.undo(p), w, err);
  }

  lemma PopUndo(jobs: seq<Job<World>>, m: Points, p: Part, x: Mounts.Point,
                undo: Mounts.Undo, faults: set<Mounts.Step>, w: World, err: bool)
    ensures RunJobs(jobs + [UndoJob(p, undo, faults)], w.(mounts := Put(m, p, x)), err)
         == RunJobs(jobs, w.(mounts := Put(m, p, Mounts.RunUndo(x, undo, faults).0)),
                    err || Mounts.RunUndo(x, undo, faults).1)
  {
    RunTop(jobs, UndoJob(p, undo, faults), w.(mounts := Put(m, p, x)), err);
    PutPut(m, p, p, x, Mounts.RunUndo(x, undo, faults).0);
  }

  ghost predicate LeavesMounts(jobs: seq<Job<World>>, from: Points, to: Points)
  {
    forall w: World, err :: w.mounts == from ==> RunJobs(jobs, w, err).0.mounts == to
  }

  lemma StackSettlesMounts(w: World, c: Config, plan: Plan)
    ensures var m, to := Mounted(w, c, plan), Settled(w.mounts, Parts(c), plan);
      && LeavesMounts(m.jobs, m.w.mounts, to)
      && LeavesMounts(m.jobs + [AbortJob(plan.abort)], m.w.mounts, to)
  {
    var m, job, to := Mounted(w, c, plan), AbortJob(plan.abort), Settled(w.mounts, Parts(c), plan);
    forall w': World, err | w'.mounts == m.w.mounts
      ensures RunJobs(m.jobs, w', err).0.mounts == to && RunJobs(m.jobs + [job], w', err).0.mounts == to
    {
      MountJobsSettle(Progress(w, [], false), Parts(c), plan, w', err);
      RunTop(m.jobs, job, w', err);
      var next := Pop1(job, (w', err));
      MountJobsSettle(Progress(w, [], false), Parts(c), plan, next.0, next.1);
    }
  }

  /** The run gets past its commit and goes down in the nested power action. */
  ghost predicate GoesDown(w: World, c: Config, plan: Plan)
  {
    Commits(w, c, plan) && PowersDown(c, plan)
  }

  lemma TransactionMounts(at: Progress, stale: nat, c: Config, plan: Plan, to: Points)
    requires LeavesMounts(at.jobs, at.w.mounts, to)
    ensures var out := Transaction(at, stale, c, plan);
      out.w.mounts == if out.committed && PowersDown(c, plan) then at.w.mounts else to
  {
  }

  /** However a run ends, its mounts have all been through their undo; only if the machine goes down they
      are still there at that moment. */
  lemma PartitionsAreSettled(w: World, c: Config, plan: Plan)
    ensures Upgrade(w, c, plan).w.mounts
         == if GoesDown(w, c, plan) then Mounted(w, c, plan).w.mounts else Settled(w.mounts, Parts(c), plan)
  {
    StackSettlesMounts(w, c, plan);
    CommitsExactly(w, c, plan);
    var m, to := Mounted(w, c, plan), Settled(w.mounts, Parts(c), plan);
    if Begins(w, c, plan) && !Start(m.w.store, plan.start).1 {
      var id := NextId(m.w.store.dirs);
      var started := m.w.(store := Start(m.w.store, plan.start).0, snap := Snapshot(id, true));
      var at := Progress(started, m.jobs + [AbortJob(plan.abort)], false);
      TransactionMounts(at, ActiveId(m.w.store), c, plan, to);
    }
  }

  /** Every partition that gets mounted, up to the first that cannot be, is restored by its undo. */
  predicate RestoresAll(m: Points, parts: seq<Part>, plan: Plan)
  {
    parts != [] && !CannotMount(m, parts[0], plan) ==>
      && Mounts.UndoRestores(At(m, parts[0]), plan.mount(parts[0]), plan.undo(parts[0]))
      && RestoresAll(m, parts[1..], plan)
  }

  lemma {:induction false} SettledChanges(m: Points, parts: seq<Part>, plan: Plan)
    requires Distinct(parts)
    ensures Settled(m, parts, plan) == m <==> RestoresAll(m, parts, plan)
  {
    if parts != [] && !CannotMount(m, parts[0], plan) {
      var p, rest := parts[0], parts[1..];
      var x := RoundTrip(At(m, p), p, plan);
      assert p !in rest;
      Mounts.MountRWRoundTrip(At(m, p), plan.mount(p), plan.undo(p));
      SettledElsewhere(m, rest, plan, p, x);
      PutPut(m, p, p, x, x);
      PutPut(Settled(m, rest, plan), p, p, x, x);
      SettledChanges(m, rest, plan);
    }
  }

  /** Every partition is seen to be mounted, and read-write. */
  predicate AllReadWrite(m: Points, parts: seq<Part>, plan: Plan)
  {
    forall i :: 0 <= i < |parts| ==>
      At(m, parts[i]) != [] && Mounts.Top(At(m, parts[i])) == Mounts.Rw && Mounts.Probe !in plan.mount(parts[i])
  }

  /** Mounting all partitions changes nothing exactly if they are. */
  lemma {:induction false} MountingChanges(at: Progress, parts: seq<Part>, plan: Plan)
    requires Distinct(parts) && !MountAll(at, parts, plan).err
    ensures MountAll(at, parts, plan).w.mounts == at.w.mounts <==> AllReadWrite(at.w.mounts, parts, plan)
    ensures forall q :: q !in parts ==> At(MountAll(at, parts, plan).w.mounts, q) == At(at.w.mounts, q)
    decreases parts
  {
    if parts != [] {
      var p, rest := parts[0], parts[1..];
      var next := MountOne(at, p, plan);
      assert p !in rest && !next.err;
      MountingChanges(next, rest, plan);
      MountChanges(At(at.w.mounts, p), plan.mount(p));
      forall q ensures q != p ==> At(next.w.mounts, q) == At(at.w.mounts, q) {
        PutPut(at.w.mounts, p, q, At(next.w.mounts, p), []);
      }
      PutPut(at.w.mounts, p, p, At(next.w.mounts, p), []);
      assert forall i :: 0 < i < |parts| ==> parts[i] == rest[i - 1];
    }
  }

  lemma MountChanges(m: Mounts.Point, faults: set<Mounts.Step>)
    requires !Mounts.MountRW(m, faults).2
    ensures Mounts.MountRW(m, faults).0 == m <==> m != [] && Mounts.Top(m) == Mounts.Rw && Mounts.Probe !in faults
  {
  }

  /** However a run ends, every partition it mounted or remounted is back as it was, exactly if each
      undo restores its own; if the machine goes down before that, exactly if nothing had to be done. */
  lemma PartitionsAreRestored(w: World, c: Config, plan: Plan)
    ensures Upgrade(w, c, plan).w.mounts == w.mounts <==>
      if GoesDown(w, c, plan) then AllReadWrite(w.mounts, Parts(c), plan) else RestoresAll(w.mounts, Parts(c), plan)
  {
    PartitionsAreSettled(w, c, plan);
    PartsAreDistinct(c);
    if GoesDown(w, c, plan) {
      assert !Mounted(w, c, plan).err;
      MountingChanges(Progress(w, [], false), Parts(c), plan);
    } else {
      SettledChanges(w.mounts, Parts(c), plan);
    }
  }

  /** The transaction started takes away as many bind mounts as it added. */
  ghost predicate Rebalanced(w: World, c: Config, plan: Plan)
  {
    Creates(w, c, plan) && !Start(w.store, plan.start).1 ==>
      Unmounts(plan) == 1 || (w.store.bound == 0 && Unmounts(plan) > 1)
  }

  /** Failure before the commit undone: the whole system is as before, up to the transaction's own
      record, exactly when the undos, one removal of the directory and the restoring of the link work, and
      the work directory is unmounted, only once if others are mounted below it. */
  lemma RollbackRestores(w: World, c: Config, plan: Plan)
    requires WellFormed(w.store) && !Upgrade(w, c, plan).committed
    ensures var out := Upgrade(w, c, plan);
      && out.err && !out.down
      && (out.w == w.(snap := out.w.snap) <==>
            && RestoresAll(w.mounts, Parts(c), plan) && !Strands(w, c, plan) && !LosesLink(w, c, plan)
            && Rebalanced(w, c, plan))
  {
    RollbackIsExact(w, c, plan);
    PartitionsAreRestored(w, c, plan);
    CommitsExactly(w, c, plan);
    UpgradeEffect(w, c, plan);
  }

  // ---- When no undo fails ----

  /** Probing works and undoing a mount works; mounting itself may fail. */
  ghost predicate Honest(plan: Plan)
  {
    forall p :: Mounts.Probe !in plan.mount(p) && Mounts.FindMnt !in plan.mount(p) && plan.undo(p) == {}
  }

  lemma PushUndone(jobs: seq<Job<World>>, states: seq<World>, job: Job<World>, w: World)
    requires UndoneAlong(jobs, states) && job.run(w) == (states[|jobs|], false)
    ensures UndoneAlong(jobs + [job], states + [w])
  {
  }

  /** The worlds between the mounts, with everything but the mounts taken from `w`: each job undoes
      its mount along them. */
  lemma {:induction false} MountsUndone(at: Progress, parts: seq<Part>, plan: Plan, w: World, states: seq<World>)
    returns (all: seq<World>)
    requires Honest(plan) && UndoneAlong(at.jobs, states) && states[|at.jobs|] == w.(mounts := at.w.mounts)
    ensures var r := MountAll(at, parts, plan);
      UndoneAlong(r.jobs, all) && all[0] == states[0] && all[|r.jobs|] == w.(mounts := r.w.mounts)
    decreases parts
  {
    all := states;
    if parts != [] && !at.err {
      var p := parts[0];
      var next := MountOne(at, p, plan);
      if !next.err {
        var undo, mounted := Mounts.MountRW(At(at.w.mounts, p), plan.mount(p)).1, w.(mounts := next.w.mounts);
        UndoRuns(at, p, plan, w);
        PushUndone(at.jobs, states, UndoJob(p, undo, plan.undo(p)), mounted);
        all := MountsUndone(next, parts[1..], plan, w, states + [mounted]);
      }
    }
  }

  /** Running the job pushed for one partition takes its mount point back. */
  lemma UndoRuns(at: Progress, p: Part, plan: Plan, w: World)
    requires Honest(plan) && !MountOne(at, p, plan).err
    ensures var undo := Mounts.MountRW(At(at.w.mounts, p), plan.mount(p)).1;
      UndoJob(p, undo, plan.undo(p)).run(w.(mounts := MountOne(at, p, plan).w.mounts))
        == (w.(mounts := at.w.mounts), false)
  {
    var before := At(at.w.mounts, p);
    var after := Mounts.MountRW(before, plan.mount(p)).0;
    assert plan.undo(p) == {};
    Mounts.HonestRoundTrip(before, plan.mount(p));
    PutPut(at.w.mounts, p, p, after, before);
  }

  lemma {:induction false} MountStackAlways(jobs: seq<Job<World>>)
    requires MountStack(jobs)
    ensures forall i :: 0 <= i < |jobs| ==> jobs[i].kind == Always
  {
    if jobs != [] {
      var n := |jobs| - 1;
      MountStackAlways(jobs[..n]);
      assert forall i :: 0 <= i < n ==> jobs[i] == jobs[..n][i];
    }
  }

  /** Then the stack takes the partitions back and adds no error of its own. */
  lemma MountJobsUndo(w: World, c: Config, plan: Plan, w': World, err: bool)
    requires Honest(plan) && w'.mounts == Mounted(w, c, plan).w.mounts
    ensures RunJobs(Mounted(w, c, plan).jobs, w', err) == (w'.(mounts := w.mounts), err)
  {
    var at, jobs := Progress(w, [], false), Mounted(w, c, plan).jobs;
    var states := MountsUndone(at, Parts(c), plan, w', [w'.(mounts := w.mounts)]);
    MountingKeepsRest(at, Parts(c), plan);
    MountStackAlways(jobs);
    CleanupUndoes(jobs, states, err);
  }

  // ---- Past the commit ----

  /** The store right after the link switch. */
  function Switched(s: Store): Store
  {
    var id := NextId(s.dirs);
    s.(dirs := s.dirs + {id}, images := s.images + {id}, link := To(id))
  }

  /** The store when CloseTransaction returns without error. */
  ghost function Committed(s: Store, c: Config, f: CloseFaults): Store
    requires ActiveId(s) >= 0
  {
    SetBootloader(Retain(Switched(s), c.booted, ActiveId(s), c.maxSnaps, f.retain, f.drop), f.grub)
  }

  lemma CommitSwitches(s: Store, start: set<Step>, faults: set<Step>)
    requires !Start(s, start).1 && !Commit(Start(s, start).0, Snapshot(NextId(s.dirs), true), ActiveId(s), faults).1
    ensures Commit(Start(s, start).0, Snapshot(NextId(s.dirs), true), ActiveId(s), faults).0 == Switched(s)
  {
  }

  /** The effect of a run past its commit: the transaction is closed; if a later step fails the clean-up
      stack still removes the directory of the snapshot just committed, and if the machine goes down before
      that state.yaml is not written. */
  ghost predicate Closed(w: World, c: Config, plan: Plan, e: Effect)
  {
    && ActiveId(w.store) >= 0
    && var id, s := NextId(w.store.dirs), Committed(w.store, c, plan.close);
    && e.failed == FailsAfterCommit(c, plan)
    && if e.failed then
         && e.entries == w.entries
         && e.store == if RemoveSnapDir in plan.abort then s else WithoutSnapshot(s, id)
       else
         && e.store == s
         && e.entries == if PowersDown(c, plan) then w.entries else Updated(w.entries, plan.visit, id, s.dirs)
  }

  lemma CommittedEffect(w: World, c: Config, plan: Plan)
    requires EffectOf(w, c, plan).committed
    ensures Closed(w, c, plan, EffectOf(w, c, plan))
  {
    var s, snap := Start(w.store, plan.start).0, Snapshot(NextId(w.store.dirs), true);
    if !Close(s, snap, c.booted, ActiveId(w.store), c.maxSnaps, plan.close).1 {
      CloseCommits(w.store, plan.start, c, plan.close);
    }
  }

  lemma CloseCommits(s: Store, start: set<Step>, c: Config, f: CloseFaults)
    requires !Start(s, start).1 &&
      !Close(Start(s, start).0, Snapshot(NextId(s.dirs), true), c.booted, ActiveId(s), c.maxSnaps, f).1
    ensures Close(Start(s, start).0, Snapshot(NextId(s.dirs), true), c.booted, ActiveId(s), c.maxSnaps, f).0
      == Committed(s, c, f)
  {
    CommitSwitches(s, start, f.steps);
  }

  /** The state.yaml of a healthy system: entries only for snapshots on disk, one of them active. */
  ghost predicate EntriesMatch(e: Entries, dirs: set<nat>, active: nat)
  {
    active in e && e.Keys <= dirs && forall k :: k in e ==> (e[k] <==> k == active)
  }

  /** Snapshots on disk are well formed and the booted ones are all there. */
  ghost predicate Sound(s: Store, booted: set<nat>)
  {
    WellFormed(s) && booted <= s.images
  }

  /** The link leads to a complete image, the newest snapshot on disk, and state.yaml agrees. */
  ghost predicate Consistent(w: World, booted: set<nat>)
  {
    && Sound(w.store, booted)
    && w.store.link.To? && w.store.link.id in w.store.images
    && (forall d :: d in w.store.dirs ==> d <= w.store.link.id)
    && EntriesMatch(w.entries, w.store.dirs, w.store.link.id)
  }

  predicate Active(k: nat, e: Entries)
  {
    k in e && e[k]
  }

  predicate LastActiveAt(i: nat, e: Entries, visit: seq<nat>)
  {
    i < |visit| && Active(visit[i], e) && forall j :: i < j < |visit| ==> !Active(visit[j], e)
  }

  /** `k` is the active entry visited last. */
  ghost predicate IsLastActive(k: nat, e: Entries, visit: seq<nat>)
  {
    exists i: nat :: LastActiveAt(i, e, visit) && visit[i] == k
  }

  lemma {:induction false} LastActiveIs(e: Entries, visit: seq<nat>)
    ensures forall i: nat :: LastActiveAt(i, e, visit) ==> visit[i] == LastActive(e, visit)
    ensures IsLastActive(LastActive(e, visit), e, visit)
         || (LastActive(e, visit) == 0 && forall i :: 0 <= i < |visit| ==> !Active(visit[i], e))
  {
    if visit != [] {
      var n := |visit| - 1;
      var rest := visit[..n];
      if Active(visit[n], e) {
        assert LastActiveAt(n, e, visit);
      } else {
        LastActiveIs(e, rest);
        forall i: nat ensures LastActiveAt(i, e, visit) <==> LastActiveAt(i, e, rest) {
          assert forall j :: i < j < |visit| ==> j == n || visit[j] == rest[j];
        }
      }
    }
  }

  /** What state.yaml says after an upgrade to `id`: besides the new entry all those whose snapshots are on
      disk, each with its mark except that the active one visited last is no longer active. */
  ghost predicate Rewritten(e': Entries, e: Entries, visit: seq<nat>, id: nat, dirs: set<nat>)
  {
    && (forall k :: k in e' <==> k == id || (k in e && k in dirs))
    && (forall k :: k in e' ==> (e'[k] <==> (k == id || Active(k, e)) && !IsLastActive(k, e, visit)))
  }

  lemma UpdatedExactly(e: Entries, visit: seq<nat>, id: nat, dirs: set<nat>)
    requires Lists(visit, e.Keys) && id in dirs && id != 0
    ensures Rewritten(Updated(e, visit, id, dirs), e, visit, id, dirs)
  {
    LastActiveIs(e, visit);
    assert forall k :: k in e ==> k in visit;
  }

  lemma {:induction false} OnlyActive(e: Entries, visit: seq<nat>, active: nat)
    requires forall k :: k in e ==> (e[k] <==> k == active)
    ensures LastActive(e, visit) == if active in e && active in visit then active else 0
  {
    if visit != [] {
      var n := |visit| - 1;
      assert visit == visit[..n] + [visit[n]];
      OnlyActive(e, visit[..n], active);
    }
  }

  /** Recording an upgrade: the new snapshot becomes the only active entry and entries of
      deleted snapshots go, in whatever order the map is visited. */
  lemma UpdatedMatches(e: Entries, visit: seq<nat>, active: nat, id: nat, before: set<nat>, dirs: set<nat>)
    requires EntriesMatch(e, before, active) && Lists(visit, e.Keys)
    requires id !in before && id in dirs
    ensures EntriesMatch(Updated(e, visit, id, dirs), dirs, id)
  {
    OnlyActive(e, visit, active);
  }

  /** A transaction closed without error: the new image is there, the booted ones still are, and
      the link is the new one or has been lost to retention. */
  lemma CommittedIsSound(s: Store, c: Config, f: CloseFaults)
    requires Sound(s, c.booted) && ActiveId(s) >= 0
    ensures var r, id := Committed(s, c, f), NextId(s.dirs);
      && Sound(r, c.booted) && id in r.images && r.dirs <= s.dirs + {id}
      && (r.link == To(id) || r.link == NoLink)
  {
    var id, s' := NextId(s.dirs), Switched(s);
    assert JustSwitched(s', id);
    RetentionIsSafe(s', id, c.booted, ActiveId(s), c.maxSnaps, f.retain, f.drop);
    BootloaderKeepsRest(Retain(s', c.booted, ActiveId(s), c.maxSnaps, f.retain, f.drop), f.grub);
  }

  lemma BootloaderKeepsRest(s: Store, faults: set<Step>)
    ensures SetBootloader(s, faults) == s.(grub := SetBootloader(s, faults).grub)
  {
  }

  lemma SwitchedIsJust(s: Store)
    requires WellFormed(s)
    ensures JustSwitched(Switched(s), NextId(s.dirs)) && Switched(s).dirs - {NextId(s.dirs)} == s.dirs
  {
  }

  /** Retention deletes the snapshot that is active in `s`, and the new link with it. */
  ghost predicate RetiresActive(s: Store, c: Config, f: CloseFaults)
  {
    ActiveId(s) >= 0 && Retires(s.dirs, c.booted, ActiveId(s), c.maxSnaps, f.retain, f.drop(ActiveId(s)))
  }

  lemma LinkOfCommitted(s: Store, c: Config, f: CloseFaults)
    requires WellFormed(s) && ActiveId(s) >= 0
    ensures Committed(s, c, f).link == if RetiresActive(s, c, f) then NoLink else To(NextId(s.dirs))
  {
    SwitchedIsJust(s);
    BootloaderKeepsRest(Retain(Switched(s), c.booted, ActiveId(s), c.maxSnaps, f.retain, f.drop), f.grub);
    RetentionKeepsLink(Switched(s), NextId(s.dirs), c.booted, ActiveId(s), c.maxSnaps, f.retain, f.drop);
  }

  /** With room for two and the old active snapshot the newest, or none, retention spares it. */
  lemma NewestIsSpared(s: Store, c: Config, f: CloseFaults)
    requires c.maxSnaps >= 2 && (ActiveId(s) in s.dirs ==> forall d :: d in s.dirs ==> d <= ActiveId(s))
    ensures !RetiresActive(s, c, f)
  {
    if ActiveId(s) in s.dirs { assert NewerSet(s.dirs, ActiveId(s)) == {}; }
  }

  /** The link leads to a complete image, and state.yaml has an entry for it as the only active one and
      entries only for snapshots on disk. */
  ghost predicate Recorded(w: World)
  {
    && w.store.link.To? && w.store.link.id in w.store.images
    && EntriesMatch(w.entries, w.store.dirs, w.store.link.id)
  }

  /** Past the commit state.yaml is right exactly if the run gets to write it and the link is still there. */
  lemma ClosedRecords(w: World, c: Config, plan: Plan, e: Effect)
    requires Sound(w.store, c.booted) && Recorded(w) && Lists(plan.visit, w.entries.Keys) && Closed(w, c, plan, e)
    ensures Recorded(w.(store := e.store, entries := e.entries)) <==>
      !FailsAfterCommit(c, plan) && !PowersDown(c, plan) && !RetiresActive(w.store, c, plan.close)
  {
    var id := NextId(w.store.dirs);
    CommittedIsSound(w.store, c, plan.close);
    LinkOfCommitted(w.store, c, plan.close);
    assert id !in w.entries;
    if !e.failed && !PowersDown(c, plan) {
      UpdatedMatches(w.entries, plan.visit, ActiveId(w.store), id, w.store.dirs, e.store.dirs);
    }
  }

  /** A committed upgrade of a healthy system leaves it healthy exactly if it runs to its end without a
      later failure. With room for two the link is then the new one, whichever deletions fail and though
      retention works with the old active ID. */
  lemma CommitKeepsConsistent(w: World, c: Config, plan: Plan)
    requires Consistent(w, c.booted) && c.maxSnaps >= 2 && Lists(plan.visit, w.entries.Keys)
    requires Upgrade(w, c, plan).committed
    ensures var out := Upgrade(w, c, plan);
      && (Consistent(out.w, c.booted) <==> !FailsAfterCommit(c, plan) && !PowersDown(c, plan))
      && out.w.store.link == To(NextId(w.store.dirs))
  {
    UpgradeEffect(w, c, plan);
    CommittedEffect(w, c, plan);
    NewestIsSpared(w.store, c, plan.close);
    LinkOfCommitted(w.store, c, plan.close);
    ClosedConsistent(w, c, plan, EffectOf(w, c, plan));
  }

  lemma ClosedConsistent(w: World, c: Config, plan: Plan, e: Effect)
    requires Consistent(w, c.booted) && Lists(plan.visit, w.entries.Keys) && Closed(w, c, plan, e)
    ensures Consistent(w.(store := e.store, entries := e.entries), c.booted) <==>
      !FailsAfterCommit(c, plan) && !PowersDown(c, plan) && !RetiresActive(w.store, c, plan.close)
  {
    ClosedRecords(w, c, plan, e);
    ClosedKeepsSound(w, c, plan, e);
    CommittedIsSound(w.store, c, plan.close);
    LinkOfCommitted(w.store, c, plan.close);
  }

  lemma ClosedKeepsSound(w: World, c: Config, plan: Plan, e: Effect)
    requires Sound(w.store, c.booted) && Closed(w, c, plan, e)
    ensures Sound(e.store, c.booted)
  {
    CommittedIsSound(w.store, c, plan.close);
    assert NextId(w.store.dirs) !in c.booted;
  }

  lemma RolledBackKeepsSound(w: World, booted: set<nat>, e: Effect, stranded: bool, lost: bool, bound: nat)
    requires Sound(w.store, booted) && RolledBack(w, e, NextId(w.store.dirs), stranded, lost, bound)
    ensures Sound(e.store, booted)
  {
    var id := NextId(w.store.dirs);
    assert id !in booted;
    assert e.store.images <= w.store.images + {id};
  }

  /** No run removes a booted snapshot or its image, whatever fails and whenever. */
  lemma BootedIsNeverRemoved(w: World, c: Config, plan: Plan)
    requires Sound(w.store, c.booted)
    ensures Sound(Upgrade(w, c, plan).w.store, c.booted)
  {
    UpgradeEffect(w, c, plan);
    var e := EffectOf(w, c, plan);
    if e.committed {
      CommittedEffect(w, c, plan);
      ClosedKeepsSound(w, c, plan, e);
    } else {
      EffectRollsBack(w, c, plan);
      RolledBackKeepsSound(w, c.booted, e, Strands(w, c, plan), LosesLink(w, c, plan), LeftBound(w, c, plan));
    }
  }
}

/** What one run does to snapshots and state.yaml once its clean-up stack is worked out. */
module UpgradeTheorems {
  import opened SnapshotIds
  import opened LoopDeviceSpec
  import opened CleanStacks
  import opened UpgradeSpec
  import Mounts

  // ---- The clean-up stack of a run ----

  ghost predicate OnlyMounts(job: Job<World>)
  {
    job.kind == Always
    && forall w :: job.run(w).0 == w.(mounts := job.run(w).0.mounts)
  }

  /** A stack of such jobs. */
  ghost predicate MountStack(jobs: seq<Job<World>>)
  {
    jobs != [] ==> OnlyMounts(jobs[|jobs| - 1]) && MountStack(jobs[..|jobs| - 1])
  }

  lemma PushMount(jobs: seq<Job<World>>, job: Job<World>)
    requires MountStack(jobs) && OnlyMounts(job)
    ensures MountStack(jobs + [job])
  {
    assert (jobs + [job])[..|jobs|] == jobs;
  }

  lemma UndoOnlyMounts(p: Part, undo: Mounts.Undo, faults: set<Mounts.Step>)
    ensures OnlyMounts(UndoJob(p, undo, faults))
  {
  }

  lemma {:induction false} MountingKeepsRest(at: Progress, parts: seq<Part>, plan: Plan)
    requires MountStack(at.jobs)
    ensures var r := MountAll(at, parts, plan); r.w == at.w.(mounts := r.w.mounts) && MountStack(r.jobs)
    decreases parts
  {
    if parts != [] && !at.err {
      var p := parts[0];
      var undo := Mounts.MountRW(At(at.w.mounts, p), plan.mount(p)).1;
      UndoOnlyMounts(p, undo, plan.undo(p));
      PushMount(at.jobs, UndoJob(p, undo, plan.undo(p)));
      MountingKeepsRest(MountOne(at, p, plan), parts[1..], plan);
    }
  }

  lemma PopKeepsRest(job: Job<World>, w: World, err: bool)
    requires OnlyMounts(job)
    ensures var (w', err') := Pop1(job, (w, err)); w' == w.(mounts := w'.mounts) && (err ==> err')
  {
  }

  lemma {:induction false} MountJobsKeepRest(jobs: seq<Job<World>>, w: World, err: bool)
    requires MountStack(jobs)
    ensures var (w', err') := RunJobs(jobs, w, err); w' == w.(mounts := w'.mounts) && (err ==> err')
  {
    if jobs != [] {
      var n := |jobs| - 1;
      var rest, next := jobs[..n], Pop1(jobs[n], (w, err));
      PopKeepsRest(jobs[n], w, err);
      MountJobsKeepRest(rest, next.0, next.1);
      assert RunJobs(jobs, w, err) == RunJobs(rest, next.0, next.1);
    }
  }

  /** What a run does to snapshots and state.yaml, with the clean-up stack worked out;
      `failed` tells whether a step failed, other than the final clean-up and power action. A run cut
      short by the nested power action has not failed, and its stack is never run. */
  datatype Effect = Effect(store: Store, entries: Entries, committed: bool, failed: bool)

  /** The run gets as far as StartTransaction. */
  ghost predicate Begins(w: World, c: Config, plan: Plan)
  {
    !Mounted(w, c, plan).err && InitSnapshotter !in plan.fails && BeforeHook !in plan.fails
  }

  ghost function EffectOf(w: World, c: Config, plan: Plan): (e: Effect)
    ensures !e.committed ==> e.failed
  {
    if !Begins(w, c, plan) then Effect(w.store, w.entries, false, true) else
    var (s, err) := Start(w.store, plan.start);
    if err then Effect(s, w.entries, false, true) else
    TransactionEffect(w.(store := s, snap := Snapshot(NextId(w.store.dirs), true)), ActiveId(w.store), c, plan)
  }

  /** Popping a transaction's stack aborts it when a step failed and leaves it alone otherwise,
      even if unmounting fails later on. */
  lemma StackAborts(jobs: seq<Job<World>>, faults: set<Step>, w: World, err: bool)
    requires MountStack(jobs)
    ensures var (w', err') := RunJobs(jobs + [AbortJob(faults)], w, err);
      && w' == w.(mounts := w'.mounts, store := if err then Abort(w.store, w.snap, faults).0 else w.store)
      && (err ==> err')
  {
    RunTop(jobs, AbortJob(faults), w, err);
    var (w1, e1) := Pop1(AbortJob(faults), (w, err));
    MountJobsKeepRest(jobs, w1, e1);
  }

  /** The part of a run after StartTransaction, with its stack worked out. */
  ghost function TransactionEffect(w: World, stale: nat, c: Config, plan: Plan): (e: Effect)
    ensures !e.committed ==> e.failed
  {
    if Deploy in plan.fails || Refine in plan.fails then
      Effect(Abort(w.store, w.snap, plan.abort).0, w.entries, false, true) else
    var (s', err') := Close(w.store, w.snap, c.booted, stale, c.maxSnaps, plan.close);
    if err' then Effect(Abort(s', w.snap, plan.abort).0, w.entries, false, true)
    else if PowersDown(c, plan) then Effect(s', w.entries, true, false)
    else if FailsAfterCommit(c, plan) then
      Effect(Abort(s', w.snap.(inProgress := false), plan.abort).0, w.entries, true, true)
    else Effect(s', Updated(w.entries, plan.visit, w.snap.id, s'.dirs), true, false)
  }

  /** The outcome has that effect; if it was to end with a power action, the machine is down exactly if
      there was no error. */
  ghost predicate Has(out: Outcome, e: Effect, c: Config)
  {
    && out.w.store == e.store && out.w.entries == e.entries && out.committed == e.committed
    && (e.failed ==> out.err) && (out.down <==> c.power && !out.err)
  }

  lemma TransactionHasEffect(jobs: seq<Job<World>>, w: World, stale: nat, c: Config, plan: Plan)
    requires MountStack(jobs)
    ensures Has(Transaction(Progress(w, jobs + [AbortJob(plan.abort)], false), stale, c, plan),
                TransactionEffect(w, stale, c, plan), c)
  {
    if Deploy in plan.fails || Refine in plan.fails {
      StackAborts(jobs, plan.abort, w, true);
    } else {
      var (s', err') := Close(w.store, w.snap, c.booted, stale, c.maxSnaps, plan.close);
      if err' {
        StackAborts(jobs, plan.abort, w.(store := s'), true);
      } else {
        var closed := w.(store := s', snap := w.snap.(inProgress := false));
        if FailsAfterCommit(c, plan) {
          StackAborts(jobs, plan.abort, closed, true);
        } else if !PowersDown(c, plan) {
          var entries := Updated(w.entries, plan.visit, w.snap.id, s'.dirs);
          StackAborts(jobs, plan.abort, closed.(entries := entries), false);
        }
      }
    }
  }

  lemma EarlyEffect(w: World, c: Config, plan: Plan)
    requires !Begins(w, c, plan) || Start(w.store, plan.start).1
    ensures Has(Upgrade(w, c, plan), EffectOf(w, c, plan), c)
  {
    var m := Mounted(w, c, plan);
    MountingKeepsRest(Progress(w, [], false), Parts(c), plan);
    if Begins(w, c, plan) {
      MountJobsKeepRest(m.jobs, m.w.(store := Start(w.store, plan.start).0), true);
    } else {
      MountJobsKeepRest(m.jobs, m.w, true);
    }
  }

  /** A run has exactly the effect written down in EffectOf, whatever its stack does meanwhile. */
  lemma UpgradeEffect(w: World, c: Config, plan: Plan)
    ensures Has(Upgrade(w, c, plan), EffectOf(w, c, plan), c)
  {
    if !Begins(w, c, plan) || Start(w.store, plan.start).1 {
      EarlyEffect(w, c, plan);
    } else {
      var m, s := Mounted(w, c, plan), Start(w.store, plan.start).0;
      MountingKeepsRest(Progress(w, [], false), Parts(c), plan);
      TransactionHasEffect(m.jobs,
        m.w.(store := s, snap := Snapshot(NextId(w.store.dirs), true)),
        ActiveId(w.store), c, plan);
    }
  }
}

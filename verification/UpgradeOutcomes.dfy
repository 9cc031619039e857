/** What a run comes to, call by call: the partitions it mounts, when it reports an error, which snapshots
    and entries it keeps and what it tells the bootloader. */
module UpgradeOutcomes {
  import opened SnapshotIds
  import opened LoopDeviceSpec
  import opened CleanStacks
  import opened UpgradeSpec
  import opened UpgradeTheorems
  import opened UpgradeSafety
  import Mounts

  // ---- The partitions ----

  /** An upgrade writes to the boot and the persistent partition, and to the recovery partition or, running
      from there, to the state partition. */
  predicate Wanted(c: Config, p: Part)
  {
    match p
    case Boot => true
    case Recovery => !c.recoveryMode
    case State => c.recoveryMode
    case Persistent => c.persistent
  }

  /** They are mounted in this order. */
  function Rank(p: Part): nat
  {
    match p
    case Boot => 0
    case Recovery => 1
    case State => 1
    case Persistent => 2
  }

  /** Everything that is wanted before `p`, and `p` itself, can be mounted. */
  ghost predicate Reached(m: Points, c: Config, plan: Plan, p: Part)
  {
    forall q :: Wanted(c, q) && Rank(q) <= Rank(p) ==> !CannotMount(m, q, plan)
  }

  /** The first `n` can be mounted. */
  predicate CanMount(m: Points, parts: seq<Part>, n: nat, plan: Plan)
    requires n <= |parts|
  {
    forall j :: 0 <= j < n ==> !CannotMount(m, parts[j], plan)
  }

  lemma MountOneElsewhere(at: Progress, p: Part, plan: Plan, q: Part)
    requires q != p
    ensures At(MountOne(at, p, plan).w.mounts, q) == At(at.w.mounts, q)
  {
    PutPut(at.w.mounts, p, q, Mounts.MountRW(At(at.w.mounts, p), plan.mount(p)).0, []);
  }

  lemma CanMountNext(at: Progress, parts: seq<Part>, n: nat, plan: Plan)
    requires Distinct(parts) && 0 < n <= |parts|
    ensures CanMount(at.w.mounts, parts, n, plan) <==>
      && !CannotMount(at.w.mounts, parts[0], plan)
      && CanMount(MountOne(at, parts[0], plan).w.mounts, parts[1..], n - 1, plan)
  {
    forall j | 0 < j < n
      ensures CannotMount(at.w.mounts, parts[j], plan)
        <==> CannotMount(MountOne(at, parts[0], plan).w.mounts, parts[1..][j - 1], plan)
    {
      MountOneElsewhere(at, parts[0], plan, parts[j]);
    }
  }

  lemma {:induction false} MountAllAt(at: Progress, parts: seq<Part>, plan: Plan, i: nat)
    requires !at.err && Distinct(parts) && i < |parts|
    ensures At(MountAll(at, parts, plan).w.mounts, parts[i])
      == if CanMount(at.w.mounts, parts, i + 1, plan)
         then Mounts.MountRW(At(at.w.mounts, parts[i]), plan.mount(parts[i])).0 else At(at.w.mounts, parts[i])
    decreases parts
  {
    var p, rest := parts[0], parts[1..];
    var next := MountOne(at, p, plan);
    CanMountNext(at, parts, i + 1, plan);
    assert MountAll(at, parts, plan) == MountAll(next, rest, plan);
    if next.err {
      assert MountAll(next, rest, plan) == next;
    } else if i == 0 {
      assert p !in rest;
      MountAllElsewhere(next, rest, plan, p);
      PutPut(at.w.mounts, p, p, Mounts.MountRW(At(at.w.mounts, p), plan.mount(p)).0, []);
    } else {
      MountAllAt(next, rest, plan, i - 1);
      MountOneElsewhere(at, p, plan, parts[i]);
    }
  }

  lemma {:induction false} MountAllElsewhere(at: Progress, parts: seq<Part>, plan: Plan, q: Part)
    requires q !in parts
    ensures At(MountAll(at, parts, plan).w.mounts, q) == At(at.w.mounts, q)
    decreases parts
  {
    if parts != [] && !at.err {
      PutPut(at.w.mounts, parts[0], q, Mounts.MountRW(At(at.w.mounts, parts[0]), plan.mount(parts[0])).0, []);
      MountAllElsewhere(MountOne(at, parts[0], plan), parts[1..], plan, q);
    }
  }

  lemma {:induction false} MountAllError(at: Progress, parts: seq<Part>, plan: Plan)
    requires !at.err && Distinct(parts)
    ensures MountAll(at, parts, plan).err <==> !CanMount(at.w.mounts, parts, |parts|, plan)
    decreases parts
  {
    if parts != [] {
      var next := MountOne(at, parts[0], plan);
      CanMountNext(at, parts, |parts|, plan);
      if next.err {
        assert MountAll(at, parts, plan) == next;
      } else {
        MountAllError(next, parts[1..], plan);
      }
    }
  }

  lemma PartsAreWanted(c: Config)
    ensures forall p :: p in Parts(c) <==> Wanted(c, p)
    ensures forall i, j :: 0 <= i < |Parts(c)| && 0 <= j < |Parts(c)| ==>
      (Rank(Parts(c)[i]) <= Rank(Parts(c)[j]) <==> i <= j)
  {
    var parts := Parts(c);
    assert parts[0] in parts && parts[1] in parts && (c.persistent ==> parts[2] in parts);
  }

  /** What is mounted for `p` when all partitions wanted have been mounted, or the first that cannot be
      has been met. */
  ghost function PointAfter(m: Points, c: Config, plan: Plan, p: Part): Mounts.Point
  {
    if Wanted(c, p) && Reached(m, c, plan, p) then Mounts.MountRW(At(m, p), plan.mount(p)).0 else At(m, p)
  }

  lemma MountedAt(w: World, c: Config, plan: Plan, p: Part)
    ensures At(Mounted(w, c, plan).w.mounts, p) == PointAfter(w.mounts, c, plan, p)
  {
    var at, parts := Progress(w, [], false), Parts(c);
    PartsAreDistinct(c);
    PartsAreWanted(c);
    if Wanted(c, p) {
      var i :| 0 <= i < |parts| && parts[i] == p;
      MountAllAt(at, parts, plan, i);
      ReachedAt(w.mounts, c, plan, i);
    } else {
      MountAllElsewhere(at, parts, plan, p);
    }
  }

  lemma ReachedAt(m: Points, c: Config, plan: Plan, i: nat)
    requires i < |Parts(c)|
    ensures CanMount(m, Parts(c), i + 1, plan) <==> Reached(m, c, plan, Parts(c)[i])
  {
    var parts := Parts(c);
    PartsAreWanted(c);
    forall j | 0 <= j <= i ensures Wanted(c, parts[j]) && Rank(parts[j]) <= Rank(parts[i]) {
      assert parts[j] in parts;
    }
    forall q | Wanted(c, q) && Rank(q) <= Rank(parts[i]) ensures exists j :: 0 <= j <= i && parts[j] == q {
      assert q in parts;
    }
  }

  /** What mounting does to every partition: those wanted are mounted read-write, in order and up to the
      first that cannot be; the others are not touched. It fails exactly if one cannot be. */
  lemma MountedExactly(w: World, c: Config, plan: Plan)
    ensures Mounted(w, c, plan).err <==> exists p :: Wanted(c, p) && CannotMount(w.mounts, p, plan)
    ensures forall p :: At(Mounted(w, c, plan).w.mounts, p) == PointAfter(w.mounts, c, plan, p)
  {
    var parts := Parts(c);
    PartsAreDistinct(c);
    PartsAreWanted(c);
    MountAllError(Progress(w, [], false), parts, plan);
    forall i | 0 <= i < |parts| ensures Wanted(c, parts[i]) {
      assert parts[i] in parts;
    }
    forall p ensures At(Mounted(w, c, plan).w.mounts, p) == PointAfter(w.mounts, c, plan, p) {
      MountedAt(w, c, plan, p);
    }
  }

  /** Once they are mounted every partition wanted is visible read-write. */
  lemma MountedIsWritable(w: World, c: Config, plan: Plan)
    requires !Mounted(w, c, plan).err
    ensures forall p :: var m := At(Mounted(w, c, plan).w.mounts, p);
      if Wanted(c, p) then m != [] && Mounts.Top(m) == Mounts.Rw else m == At(w.mounts, p)
  {
    MountedExactly(w, c, plan);
  }

  // ---- state.yaml ----

  /** Past the commit and with nothing in the way state.yaml is rewritten; otherwise it stays. */
  lemma EntriesExactly(w: World, c: Config, plan: Plan)
    requires Sound(w.store, c.booted) && Lists(plan.visit, w.entries.Keys)
    ensures var out := Upgrade(w, c, plan);
      if Commits(w, c, plan) && !FailsAfterCommit(c, plan) && !PowersDown(c, plan)
      then Rewritten(out.w.entries, w.entries, plan.visit, NextId(w.store.dirs), out.w.store.dirs)
      else out.w.entries == w.entries
  {
    UpgradeEffect(w, c, plan);
    EffectCommits(w, c, plan);
    if Commits(w, c, plan) {
      CommittedEffect(w, c, plan);
      CommittedIsSound(w.store, c, plan.close);
      UpdatedExactly(w.entries, plan.visit, NextId(w.store.dirs), Committed(w.store, c, plan.close).dirs);
    } else {
      EffectRollsBack(w, c, plan);
    }
  }

  // ---- The snapshots and the bootloader ----

  /** Retention removes the snapshot `d` of `s`. */
  ghost predicate Removes(s: Store, c: Config, f: CloseFaults, d: nat)
  {
    && d !in c.booted && Newer(s.dirs, d) >= c.maxSnaps - 1 && f.retain !! {ListDir, ReadLink}
    && f.drop(d) !! {Losetup, ListDir, RemoveSnapDir} && (d == ActiveId(s) ==> Unlink !in f.drop(d))
  }

  lemma CommittedKeeps(s: Store, c: Config, f: CloseFaults)
    requires Sound(s, c.booted) && ActiveId(s) >= 0
    ensures var r, id := Committed(s, c, f), NextId(s.dirs);
      && (forall d :: d in s.dirs ==> (d in r.dirs <==> !Removes(s, c, f, d)))
      && id in r.dirs && r.dirs <= s.dirs + {id} && r.images == (s.images + {id}) * r.dirs && r.bound == s.bound
  {
    var s' := Switched(s);
    SwitchedIsJust(s);
    RetentionRemoves(s', NextId(s.dirs), c.booted, ActiveId(s), c.maxSnaps, f.retain, f.drop);
    BootloaderKeepsRest(Retain(s', c.booted, ActiveId(s), c.maxSnaps, f.retain, f.drop), f.grub);
  }

  /** Which snapshots there are after a committed run, whatever failed in it: those retention does not
      remove, and the new one unless a later failure had it removed again. */
  ghost predicate Keeps(w: World, c: Config, plan: Plan, s: Store)
  {
    var id := NextId(w.store.dirs);
    && (forall d :: d in w.store.dirs ==> (d in s.dirs <==> !Removes(w.store, c, plan.close, d)))
    && (id in s.dirs <==> !(FailsAfterCommit(c, plan) && RemoveSnapDir !in plan.abort))
    && s.dirs <= w.store.dirs + {id} && s.images == (w.store.images + {id}) * s.dirs && s.bound == w.store.bound
  }

  lemma UpgradeKeeps(w: World, c: Config, plan: Plan)
    requires Sound(w.store, c.booted) && Commits(w, c, plan)
    ensures Keeps(w, c, plan, Upgrade(w, c, plan).w.store)
  {
    UpgradeEffect(w, c, plan);
    EffectCommits(w, c, plan);
    CommittedEffect(w, c, plan);
    ClosedKeeps(w, c, plan, EffectOf(w, c, plan));
  }

  lemma ClosedKeeps(w: World, c: Config, plan: Plan, e: Effect)
    requires Sound(w.store, c.booted) && Closed(w, c, plan, e)
    ensures Keeps(w, c, plan, e.store)
  {
    CommittedKeeps(w.store, c, plan.close);
  }

  /** A directory left behind by a run that did not commit has a complete image exactly if the run got as
      far as making it. */
  lemma StrandedImage(w: World, c: Config, plan: Plan)
    requires WellFormed(w.store) && Strands(w, c, plan) && !Commits(w, c, plan)
    ensures NextId(w.store.dirs) in Upgrade(w, c, plan).w.store.images <==>
      && !Start(w.store, plan.start).1 && Deploy !in plan.fails && Refine !in plan.fails
      && Unbind !in plan.close.steps && MakeImage !in plan.close.steps
  {
    UpgradeEffect(w, c, plan);
    EffectCommits(w, c, plan);
    StrandedByEffect(w, c, plan);
  }

  lemma StrandedByEffect(w: World, c: Config, plan: Plan)
    requires WellFormed(w.store) && Strands(w, c, plan) && !EffectOf(w, c, plan).committed
    ensures NextId(w.store.dirs) in EffectOf(w, c, plan).store.images <==>
      && !Start(w.store, plan.start).1 && Deploy !in plan.fails && Refine !in plan.fails
      && Unbind !in plan.close.steps && MakeImage !in plan.close.steps
  {
    var (s, err) := Start(w.store, plan.start);
    assert s.images == w.store.images && NextId(w.store.dirs) !in s.images;
    if !err && Deploy !in plan.fails && Refine !in plan.fails {
      var snap := Snapshot(NextId(w.store.dirs), true);
      var r := Close(s, snap, c.booted, ActiveId(w.store), c.maxSnaps, plan.close).0;
      FailedClose(s, snap, c.booted, ActiveId(w.store), c.maxSnaps, plan.close);
      AbortExactly(r, snap, plan.abort);
    }
  }

  lemma PassivesOf(s: Store, id: nat)
    requires WellFormed(s) && id in s.images && (s.link == NoLink || s.link == To(id))
    ensures ActiveId(s) >= 0 && Passives(s) == if s.link == NoLink then s.dirs else s.dirs - {id}
  {
  }

  lemma CommittedOffers(s: Store, c: Config, f: CloseFaults)
    requires Sound(s, c.booted) && ActiveId(s) >= 0
    ensures var r, id := Committed(s, c, f), NextId(s.dirs);
      if GrubWorks(f.grub)
      then Offers(r.grub, if RetiresActive(s, c, f) then r.dirs else r.dirs - {id}) else r.grub == s.grub
  {
    KeptIsSound(s, c, f);
    LinkOfCommitted(s, c, f);
    KeptOffers(Retain(Switched(s), c.booted, ActiveId(s), c.maxSnaps, f.retain, f.drop), NextId(s.dirs), f.grub);
  }

  lemma KeptOffers(s: Store, id: nat, faults: set<Step>)
    requires WellFormed(s) && id in s.images && (s.link == NoLink || s.link == To(id))
    ensures var r := SetBootloader(s, faults);
      && r.dirs == s.dirs && r.link == s.link
      && if GrubWorks(faults) then Offers(r.grub, if r.link == NoLink then r.dirs else r.dirs - {id})
         else r.grub == s.grub
  {
    PassivesOf(s, id);
    BootloaderListsPassives(s, faults);
  }

  /** What retention passes on to the bootloader update. */
  lemma KeptIsSound(s: Store, c: Config, f: CloseFaults)
    requires Sound(s, c.booted) && ActiveId(s) >= 0
    ensures var r, id := Retain(Switched(s), c.booted, ActiveId(s), c.maxSnaps, f.retain, f.drop), NextId(s.dirs);
      WellFormed(r) && id in r.images && (r.link == NoLink || r.link == To(id)) && r.grub == s.grub
  {
    SwitchedIsJust(s);
    RetentionIsSafe(Switched(s), NextId(s.dirs), c.booted, ActiveId(s), c.maxSnaps, f.retain, f.drop);
    RetentionRemoves(Switched(s), NextId(s.dirs), c.booted, ActiveId(s), c.maxSnaps, f.retain, f.drop);
  }

  lemma ClosedOffers(w: World, c: Config, plan: Plan, e: Effect)
    requires Sound(w.store, c.booted) && Closed(w, c, plan, e)
    ensures var s, id := e.store, NextId(w.store.dirs);
      if GrubWorks(plan.close.grub)
      then Offers(s.grub, if RetiresActive(w.store, c, plan.close) then s.dirs + {id} else s.dirs - {id})
      else s.grub == w.store.grub
  {
    var r, id := Committed(w.store, c, plan.close), NextId(w.store.dirs);
    CommittedOffers(w.store, c, plan.close);
    CommittedIsSound(w.store, c, plan.close);
    WithOrWithout(e.store.dirs, r.dirs, id);
    assert e.store.grub == r.grub;
  }

  lemma WithOrWithout(dirs: set<nat>, all: set<nat>, id: nat)
    requires id in all && (dirs == all || dirs == all - {id})
    ensures dirs + {id} == all && dirs - {id} == all - {id}
  {
  }

  /** What the bootloader knows after a run: the snapshots on disk but the active one, in order, if the run
      committed and the update worked, otherwise what it knew before. When retention has deleted the
      active snapshot with the link, the new one is among the passive ones, even if it was removed later. */
  lemma BootloaderExactly(w: World, c: Config, plan: Plan)
    requires Sound(w.store, c.booted)
    ensures var s, id := Upgrade(w, c, plan).w.store, NextId(w.store.dirs);
      if Commits(w, c, plan) && GrubWorks(plan.close.grub)
      then Offers(s.grub, if RetiresActive(w.store, c, plan.close) then s.dirs + {id} else s.dirs - {id})
      else s.grub == w.store.grub
  {
    UpgradeEffect(w, c, plan);
    EffectCommits(w, c, plan);
    if Commits(w, c, plan) {
      CommittedEffect(w, c, plan);
      ClosedOffers(w, c, plan, EffectOf(w, c, plan));
    } else {
      EffectRollsBack(w, c, plan);
    }
  }

  // ---- The error ----

  ghost predicate ErrorIs(jobs: seq<Job<World>>, from: Points, err: bool)
  {
    forall w: World :: w.mounts == from ==> RunJobs(jobs, w, false).1 == err
  }

  lemma StackError(w: World, c: Config, plan: Plan)
    ensures var m := Mounted(w, c, plan);
      ErrorIs(m.jobs + [AbortJob(plan.abort)], m.w.mounts, SomeUndoFails(w.mounts, Parts(c), plan))
  {
    var m := Mounted(w, c, plan);
    PartsAreDistinct(c);
    forall w': World | w'.mounts == m.w.mounts
      ensures RunJobs(m.jobs + [AbortJob(plan.abort)], w', false).1 == SomeUndoFails(w.mounts, Parts(c), plan)
    {
      RunTop(m.jobs, AbortJob(plan.abort), w', false);
      MountJobsSettle(Progress(w, [], false), Parts(c), plan, w', false);
    }
  }

  lemma ClosingError(at: Progress, c: Config, plan: Plan, undo: bool)
    requires !at.err && ErrorIs(at.jobs, at.w.mounts, undo) && !FailsAfterCommit(c, plan)
    ensures Closing(at, c, plan).err <==> !PowersDown(c, plan) && (undo || (c.power && Power in plan.fails))
  {
    var done := AfterCommit(at, c, plan);
    assert !done.err && done.w.mounts == at.w.mounts && done.jobs == at.jobs;
  }

  lemma TransactionError(at: Progress, stale: nat, c: Config, plan: Plan, undo: bool)
    requires !at.err && ErrorIs(at.jobs, at.w.mounts, undo) && !FailsAfterCommit(c, plan)
    requires Deploy !in plan.fails && Refine !in plan.fails
    requires !Close(at.w.store, at.w.snap, c.booted, stale, c.maxSnaps, plan.close).1
    ensures Transaction(at, stale, c, plan).err
      <==> !PowersDown(c, plan) && (undo || (c.power && Power in plan.fails))
  {
    var s := Close(at.w.store, at.w.snap, c.booted, stale, c.maxSnaps, plan.close).0;
    ClosingError(at.(w := at.w.(store := s, snap := at.w.snap.(inProgress := false))), c, plan, undo);
  }

  lemma ErrorOfRun(w: World, c: Config, plan: Plan)
    requires Commits(w, c, plan) && !FailsAfterCommit(c, plan)
    ensures Upgrade(w, c, plan).err <==>
      !PowersDown(c, plan) && (SomeUndoFails(w.mounts, Parts(c), plan) || (c.power && Power in plan.fails))
  {
    var m, s := Mounted(w, c, plan), Start(w.store, plan.start).0;
    SwitchCommits(w, c, plan);
    StackError(w, c, plan);
    MountingKeepsRest(Progress(w, [], false), Parts(c), plan);
    var started := m.w.(store := s, snap := Snapshot(NextId(w.store.dirs), true));
    var at := Progress(started, m.jobs + [AbortJob(plan.abort)], false);
    TransactionError(at, ActiveId(w.store), c, plan, SomeUndoFails(w.mounts, Parts(c), plan));
  }

  lemma {:induction false} SomeUndoAt(m: Points, parts: seq<Part>, plan: Plan)
    requires forall i :: 0 <= i < |parts| ==> !CannotMount(m, parts[i], plan)
    ensures SomeUndoFails(m, parts, plan) <==> exists i :: 0 <= i < |parts| && UndoOfFails(m, parts[i], plan)
  {
    if parts != [] {
      var rest := parts[1..];
      SomeUndoAt(m, rest, plan);
      assert forall i :: 0 < i < |parts| ==> parts[i] == rest[i - 1];
    }
  }

  lemma WantedUndo(w: World, c: Config, plan: Plan)
    requires !Mounted(w, c, plan).err
    ensures SomeUndoFails(w.mounts, Parts(c), plan) <==> exists p :: Wanted(c, p) && UndoOfFails(w.mounts, p, plan)
  {
    var parts := Parts(c);
    MountedExactly(w, c, plan);
    PartsAreWanted(c);
    assert forall i :: 0 <= i < |parts| ==> parts[i] in parts;
    assert forall p :: p in parts ==> exists i :: 0 <= i < |parts| && parts[i] == p;
    SomeUndoAt(w.mounts, parts, plan);
  }

  /** The calls a run must not fail in to get past its commit. */
  ghost predicate Works(w: World, c: Config, plan: Plan)
  {
    && (forall p :: Wanted(c, p) ==> Mounts.SeenRw(At(w.mounts, p), plan.mount(p)) || Mounts.Mount !in plan.mount(p))
    && InitSnapshotter !in plan.fails && BeforeHook !in plan.fails && Deploy !in plan.fails && Refine !in plan.fails
    && Answered(w.store, plan.start) && MakeSnapDir !in plan.start && MakeWorkDir !in plan.start
    && MakeMountPoint !in plan.start && Bind !in plan.start
    && Unbind !in plan.close.steps && MakeImage !in plan.close.steps && RemoveWorkDir !in plan.close.steps
    && Symlink !in plan.close.steps && (Unlink !in plan.close.steps || w.store.link.NoLink?)
  }

  lemma WorkingRunCommits(w: World, c: Config, plan: Plan)
    ensures Commits(w, c, plan) <==> Works(w, c, plan)
  {
    MountedExactly(w, c, plan);
    StartExactly(w.store, plan.start);
    assert forall p :: CannotMount(w.mounts, p, plan) <==>
      !Mounts.SeenRw(At(w.mounts, p), plan.mount(p)) && Mounts.Mount in plan.mount(p);
  }

  /** When a run reports no error: all calls up to the commit work, and the nested recovery upgrade if there
      is one; and either the machine goes down in that, or the later steps, all undos and the final power
      action work too. */
  lemma NoErrorExactly(w: World, c: Config, plan: Plan)
    ensures !Upgrade(w, c, plan).err <==>
      && Works(w, c, plan) && (c.recoveryUpgrade ==> RecoveryUpgrade !in plan.fails)
      && ((c.recoveryUpgrade && c.power && !plan.salvaged)
          || (&& PostHook !in plan.fails && ListForState !in plan.fails && WriteState !in plan.fails
              && (forall p :: Wanted(c, p) ==> !UndoOfFails(w.mounts, p, plan))
              && (c.power ==> Power !in plan.fails)))
  {
    UpgradeEffect(w, c, plan);
    EffectCommits(w, c, plan);
    WorkingRunCommits(w, c, plan);
    if Commits(w, c, plan) {
      CommittedEffect(w, c, plan);
      if !FailsAfterCommit(c, plan) {
        ErrorOfRun(w, c, plan);
        WantedUndo(w, c, plan);
      }
    }
  }
}

/** Any number of upgrades and reboots: what always holds, and the two ways it breaks. */
module UpgradeHistories {
  import opened SnapshotIds
  import opened LoopDeviceSpec
  import opened CleanStacks
  import opened UpgradeSpec
  import opened UpgradeTheorems
  import opened UpgradeSafety
  import opened UpgradeOutcomes
  import Mounts
  import RecoverySwap

  /** The machine, what it has booted, and whether it is running. */
  datatype System = System(w: World, booted: set<nat>, up: bool)

  /** Booting a set of snapshots (none for the recovery system), with what is mounted after that, or one
      upgrade. */
  datatype Event = Reboot(on: set<nat>, mounts: Points) | Run(c: Config, plan: Plan)

  ghost function Next(s: System, e: Event): System
  {
    match e
    case Reboot(on, mounts) => System(s.w.(store := s.w.store.(bound := 0), mounts := mounts), on, true)
    case Run(c, plan) => var out := Upgrade(s.w, c, plan); System(out.w, s.booted, !out.down)
  }

  ghost function After(s: System, events: seq<Event>): System
    decreases events
  {
    if events == [] then s else After(Next(s, events[0]), events[1..])
  }

  /** Only snapshots with an image boot. An upgrade needs a running machine, its options are its own but it
      does not upgrade the recovery system from there, and it visits state.yaml entry by entry. */
  ghost predicate Possible(s: System, e: Event)
  {
    match e
    case Reboot(on, _) => on <= s.w.store.images
    case Run(c, plan) =>
      s.up && c.booted == s.booted && !(c.recoveryMode && c.recoveryUpgrade) && Lists(plan.visit, s.w.entries.Keys)
  }

  ghost predicate AllPossible(s: System, events: seq<Event>)
    decreases events
  {
    events != [] ==> Possible(s, events[0]) && AllPossible(Next(s, events[0]), events[1..])
  }

  ghost predicate Safe(s: System)
  {
    Sound(s.w.store, s.booted)
  }

  lemma EventIsSafe(s: System, e: Event)
    requires Safe(s) && Possible(s, e)
    ensures Safe(Next(s, e))
  {
    if e.Run? { BootedIsNeverRemoved(s.w, e.c, e.plan); }
  }

  /** Whatever fails in whatever run, a booted snapshot keeps its directory and its image. */
  lemma {:induction false} BootedSurvivesHistory(s: System, events: seq<Event>)
    requires Safe(s) && AllPossible(s, events)
    ensures Safe(After(s, events))
    decreases events
  {
    if events != [] {
      EventIsSafe(s, events[0]);
      BootedSurvivesHistory(Next(s, events[0]), events[1..]);
    }
  }

  // ---- What holds throughout ----

  /** Before, between and after all events. */
  ghost predicate Throughout(inv: System -> bool, s: System, events: seq<Event>)
    decreases events
  {
    inv(s) && (events != [] ==> Throughout(inv, Next(s, events[0]), events[1..]))
  }

  /** Each run is of a kind, judged in the state it starts from. */
  ghost predicate AllRuns(kind: (World, Config, Plan) -> bool, s: System, events: seq<Event>)
    decreases events
  {
    events != [] ==>
      && (events[0].Run? ==> kind(s.w, events[0].c, events[0].plan))
      && AllRuns(kind, Next(s, events[0]), events[1..])
  }

  /** Reboots keep the invariant, and of the runs exactly those of the kind. */
  ghost predicate KeptBy(inv: System -> bool, kind: (World, Config, Plan) -> bool)
  {
    forall s: System, e: Event :: Safe(s) && inv(s) && Possible(s, e) ==>
      (inv(Next(s, e)) <==> (e.Run? ==> kind(s.w, e.c, e.plan)))
  }

  lemma {:induction false} HistoryKeeps(
    inv: System -> bool, kind: (World, Config, Plan) -> bool, s: System, events: seq<Event>)
    requires KeptBy(inv, kind) && Safe(s) && inv(s) && AllPossible(s, events)
    ensures Throughout(inv, s, events) <==> AllRuns(kind, s, events)
    ensures AllRuns(kind, s, events) ==> inv(After(s, events))
    decreases events
  {
    if events != [] {
      var next := Next(s, events[0]);
      EventIsSafe(s, events[0]);
      assert inv(next) <==> (events[0].Run? ==> kind(s.w, events[0].c, events[0].plan));
      if inv(next) { HistoryKeeps(inv, kind, next, events[1..]); }
    }
  }

  // ---- state.yaml ----

  lemma RolledBackRecords(w: World, e: Effect, stranded: bool, lost: bool, bound: nat)
    requires Recorded(w) && RolledBack(w, e, NextId(w.store.dirs), stranded, lost, bound)
    ensures Recorded(w.(store := e.store, entries := e.entries)) <==> !lost
  {
  }

  /** The run commits, gets to write state.yaml and keeps the new link, or it does not commit and the old
      link is still there. */
  ghost predicate Records(w: World, c: Config, plan: Plan)
  {
    if Commits(w, c, plan) then
      !FailsAfterCommit(c, plan) && !PowersDown(c, plan) && !RetiresActive(w.store, c, plan.close)
    else !LosesLink(w, c, plan)
  }

  /** Those are exactly the runs that keep state.yaml right, whichever snapshot is active, whatever
      directories are left over and whatever the limit is. */
  lemma RecordedExactly(w: World, c: Config, plan: Plan)
    requires Sound(w.store, c.booted) && Recorded(w) && Lists(plan.visit, w.entries.Keys)
    ensures Recorded(Upgrade(w, c, plan).w) <==> Records(w, c, plan)
  {
    UpgradeEffect(w, c, plan);
    EffectCommits(w, c, plan);
    var e := EffectOf(w, c, plan);
    if e.committed {
      CommittedEffect(w, c, plan);
      ClosedRecords(w, c, plan, e);
    } else {
      EffectRollsBack(w, c, plan);
      RolledBackRecords(w, e, Strands(w, c, plan), LosesLink(w, c, plan), LeftBound(w, c, plan));
    }
  }

  ghost predicate StateIsRight(s: System)
  {
    Recorded(s.w)
  }

  /** Over a sequence of reboots and upgrades state.yaml has only IDs on disk and one active entry, the one
      the link leads to, throughout, if and only if every run records. */
  lemma HistoryStaysRecorded(s: System, events: seq<Event>)
    requires Safe(s) && StateIsRight(s) && AllPossible(s, events)
    ensures Throughout(StateIsRight, s, events) <==> AllRuns(Records, s, events)
    ensures AllRuns(Records, s, events) ==> StateIsRight(After(s, events))
  {
    forall t: System, e: Event | Safe(t) && StateIsRight(t) && Possible(t, e)
      ensures StateIsRight(Next(t, e)) <==> (e.Run? ==> Records(t.w, e.c, e.plan))
    {
      if e.Run? { RecordedExactly(t.w, e.c, e.plan); }
    }
    HistoryKeeps(StateIsRight, Records, s, events);
  }

  // ---- Healthy systems ----

  lemma RolledBackConsistent(w: World, booted: set<nat>, e: Effect, stranded: bool, lost: bool, bound: nat)
    requires Consistent(w, booted) && RolledBack(w, e, NextId(w.store.dirs), stranded, lost, bound)
    ensures Consistent(w.(store := e.store, entries := e.entries), booted) <==> !stranded && !lost
  {
  }

  /** The run records, and leaves no directory behind if it does not commit. */
  ghost predicate Gentle(w: World, c: Config, plan: Plan)
  {
    Records(w, c, plan) && (Commits(w, c, plan) || !Strands(w, c, plan))
  }

  /** Those are exactly the runs that keep a healthy system healthy. */
  lemma ConsistentExactly(w: World, c: Config, plan: Plan)
    requires Consistent(w, c.booted) && Lists(plan.visit, w.entries.Keys)
    ensures Consistent(Upgrade(w, c, plan).w, c.booted) <==> Gentle(w, c, plan)
  {
    UpgradeEffect(w, c, plan);
    EffectCommits(w, c, plan);
    var e := EffectOf(w, c, plan);
    if e.committed {
      CommittedEffect(w, c, plan);
      ClosedConsistent(w, c, plan, e);
    } else {
      EffectRollsBack(w, c, plan);
      RolledBackConsistent(w, c.booted, e, Strands(w, c, plan), LosesLink(w, c, plan), LeftBound(w, c, plan));
    }
  }

  ghost predicate Healthy(s: System)
  {
    Consistent(s.w, s.booted)
  }

  /** Over a sequence of reboots and upgrades the link leads to a complete image, the newest on disk, and is
      the one active entry of state.yaml, throughout, if and only if every upgrade is gentle. */
  lemma HistoryStaysConsistent(s: System, events: seq<Event>)
    requires Healthy(s) && AllPossible(s, events)
    ensures Throughout(Healthy, s, events) <==> AllRuns(Gentle, s, events)
    ensures AllRuns(Gentle, s, events) ==> Healthy(After(s, events))
  {
    forall t: System, e: Event | Safe(t) && Healthy(t) && Possible(t, e)
      ensures Healthy(Next(t, e)) <==> (e.Run? ==> Gentle(t.w, e.c, e.plan))
    {
      if e.Run? { ConsistentExactly(t.w, e.c, e.plan); }
    }
    HistoryKeeps(Healthy, Gentle, s, events);
  }

  // ---- The link is absent or designates the newest snapshot ----

  ghost predicate NewestOrNone(s: Store)
  {
    s.link.To? ==> s.link.id in s.images && forall d :: d in s.dirs ==> d <= s.link.id
  }

  lemma ClosedNewest(w: World, c: Config, plan: Plan, e: Effect)
    requires Sound(w.store, c.booted) && Closed(w, c, plan, e)
    ensures NewestOrNone(e.store) <==>
      RetiresActive(w.store, c, plan.close) || !FailsAfterCommit(c, plan) || RemoveSnapDir in plan.abort
  {
    LinkOfCommitted(w.store, c, plan.close);
    CommittedIsSound(w.store, c, plan.close);
  }

  lemma RolledBackNewest(w: World, e: Effect, stranded: bool, lost: bool, bound: nat)
    requires WellFormed(w.store) && NewestOrNone(w.store)
    requires RolledBack(w, e, NextId(w.store.dirs), stranded, lost, bound)
    ensures NewestOrNone(e.store) <==> if w.store.link.NoLink? then !lost else lost || !stranded
  {
    assert 0 !in w.store.images;
  }

  /** A committed and linked snapshot is not removed again; without a commit, no link to snapshot 0 appears
      and no directory newer than the linked one is left behind. */
  ghost predicate Orderly(w: World, c: Config, plan: Plan)
  {
    if Commits(w, c, plan) then
      RetiresActive(w.store, c, plan.close) || !FailsAfterCommit(c, plan) || RemoveSnapDir in plan.abort
    else if w.store.link.NoLink? then !LosesLink(w, c, plan)
    else LosesLink(w, c, plan) || !Strands(w, c, plan)
  }

  /** From a state partition with or without a link: the link is again absent or the newest exactly
      after an orderly run, and with room for two a committed run has it name the new snapshot. */
  lemma NewestExactly(w: World, c: Config, plan: Plan)
    requires Sound(w.store, c.booted) && NewestOrNone(w.store)
    ensures var out := Upgrade(w, c, plan);
      && (NewestOrNone(out.w.store) <==> Orderly(w, c, plan))
      && (out.committed && c.maxSnaps >= 2 ==> out.w.store.link == To(NextId(w.store.dirs)))
  {
    UpgradeEffect(w, c, plan);
    EffectCommits(w, c, plan);
    var e := EffectOf(w, c, plan);
    if e.committed {
      CommittedEffect(w, c, plan);
      ClosedNewest(w, c, plan, e);
      LinkOfCommitted(w.store, c, plan.close);
      if c.maxSnaps >= 2 { NewestIsSpared(w.store, c, plan.close); }
    } else {
      EffectRollsBack(w, c, plan);
      RolledBackNewest(w, e, Strands(w, c, plan), LosesLink(w, c, plan), LeftBound(w, c, plan));
    }
  }

  ghost predicate LinkIsNewest(s: System)
  {
    NewestOrNone(s.w.store)
  }

  /** From the first upgrade of an empty state partition on: the link is absent or designates the
      largest ID on disk, with its image, throughout a history if and only if every run is orderly. */
  lemma HistoryKeepsNewest(s: System, events: seq<Event>)
    requires Safe(s) && LinkIsNewest(s) && AllPossible(s, events)
    ensures Throughout(LinkIsNewest, s, events) <==> AllRuns(Orderly, s, events)
    ensures AllRuns(Orderly, s, events) ==> LinkIsNewest(After(s, events))
  {
    forall t: System, e: Event | Safe(t) && LinkIsNewest(t) && Possible(t, e)
      ensures LinkIsNewest(Next(t, e)) <==> (e.Run? ==> Orderly(t.w, e.c, e.plan))
    {
      if e.Run? { NewestExactly(t.w, e.c, e.plan); }
    }
    HistoryKeeps(LinkIsNewest, Orderly, s, events);
  }

  // ---- A link that leads nowhere ----

  predicate Dangles(s: Store)
  {
    s.link.To? && s.link.id !in s.images
  }

  /** A step fails after the commit, the clean-up removes the snapshot the link names and retention
      has not taken that link away already; or the link could not be created where there was none
      and one to snapshot 0 was put there instead. */
  ghost predicate MakesDangle(w: World, c: Config, plan: Plan)
  {
    if Commits(w, c, plan) then
      FailsAfterCommit(c, plan) && RemoveSnapDir !in plan.abort && !RetiresActive(w.store, c, plan.close)
    else LosesLink(w, c, plan) && w.store.link.NoLink?
  }

  lemma ClosedDangles(w: World, c: Config, plan: Plan, e: Effect)
    requires Sound(w.store, c.booted) && Closed(w, c, plan, e)
    ensures Dangles(e.store) <==>
      FailsAfterCommit(c, plan) && RemoveSnapDir !in plan.abort && !RetiresActive(w.store, c, plan.close)
  {
    CommittedIsSound(w.store, c, plan.close);
    LinkOfCommitted(w.store, c, plan.close);
  }

  /** A run makes a good link dangle in exactly those two cases. */
  lemma DanglesExactly(w: World, c: Config, plan: Plan)
    requires Sound(w.store, c.booted) && !Dangles(w.store)
    ensures Dangles(Upgrade(w, c, plan).w.store) <==> MakesDangle(w, c, plan)
  {
    UpgradeEffect(w, c, plan);
    EffectCommits(w, c, plan);
    if EffectOf(w, c, plan).committed {
      CommittedEffect(w, c, plan);
      ClosedDangles(w, c, plan, EffectOf(w, c, plan));
    } else {
      EffectRollsBack(w, c, plan);
    }
  }

  lemma DanglingRunFails(w: World, c: Config, plan: Plan)
    requires Dangles(w.store)
    ensures var out := Upgrade(w, c, plan);
      out.err && !out.committed && out.w.store == w.store && out.w.entries == w.entries
  {
    UpgradeEffect(w, c, plan);
  }

  /** Once the link dangles no upgrade ever succeeds again, nor changes the snapshots. */
  lemma {:induction false} DanglingIsForever(s: System, events: seq<Event>, c: Config, plan: Plan)
    requires Dangles(s.w.store)
    ensures var t := After(s, events);
      && t.w.store == s.w.store.(bound := t.w.store.bound) && t.w.entries == s.w.entries
      && Upgrade(t.w, c, plan).err
    decreases events
  {
    if events == [] {
      DanglingRunFails(s.w, c, plan);
    } else {
      if events[0].Run? { DanglingRunFails(s.w, events[0].c, events[0].plan); }
      DanglingIsForever(Next(s, events[0]), events[1..], c, plan);
    }
  }

  ghost predicate Harmless(w: World, c: Config, plan: Plan)
  {
    !MakesDangle(w, c, plan)
  }

  /** After any history, with any limits on snapshots, the link dangles if and only if one of the runs
      made it. */
  lemma {:induction false} HistoryDanglesExactly(s: System, events: seq<Event>)
    requires Safe(s) && !Dangles(s.w.store) && AllPossible(s, events)
    ensures Dangles(After(s, events).w.store) <==> !AllRuns(Harmless, s, events)
    decreases events
  {
    if events != [] {
      var next := Next(s, events[0]);
      EventIsSafe(s, events[0]);
      if events[0].Run? { DanglesExactly(s.w, events[0].c, events[0].plan); }
      if Dangles(next.w.store) {
        DanglingIsForever(next, events[1..], events[0].c, events[0].plan);
      } else {
        HistoryDanglesExactly(next, events[1..]);
      }
    }
  }

  /** No step fails after the commit and creating the link works. */
  predicate Sure(e: Event)
  {
    e.Run? ==> !FailsAfterCommit(e.c, e.plan) && Symlink !in e.plan.close.steps
  }

  lemma {:induction false} SureIsHarmless(s: System, events: seq<Event>)
    requires forall i :: 0 <= i < |events| ==> Sure(events[i])
    ensures AllRuns(Harmless, s, events)
    decreases events
  {
    if events != [] {
      assert Sure(events[0]);
      SureIsHarmless(Next(s, events[0]), events[1..]);
    }
  }

  /** So, with any number of directories stranded and removals failing, the link is absent or leads to
      a complete image as long as no late step and no creation of a link fails. */
  lemma HistoryNeverDangles(s: System, events: seq<Event>)
    requires Safe(s) && !Dangles(s.w.store) && AllPossible(s, events)
    requires forall i :: 0 <= i < |events| ==> Sure(events[i])
    ensures !Dangles(After(s, events).w.store)
  {
    SureIsHarmless(s, events);
    HistoryDanglesExactly(s, events);
  }

  /** On a healthy system it takes a failing hook, recovery upgrade or write of state.yaml that is
      reached, and a removal that works. */
  lemma LateFailureBreaksLink(w: World, c: Config, plan: Plan)
    requires Consistent(w, c.booted) && c.maxSnaps >= 2
    ensures Dangles(Upgrade(w, c, plan).w.store) <==>
      Commits(w, c, plan) && FailsAfterCommit(c, plan) && RemoveSnapDir !in plan.abort
  {
    DanglesExactly(w, c, plan);
    NewestIsSpared(w.store, c, plan.close);
  }

  // ---- A link lost to retention ----

  /** A run past its commit leaves no link at all exactly when retention deletes the snapshot that was
      active before it: not booted, at least maxSnaps - 1 newer directories, its calls working. */
  lemma RetentionLosesLink(w: World, c: Config, plan: Plan)
    requires WellFormed(w.store) && Commits(w, c, plan)
    ensures Upgrade(w, c, plan).w.store.link
      == if RetiresActive(w.store, c, plan.close) then NoLink else To(NextId(w.store.dirs))
  {
    UpgradeEffect(w, c, plan);
    EffectCommits(w, c, plan);
    CommittedEffect(w, c, plan);
    LinkOfCommitted(w.store, c, plan.close);
  }

  // ---- A link without an entry ----

  /** The link leads to a complete image that state.yaml has no entry for. */
  predicate Unrecorded(w: World)
  {
    w.store.link.To? && w.store.link.id in w.store.images && w.store.link.id !in w.entries
  }

  lemma ClosedUnrecorded(w: World, c: Config, plan: Plan, e: Effect)
    requires Sound(w.store, c.booted) && Recorded(w) && Lists(plan.visit, w.entries.Keys) && Closed(w, c, plan, e)
    ensures Unrecorded(w.(store := e.store, entries := e.entries)) <==>
      && !RetiresActive(w.store, c, plan.close)
      && (PowersDown(c, plan) || (FailsAfterCommit(c, plan) && RemoveSnapDir in plan.abort))
  {
    ClosedRecords(w, c, plan, e);
    CommittedIsSound(w.store, c, plan.close);
    LinkOfCommitted(w.store, c, plan.close);
    assert NextId(w.store.dirs) !in w.entries;
  }

  /** That is what a run leaves of a system whose state.yaml is right exactly when it commits and either
      goes down in the power action of the nested recovery upgrade or fails later on with a removal that
      fails too. In the first case the machine is down, the rest of the run never happens and there is no
      error. */
  lemma NestedPowerActionSkipsState(w: World, c: Config, plan: Plan)
    requires Sound(w.store, c.booted) && Recorded(w) && Lists(plan.visit, w.entries.Keys)
    ensures var out := Upgrade(w, c, plan);
      && (Unrecorded(out.w) <==>
            && Commits(w, c, plan) && !RetiresActive(w.store, c, plan.close)
            && (PowersDown(c, plan) || (FailsAfterCommit(c, plan) && RemoveSnapDir in plan.abort)))
      && (GoesDown(w, c, plan) ==> out.down && !out.err && out.w.entries == w.entries)
  {
    UpgradeEffect(w, c, plan);
    EffectCommits(w, c, plan);
    var e := EffectOf(w, c, plan);
    if e.committed {
      CommittedEffect(w, c, plan);
      ClosedUnrecorded(w, c, plan, e);
    } else {
      EffectRollsBack(w, c, plan);
    }
    if GoesDown(w, c, plan) { DownIsNoError(w, c, plan); }
  }

  lemma DownIsNoError(w: World, c: Config, plan: Plan)
    requires GoesDown(w, c, plan)
    ensures Upgrade(w, c, plan).down && !Upgrade(w, c, plan).err
  {
    MountingKeepsRest(Progress(w, [], false), Parts(c), plan);
    SwitchCommits(w, c, plan);
  }

  /** If the run was to end with a power action, the machine is down exactly when no error is reported;
      a run that fails before the commit reports one. */
  lemma DownExactly(w: World, c: Config, plan: Plan)
    ensures var out := Upgrade(w, c, plan); out.down <==> c.power && !out.err
    ensures var out := Upgrade(w, c, plan); !out.err ==> out.committed
  {
    UpgradeEffect(w, c, plan);
  }

  // ---- Both happen ----

  /** No call fails up to the commit, nor in the undoing. */
  ghost predicate Smooth(plan: Plan)
  {
    && (forall p :: plan.mount(p) == {} && plan.undo(p) == {})
    && plan.start == {} && plan.close.steps == {} && plan.close.retain == {} && (forall d :: plan.close.drop(d) == {})
  }

  lemma SmoothStart(w: World, c: Config, plan: Plan)
    requires Smooth(plan) && ActiveId(w.store) >= 0 && plan.fails !! {InitSnapshotter, BeforeHook}
    ensures Begins(w, c, plan) && !Start(w.store, plan.start).1
  {
    MountedExactly(w, c, plan);
    StartExactly(w.store, plan.start);
    forall p ensures !CannotMount(w.mounts, p, plan) {
      assert plan.mount(p) == {};
    }
  }

  lemma SmoothEffect(w: World, c: Config, plan: Plan)
    requires Smooth(plan) && ActiveId(w.store) >= 0 && plan.fails !! {InitSnapshotter, BeforeHook, Deploy, Refine}
    ensures Commits(w, c, plan) && EffectOf(w, c, plan).committed
  {
    SmoothStart(w, c, plan);
    EffectCommits(w, c, plan);
  }

  /** A run in which nothing fails commits and reports no error. */
  lemma SmoothRunSucceeds(w: World, c: Config, plan: Plan)
    requires Smooth(plan) && plan.fails == {} && ActiveId(w.store) >= 0
    ensures Upgrade(w, c, plan).committed && !Upgrade(w, c, plan).err
  {
    UpgradeEffect(w, c, plan);
    SmoothEffect(w, c, plan);
    WorkingRunCommits(w, c, plan);
    forall p ensures !UndoOfFails(w.mounts, p, plan) {
      assert plan.undo(p) == {};
    }
    NoErrorExactly(w, c, plan);
  }

  lemma SmoothLateFailure(w: World, c: Config, plan: Plan)
    requires Consistent(w, c.booted) && c.maxSnaps >= 2 && Smooth(plan) && RemoveSnapDir !in plan.abort
    requires plan.fails !! {InitSnapshotter, BeforeHook, Deploy, Refine}
    ensures Dangles(Upgrade(w, c, plan).w.store) <==> FailsAfterCommit(c, plan)
  {
    SmoothEffect(w, c, plan);
    LateFailureBreaksLink(w, c, plan);
  }

  /** On any healthy system, an upgrade whose post-upgrade hook fails leaves a dangling link, and no later
      upgrade succeeds, unless the machine went down before the hook. */
  lemma LateFailureIsFinal(s: System, c: Config, plan: Plan, events: seq<Event>, c': Config, later: Plan)
    requires Healthy(s) && c.booted == s.booted && c.maxSnaps >= 2
    requires Smooth(plan) && plan.fails == {PostHook} && RemoveSnapDir !in plan.abort
    ensures Dangles(Next(s, Run(c, plan)).w.store) <==> !PowersDown(c, plan)
    ensures !PowersDown(c, plan) ==>
      var t := After(Next(s, Run(c, plan)), events);
      Dangles(t.w.store) && Upgrade(t.w, c', later).err
  {
    SmoothLateFailure(s.w, c, plan);
    if !PowersDown(c, plan) { DanglingIsForever(Next(s, Run(c, plan)), events, c', later); }
  }

  lemma FailedRunStrands(w: World, c: Config, plan: Plan)
    requires Consistent(w, c.booted) && Smooth(plan) && plan.fails == {Deploy} && RemoveSnapDir in plan.abort
    ensures var w1 := Upgrade(w, c, plan).w;
      && Sound(w1.store, c.booted) && w1.store.link == w.store.link && w1.store.link.id in w1.store.images
      && w1.store.dirs == w.store.dirs + {NextId(w.store.dirs)}
  {
    SmoothStart(w, c, plan);
    CommitsExactly(w, c, plan);
    RollbackIsExact(w, c, plan);
    BootedIsNeverRemoved(w, c, plan);
  }

  /** With the default limit of two snapshots and the active one not booted, a first upgrade whose
      directory cannot be removed makes a second one, which reports success, leave no link. */
  lemma StrandedDirectoryCostsLink(w: World, c: Config, first: Plan, second: Plan)
    requires Consistent(w, c.booted) && c.maxSnaps == 2 && w.store.link.id !in c.booted
    requires Smooth(first) && first.fails == {Deploy} && RemoveSnapDir in first.abort
    requires Smooth(second) && second.fails == {}
    ensures var w1 := Upgrade(w, c, first).w;
      var out := Upgrade(w1, c, second); out.committed && !out.err && out.w.store.link == NoLink
  {
    FailedRunStrands(w, c, first);
    StrandedThenLost(w, c, second, Upgrade(w, c, first).w);
  }

  lemma StrandedThenLost(w: World, c: Config, plan: Plan, w1: World)
    requires Consistent(w, c.booted) && c.maxSnaps == 2 && w.store.link.id !in c.booted
    requires Sound(w1.store, c.booted) && w1.store.link == w.store.link && w1.store.link.id in w1.store.images
    requires w1.store.dirs == w.store.dirs + {NextId(w.store.dirs)}
    requires Smooth(plan) && plan.fails == {}
    ensures var out := Upgrade(w1, c, plan); out.committed && !out.err && out.w.store.link == NoLink
  {
    SmoothRunSucceeds(w1, c, plan);
    CommitsExactly(w1, c, plan);
    RetentionLosesLink(w1, c, plan);
    OneNewerRetires(w.store, w1.store, c, plan);
  }

  lemma OneNewerRetires(s: Store, s1: Store, c: Config, plan: Plan)
    requires c.maxSnaps == 2 && s.link.To? && s1.link == s.link && s.link.id in s1.images && s.link.id !in c.booted
    requires s1.dirs == s.dirs + {NextId(s.dirs)} && s1.images <= s1.dirs
    requires s.link.id in s.dirs && (forall d :: d in s.dirs ==> d <= s.link.id) && Smooth(plan)
    ensures RetiresActive(s1, c, plan.close)
  {
    assert NewerSet(s1.dirs, s.link.id) == {NextId(s.dirs)};
    assert plan.close.drop(s.link.id) == {};
  }

  // ---- What an upgrade keeps ----

  /** An upgrade in which nothing fails keeps, of the snapshots that were on disk, the maxSnaps - 1
      newest and the booted ones, and adds its own; only booted snapshots exceed the limit. */
  lemma UpgradeRetains(w: World, c: Config, plan: Plan)
    requires Sound(w.store, c.booted) && ActiveId(w.store) >= 0 && Smooth(plan) && plan.fails == {}
    ensures var dirs, after, max := w.store.dirs, Upgrade(w, c, plan).w.store.dirs, c.maxSnaps;
      && (forall d :: d in after <==> d == NextId(dirs) || (d in dirs && (Newer(dirs, d) < max - 1 || d in c.booted)))
      && (max >= 1 ==> |after| == (if |dirs| < max then |dirs| + 1 else max) + |Victims(dirs, max) * c.booted|)
  {
    SmoothStore(w, c, plan);
    CommittedRetains(w.store, c, plan.close);
  }

  lemma SmoothStore(w: World, c: Config, plan: Plan)
    requires Smooth(plan) && plan.fails == {} && ActiveId(w.store) >= 0
    ensures Upgrade(w, c, plan).w.store == Committed(w.store, c, plan.close)
  {
    UpgradeEffect(w, c, plan);
    SmoothEffect(w, c, plan);
    CommittedEffect(w, c, plan);
    assert !FailsAfterCommit(c, plan);
  }

  lemma CommittedRetains(s: Store, c: Config, f: CloseFaults)
    requires Sound(s, c.booted) && ActiveId(s) >= 0 && f.retain == {} && forall d :: f.drop(d) == {}
    ensures var dirs, after, max := s.dirs, Committed(s, c, f).dirs, c.maxSnaps;
      && (forall d :: d in after <==> d == NextId(dirs) || (d in dirs && (Newer(dirs, d) < max - 1 || d in c.booted)))
      && (max >= 1 ==> |after| == (if |dirs| < max then |dirs| + 1 else max) + |Victims(dirs, max) * c.booted|)
  {
    var id, s' := NextId(s.dirs), Switched(s);
    assert JustSwitched(s', id) && s'.dirs - {id} == s.dirs;
    RetentionIsExact(s', id, c.booted, ActiveId(s), c.maxSnaps, f.drop);
    BootloaderKeepsRest(Retain(s', c.booted, ActiveId(s), c.maxSnaps, {}, f.drop), f.grub);
  }

  // ---- The recovery upgrade as a late step ----

  /** The plan says of the nested recovery upgrade what comes of it. */
  ghost predicate Nests(plan: Plan, dirs: RecoverySwap.Dirs, version: nat, f: RecoverySwap.Faults)
  {
    var r := RecoverySwap.Upgrade(dirs, version, f, false);
    (RecoveryUpgrade in plan.fails <==> r.err) && (plan.salvaged <==> !r.err && !r.ended)
  }

  /** The recovery upgrade that is part of an upgrade fails, after putting the new system in place, when
      only the old one cannot be removed; the upgrade then destroys the snapshot it has committed. */
  lemma OldRecoveryBreaksLink(
    w: World, c: Config, plan: Plan,
    dirs: RecoverySwap.Dirs, version: nat, f: RecoverySwap.Faults)
    requires Consistent(w, c.booted) && c.maxSnaps >= 2 && c.recoveryUpgrade
    requires Smooth(plan) && plan.fails <= {RecoveryUpgrade} && RemoveSnapDir !in plan.abort
    requires Nests(plan, dirs, version, f) && dirs.boot.Complete? && f.fails == {RecoverySwap.RemoveOldAfter}
    ensures RecoverySwap.Result(dirs, version, f, false).boot == RecoverySwap.Complete(version)
    ensures Dangles(Upgrade(w, c, plan).w.store)
  {
    RecoverySwap.LeftoverIsAnError(dirs, version, f);
    SmoothLateFailure(w, c, plan);
  }

  /** The calls of the nested upgrade that must work for the machine to go down in it: all but those of the
      salvage and of writing state.yaml, which it does not get to. */
  lemma NestedPowerAction(c: Config, plan: Plan, dirs: RecoverySwap.Dirs, version: nat, f: RecoverySwap.Faults)
    requires Nests(plan, dirs, version, f) && dirs.boot.Complete?
    ensures PowersDown(c, plan) <==>
      && c.recoveryUpgrade && c.power
      && f.fails !! {RecoverySwap.MountIt, RecoverySwap.RemoveTrans, RecoverySwap.Deploy, RecoverySwap.RemoveOld,
                     RecoverySwap.ProbeBoot, RecoverySwap.MoveAway, RecoverySwap.SwitchIn,
                     RecoverySwap.RemoveOldAfter, RecoverySwap.UndoMount, RecoverySwap.Power}
  {
    RecoverySwap.NoErrorMeans(dirs, version, f, false);
  }
}

/** One upgrade from start to finish: the statements of UpgradeAction.Run with their deferred
    clean-up, as a function of the system and of which calls fail. */
module UpgradeSpec {
  import opened SnapshotIds
  import opened LoopDeviceSpec
  import opened CleanStacks
  import Mounts

  datatype Part = Boot | Recovery | State | Persistent

  /** The snapshot entries of state.yaml: the ID and its `active` mark. */
  type Entries = map<nat, bool>

  /** What is mounted for each partition. */
  datatype Points = Points(boot: Mounts.Point, recovery: Mounts.Point, state: Mounts.Point, persistent: Mounts.Point)

  function At(m: Points, p: Part): Mounts.Point
  {
    match p
    case Boot => m.boot
    case Recovery => m.recovery
    case State => m.state
    case Persistent => m.persistent
  }

  function Put(m: Points, p: Part, x: Mounts.Point): Points
  {
    match p
    case Boot => m.(boot := x)
    case Recovery => m.(recovery := x)
    case State => m.(state := x)
    case Persistent => m.(persistent := x)
  }

  datatype World = World(store: Store, snap: Snapshot, mounts: Points, entries: Entries)

  /** What does not change during a run; `power` tells whether it is to end with a reboot or power-off. */
  datatype Config = Config(
    booted: set<nat>, maxSnaps: int, recoveryMode: bool, persistent: bool, recoveryUpgrade: bool, power: bool)

  datatype RunStep =
    | InitSnapshotter | BeforeHook | Deploy | Refine
    | RecoveryUpgrade | PostHook | ListForState | WriteState | Power

  /** Which calls of a run fail, whether the nested recovery upgrade puts the old recovery system back
      and calls that success, and the order in which the entries of state.yaml are visited. */
  datatype Plan = Plan(
    mount: Part -> set<Mounts.Step>, undo: Part -> set<Mounts.Step>,
    fails: set<RunStep>, salvaged: bool, start: set<Step>, close: CloseFaults, abort: set<Step>, visit: seq<nat>)

  // ---- mountRWPartitions ----

  function Parts(c: Config): seq<Part>
  {
    [Boot, if c.recoveryMode then State else Recovery] + (if c.persistent then [Persistent] else [])
  }

  function UndoJob(p: Part, undo: Mounts.Undo, faults: set<Mounts.Step>): Job<World>
  {
    Job((w: World) =>
          var (m, e) := Mounts.RunUndo(At(w.mounts, p), undo, faults);
          (w.(mounts := Put(w.mounts, p, m)), e),
        Always)
  }

  /** A run so far: the system, the pushed jobs and whether it has failed. */
  datatype Progress = Progress(w: World, jobs: seq<Job<World>>, err: bool)

  function MountOne(at: Progress, p: Part, plan: Plan): Progress
  {
    var (m, undo, err) := Mounts.MountRW(At(at.w.mounts, p), plan.mount(p));
    if err then at.(err := true)
    else Progress(at.w.(mounts := Put(at.w.mounts, p, m)), at.jobs + [UndoJob(p, undo, plan.undo(p))], false)
  }

  function MountAll(at: Progress, parts: seq<Part>, plan: Plan): Progress
    decreases parts
  {
    if parts == [] || at.err then at
    else MountAll(MountOne(at, parts[0], plan), parts[1..], plan)
  }

  // ---- upgradeInstallStateYaml ----

  /** The active entry visited last, 0 if there is none. */
  function LastActive(e: Entries, visit: seq<nat>): nat
  {
    if visit == [] then 0
    else if visit[|visit| - 1] in e && e[visit[|visit| - 1]] then visit[|visit| - 1]
    else LastActive(e, visit[..|visit| - 1])
  }

  /** The visited entries whose snapshot is gone. */
  function Orphaned(e: Entries, visit: seq<nat>, dirs: set<nat>): set<nat>
  {
    set k | k in visit && k in e && k !in dirs
  }

  /** The entries after an upgrade to `id`, given which snapshots exist. */
  function Updated(e: Entries, visit: seq<nat>, id: nat, dirs: set<nat>): Entries
  {
    var oldActive := LastActive(e, visit);
    var added := e[id := true];
    var marked := if oldActive in added then added[oldActive := false] else added;
    marked - Orphaned(e, visit, dirs)
  }

  // ---- Run ----

  function AbortJob(faults: set<Step>): Job<World>
  {
    Job((w: World) =>
          var (s, e) := Abort(w.store, w.snap, faults);
          (w.(store := s), e),
        ErrorOnly)
  }

  /** The nested recovery upgrade gets to its own power action, and that works: the machine goes down
      there. */
  predicate PowersDown(c: Config, plan: Plan)
  {
    c.recoveryUpgrade && c.power && RecoveryUpgrade !in plan.fails && !plan.salvaged
  }

  /** One of the steps between the commit and the end of the work is reached and fails. */
  predicate FailsAfterCommit(c: Config, plan: Plan)
  {
    || (c.recoveryUpgrade && RecoveryUpgrade in plan.fails)
    || (!PowersDown(c, plan) && (PostHook in plan.fails || ListForState in plan.fails || WriteState in plan.fails))
  }

  /** The steps after the transaction is committed, up to the end of the work. */
  function AfterCommit(at: Progress, c: Config, plan: Plan): Progress
  {
    if FailsAfterCommit(c, plan) then at.(err := true)
    else at.(w := at.w.(entries := Updated(at.w.entries, plan.visit, at.w.snap.id, at.w.store.dirs)))
  }

  /** How a run ended, whether it got past the link switch and whether the machine is down. */
  datatype Outcome = Outcome(w: World, err: bool, committed: bool, down: bool)

  ghost function Finish(at: Progress, committed: bool): Outcome
  {
    var (w, err) := RunJobs(at.jobs, at.w, at.err);
    Outcome(w, err, committed, false)
  }

  /** The last step of a run without error. */
  function PowerAction(out: Outcome, c: Config, plan: Plan): Outcome
  {
    if out.err || !c.power then out else out.(err := Power in plan.fails, down := Power !in plan.fails)
  }

  /** The run once CloseTransaction has succeeded. */
  ghost function Closing(at: Progress, c: Config, plan: Plan): Outcome
  {
    if PowersDown(c, plan) then Outcome(at.w, at.err, true, true) else
    var done := AfterCommit(at, c, plan);
    if done.err then Finish(done, true) else PowerAction(Finish(done, true), c, plan)
  }

  ghost function Mounted(w: World, c: Config, plan: Plan): Progress
  {
    MountAll(Progress(w, [], false), Parts(c), plan)
  }

  /** The run once StartTransaction has succeeded and the abort job is pushed. */
  ghost function Transaction(at: Progress, stale: nat, c: Config, plan: Plan): Outcome
  {
    if Deploy in plan.fails || Refine in plan.fails then Finish(at.(err := true), false) else
    var (s, err) := Close(at.w.store, at.w.snap, c.booted, stale, c.maxSnaps, plan.close);
    if err then Finish(at.(w := at.w.(store := s), err := true), false) else
    var closed := at.w.(store := s, snap := at.w.snap.(inProgress := false));
    Closing(at.(w := closed), c, plan)
  }

  ghost function Upgrade(w: World, c: Config, plan: Plan): Outcome
  {
    var m := Mounted(w, c, plan);
    if m.err || InitSnapshotter in plan.fails || BeforeHook in plan.fails then Finish(m.(err := true), false) else
    var (s, err) := Start(m.w.store, plan.start);
    if err then Finish(m.(w := m.w.(store := s), err := true), false) else
    var started := m.w.(store := s, snap := Snapshot(NextId(m.w.store.dirs), true));
    Transaction(Progress(started, m.jobs + [AbortJob(plan.abort)], false), ActiveId(m.w.store), c, plan)
  }
}

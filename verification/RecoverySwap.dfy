/** Upgrading the recovery system: the new tree is deployed next to the old one and three
    directories of the recovery partition change places. Power may go at any point, so a run
    is the log of every state the partition goes through. */
module RecoverySwap {

  datatype Dir = Absent | Partial | Complete(version: nat)

  /** boot, boot-old and boot-transition. */
  datatype Dirs = Dirs(boot: Dir, prev: Dir, trans: Dir)

  datatype Step =
    | MountIt | RemoveTrans | Deploy | RemoveOld
    | ProbeBoot | MoveAway | SwitchIn | ProbeOld | Salvage | RemoveOldAfter | WriteState
    | UndoMount | Power

  /** The calls that fail, and those of them that leave their directory half done. */
  datatype Faults = Faults(fails: set<Step>, halfway: set<Step>)

  /** The states gone through, the error and whether the statements were run to the last. */
  datatype Run = Run(log: seq<Dirs>, err: bool, ended: bool)

  predicate SomeComplete(d: Dirs)
  {
    d.boot.Complete? || d.prev.Complete? || d.trans.Complete?
  }

  function Spoilt(d: Dir): Dir
  {
    if d == Absent then Absent else Partial
  }

  /** The states a directory goes through while it is removed. */
  function Removing(d: Dir, step: Step, f: Faults): seq<Dir>
  {
    if step !in f.fails then [Spoilt(d), Absent]
    else if step in f.halfway then [Spoilt(d)]
    else [d]
  }

  /** The states of boot-transition, already removed, during the deployment. */
  function Deploying(version: nat, f: Faults): seq<Dir>
  {
    if Deploy !in f.fails then [Partial, Complete(version)]
    else if Deploy in f.halfway then [Partial]
    else [Absent]
  }

  function Last<T>(s: seq<T>): T
    requires s != []
  {
    s[|s| - 1]
  }

  function OnTrans(d: Dirs, states: seq<Dir>): seq<Dirs>
  {
    seq(|states|, i requires 0 <= i < |states| => d.(trans := states[i]))
  }

  function OnOld(d: Dirs, states: seq<Dir>): seq<Dirs>
  {
    seq(|states|, i requires 0 <= i < |states| => d.(prev := states[i]))
  }

  /** From the switch to the end; boot has been moved away if it was there. */
  function SwitchStates(d: Dirs, f: Faults, recordState: bool): Run
  {
    if SwitchIn in f.fails || d.boot != Absent then
      if d.prev == Absent || ProbeOld in f.fails then Run([], true, false)
      else if Salvage in f.fails || d.boot != Absent then Run([], true, false)
      else Run([d.(boot := d.prev, prev := Absent)], false, false)
    else
      var placed := d.(boot := d.trans, trans := Absent);
      var log := [placed] + OnOld(placed, Removing(placed.prev, RemoveOldAfter, f));
      Run(log, if recordState then WriteState in f.fails else RemoveOldAfter in f.fails, true)
  }

  function MoveStates(d: Dirs, f: Faults, recordState: bool): Run
  {
    if d.boot != Absent && ProbeBoot !in f.fails then
      if MoveAway in f.fails then Run([], true, false)
      else
        var moved := d.(prev := d.boot, boot := Absent);
        var rest := SwitchStates(moved, f, recordState);
        Run([moved] + rest.log, rest.err, rest.ended)
    else SwitchStates(d, f, recordState)
  }

  /** The statements of a run once the partition is mounted. */
  function Body(d: Dirs, version: nat, f: Faults, recordState: bool): (r: Run)
    ensures r.log != [] && r.log[0] == d
  {
    var log1 := [d] + OnTrans(d, Removing(d.trans, RemoveTrans, f));
    if RemoveTrans in f.fails then Run(log1, true, false) else
    var d1 := d.(trans := Absent);
    var log2 := log1 + OnTrans(d1, Deploying(version, f));
    if Deploy in f.fails then Run(log2, true, false) else
    var d2 := d.(trans := Complete(version));
    var log3 := log2 + OnOld(d2, Removing(d2.prev, RemoveOld, f));
    if RemoveOld in f.fails then Run(log3, true, false) else
    var rest := MoveStates(d2.(prev := Absent), f, recordState);
    Run(log3 + rest.log, rest.err, rest.ended)
  }

  /** The whole run: every state of the partition, the first one included. The mount is undone however
      it ends; the power action follows only if all went well to the last statement. */
  function Upgrade(d: Dirs, version: nat, f: Faults, recordState: bool): (r: Run)
    ensures r.log != [] && r.log[0] == d
  {
    if MountIt in f.fails then Run([d], true, false) else
    var r := Body(d, version, f, recordState);
    r.(err := r.err || UndoMount in f.fails || (r.ended && Power in f.fails))
  }

  function Result(d: Dirs, version: nat, f: Faults, recordState: bool): Dirs
  {
    Last(Upgrade(d, version, f, recordState).log)
  }

  // ---- The action ----

  class UpgradeRecoveryAction {
    var dirs: Dirs
    ghost var log: seq<Dirs>
    const version: nat
    const updateInstallState: bool

    constructor (dirs: Dirs, version: nat, updateInstallState: bool)
      ensures this.dirs == dirs && log == [dirs]
      ensures this.version == version && this.updateInstallState == updateInstallState
    {
      this.dirs, this.version, this.updateInstallState, log := dirs, version, updateInstallState, [dirs];
    }

    method Set(d: Dirs)
      modifies this
      ensures dirs == d && log == old(log) + [d]
    {
      dirs, log := d, log + [d];
    }

    method RemoveTransition(f: Faults) returns (err: bool)
      modifies this
      ensures log == old(log) + OnTrans(old(dirs), Removing(old(dirs).trans, RemoveTrans, f))
      ensures dirs == Last(log) && err == (RemoveTrans in f.fails)
    {
      err := RemoveTrans in f.fails;
      if !err || RemoveTrans in f.halfway { Set(dirs.(trans := Spoilt(dirs.trans))); } else { Set(dirs); }
      if !err { Set(dirs.(trans := Absent)); }
    }

    method RemoveOldBoot(step: Step, f: Faults) returns (err: bool)
      modifies this
      ensures log == old(log) + OnOld(old(dirs), Removing(old(dirs).prev, step, f))
      ensures dirs == Last(log) && err == (step in f.fails)
    {
      err := step in f.fails;
      if !err || step in f.halfway { Set(dirs.(prev := Spoilt(dirs.prev))); } else { Set(dirs); }
      if !err { Set(dirs.(prev := Absent)); }
    }

    method DeployRecoverySystem(f: Faults) returns (err: bool)
      requires dirs.trans == Absent
      modifies this
      ensures log == old(log) + OnTrans(old(dirs), Deploying(version, f))
      ensures dirs == Last(log) && err == (Deploy in f.fails)
    {
      err := Deploy in f.fails;
      if !err || Deploy in f.halfway { Set(dirs.(trans := Partial)); } else { Set(dirs); }
      if !err { Set(dirs.(trans := Complete(version))); }
    }

    method Perform(f: Faults) returns (err: bool)
      requires log == [dirs]
      modifies this
      ensures var r := Upgrade(old(dirs), version, f, updateInstallState); log == r.log && err == r.err
    {
      if MountIt in f.fails { return true; }
      var ended;
      err, ended := Statements(f);
      err := err || UndoMount in f.fails;
      if ended && !err { err := Power in f.fails; }
    }

    method Statements(f: Faults) returns (err: bool, ended: bool)
      requires log == [dirs]
      modifies this
      ensures Run(log, err, ended) == Body(old(dirs), version, f, updateInstallState)
    {
      ended := false;
      err := RemoveTransition(f);
      if err { return; }
      err := DeployRecoverySystem(f);
      if err { return; }
      err := RemoveOldBoot(RemoveOld, f);
      if err { return; }
      err, ended := SwapDirectories(f);
    }

    method SwapDirectories(f: Faults) returns (err: bool, ended: bool)
      modifies this
      ensures var r := MoveStates(old(dirs), f, updateInstallState);
        log == old(log) + r.log && err == r.err && ended == r.ended
    {
      ended := false;
      if dirs.boot != Absent && ProbeBoot !in f.fails {
        if MoveAway in f.fails { return true, false; }
        Set(dirs.(prev := dirs.boot, boot := Absent));
      }
      if SwitchIn in f.fails || dirs.boot != Absent {
        err := true;
        if dirs.prev != Absent && ProbeOld !in f.fails {
          err := Salvage in f.fails || dirs.boot != Absent;
          if !err { Set(dirs.(boot := dirs.prev, prev := Absent)); }
        }
        return;
      }
      Set(dirs.(boot := dirs.trans, trans := Absent));
      err := RemoveOldBoot(RemoveOldAfter, f);
      if updateInstallState { err := WriteState in f.fails; }
      ended := true;
    }
  }

  // ---- What it guarantees ----

  predicate AllComplete(log: seq<Dirs>)
  {
    forall i :: 0 <= i < |log| ==> SomeComplete(log[i])
  }

  /** Once the new tree is complete in boot-transition, moving directories around keeps an image. */
  lemma SwapKeepsComplete(d: Dirs, f: Faults, recordState: bool)
    requires d.trans.Complete? && d.prev == Absent
    ensures AllComplete(MoveStates(d, f, recordState).log)
  {
    var moved := d.(prev := d.boot, boot := Absent);
    assert AllComplete(SwitchStates(moved, f, recordState).log);
    assert AllComplete(SwitchStates(d, f, recordState).log);
  }

  /** The moments that make the order of the steps matter: a tree that is being removed or deployed is
      incomplete for a while, whether or not that ends well. */
  lemma IncompleteOnTheWay(d: Dirs, version: nat, f: Faults, recordState: bool)
    ensures var log := Upgrade(d, version, f, recordState).log;
      && (MountIt !in f.fails && (RemoveTrans !in f.fails || RemoveTrans in f.halfway) && d.trans != Absent ==>
            d.(trans := Partial) in log)
      && (f.fails !! {MountIt, RemoveTrans} && (Deploy !in f.fails || Deploy in f.halfway) ==>
            d.(trans := Partial) in log)
      && (f.fails !! {MountIt, RemoveTrans, Deploy} && (RemoveOld !in f.fails || RemoveOld in f.halfway) ==>
            d.prev == Absent || Dirs(d.boot, Partial, Complete(version)) in log)
  {
    var log := Upgrade(d, version, f, recordState).log;
    if MountIt !in f.fails {
      assert log[1].trans == if RemoveTrans in f.fails && RemoveTrans !in f.halfway then d.trans else Spoilt(d.trans);
      if RemoveTrans !in f.fails {
        assert Deploy !in f.fails || Deploy in f.halfway ==> log[3] == d.(trans := Partial);
        if Deploy !in f.fails && (RemoveOld !in f.fails || RemoveOld in f.halfway) {
          assert log[5] == Dirs(d.boot, Spoilt(d.prev), Complete(version));
        }
      }
    }
  }

  /** At every moment of every run some directory holds a complete image, if boot or boot-old did
      at the start. */
  lemma AlwaysComplete(d: Dirs, version: nat, f: Faults, recordState: bool)
    requires d.boot.Complete? || d.prev.Complete?
    ensures AllComplete(Upgrade(d, version, f, recordState).log)
  {
    var d1, d2 := d.(trans := Absent), d.(trans := Complete(version));
    assert AllComplete([d] + OnTrans(d, Removing(d.trans, RemoveTrans, f)));
    assert AllComplete(OnTrans(d1, Deploying(version, f)));
    assert AllComplete(OnOld(d2, Removing(d2.prev, RemoveOld, f)));
    SwapKeepsComplete(d2.(prev := Absent), f, recordState);
  }

  /** That start is also necessary: without it, a run in which nothing fails has a moment with no
      complete image. */
  lemma SafeStart(d: Dirs)
    ensures (forall version, f, recordState :: AllComplete(Upgrade(d, version, f, recordState).log))
       <==> d.boot.Complete? || d.prev.Complete?
  {
    if d.boot.Complete? || d.prev.Complete? {
      forall version, f, recordState ensures AllComplete(Upgrade(d, version, f, recordState).log) {
        AlwaysComplete(d, version, f, recordState);
      }
    } else {
      var log := Upgrade(d, 0, Faults({}, {}), false).log;
      assert log[2] == d.(trans := Absent);
      assert !AllComplete(log);
    }
  }

  /** boot was moved away and neither the new tree nor the old one took its place. */
  predicate LosesBoot(f: Faults)
  {
    && f.fails !! {MountIt, RemoveTrans, Deploy, RemoveOld, ProbeBoot, MoveAway}
    && SwitchIn in f.fails && (ProbeOld in f.fails || Salvage in f.fails)
  }

  /** Starting from a complete boot, boot is complete at the end exactly unless both the switch and
      the salvage failed; then boot-old has what was in boot. */
  lemma BootAtReturn(d: Dirs, version: nat, f: Faults, recordState: bool)
    requires d.boot.Complete?
    ensures var end := Result(d, version, f, recordState);
      && (end.boot.Complete? <==> !LosesBoot(f))
      && (end.boot.Complete? ==> end.boot == d.boot || end.boot == Complete(version))
      && (LosesBoot(f) ==> end == Dirs(Absent, d.boot, Complete(version)))
  {
  }

  /** What the last removal leaves of the old tree. */
  function Leftover(tree: Dir, f: Faults): Dir
  {
    if RemoveOldAfter !in f.fails then Absent else if RemoveOldAfter in f.halfway then Spoilt(tree) else tree
  }

  /** The new tree is complete and whatever was in boot is out of its way. */
  predicate ReadyToSwitch(d: Dirs, f: Faults)
  {
    && MountIt !in f.fails && RemoveTrans !in f.fails && Deploy !in f.fails && RemoveOld !in f.fails
    && (d.boot == Absent || (ProbeBoot !in f.fails && MoveAway !in f.fails))
  }

  /** When the new tree is switched in, whatever the partition held before, an absent boot included, and
      what is then in the three directories. Without the switch an absent boot stays absent. */
  lemma SwitchedInExactly(d: Dirs, version: nat, f: Faults, recordState: bool)
    ensures var r, end := Upgrade(d, version, f, recordState), Result(d, version, f, recordState);
      && (r.ended <==> ReadyToSwitch(d, f) && SwitchIn !in f.fails)
      && (r.ended ==> end == Dirs(Complete(version), Leftover(d.boot, f), Absent))
      && (!r.ended && d.boot == Absent ==> end.boot == Absent)
      && (ReadyToSwitch(d, f) && SwitchIn in f.fails ==>
            end == if d.boot != Absent && ProbeOld !in f.fails && Salvage !in f.fails
                   then Dirs(d.boot, Absent, Complete(version)) else Dirs(Absent, d.boot, Complete(version)))
  {
    if f.fails !! {MountIt, RemoveTrans, Deploy, RemoveOld} {
      MovesEnd(Dirs(d.boot, Absent, Complete(version)), f, recordState);
    }
  }

  /** How moving the directories ends once the new tree is deployed and boot-old is gone. */
  lemma MovesEnd(d: Dirs, f: Faults, recordState: bool)
    requires d.prev == Absent && d.trans != Absent
    ensures var r, clear := MoveStates(d, f, recordState), d.boot == Absent || f.fails !! {ProbeBoot, MoveAway};
      var end := if r.log == [] then d else Last(r.log);
      && (r.ended <==> clear && SwitchIn !in f.fails)
      && end == if !clear then d
                else if SwitchIn !in f.fails then Dirs(d.trans, Leftover(d.boot, f), Absent)
                else if d.boot != Absent && ProbeOld !in f.fails && Salvage !in f.fails then d
                else Dirs(Absent, d.boot, d.trans)
  {
  }

  /** What "no error" means: the mount was undone, and the new tree is in boot, either state.yaml was
      written or boot-old was removed and the power action worked, or the switch failed and the old tree
      was put back. */
  lemma NoErrorMeans(d: Dirs, version: nat, f: Faults, recordState: bool)
    ensures !Upgrade(d, version, f, recordState).err <==>
      && ReadyToSwitch(d, f) && UndoMount !in f.fails
      && if SwitchIn in f.fails then d.boot != Absent && ProbeOld !in f.fails && Salvage !in f.fails
         else Power !in f.fails && if recordState then WriteState !in f.fails else RemoveOldAfter !in f.fails
    ensures !Upgrade(d, version, f, recordState).err ==>
      Result(d, version, f, recordState)
        == if SwitchIn in f.fails then Dirs(d.boot, Absent, Complete(version))
           else Dirs(Complete(version), Leftover(d.boot, f), Absent)
    ensures !Upgrade(d, version, f, recordState).err ==>
      (Upgrade(d, version, f, recordState).ended <==> SwitchIn !in f.fails)
  {
    SwitchedInExactly(d, version, f, recordState);
  }

  /** Without state.yaml to write, failing to remove boot-old is reported although all is in place. */
  lemma LeftoverIsAnError(d: Dirs, version: nat, f: Faults)
    requires d.boot.Complete? && f.fails == {RemoveOldAfter}
    ensures Upgrade(d, version, f, false).err && Result(d, version, f, false).boot == Complete(version)
    ensures !Upgrade(d, version, f, true).err
  {
    NoErrorMeans(d, version, f, false);
    NoErrorMeans(d, version, f, true);
  }

  /** One run keeps boot or boot-old complete, so it may be followed by another; the second one no
      longer guarantees that, and the third can lose the last image. */
  lemma ThreeRunsLoseEverything(d: Dirs, version: nat)
    requires d.boot.Complete?
    ensures forall f, recordState ::
      var end := Result(d, version, f, recordState); end.boot.Complete? || end.prev.Complete?
    ensures exists f1, f2, f3 ::
      var d1 := Result(d, version, f1, true);
      var d2 := Result(d1, version, f2, true);
      !SomeComplete(Result(d2, version, f3, true))
  {
    forall f, recordState
      ensures var end := Result(d, version, f, recordState); end.boot.Complete? || end.prev.Complete?
    {
      BootAtReturn(d, version, f, recordState);
    }
    var f1, f2, f3 := Faults({SwitchIn, Salvage}, {}), Faults({SwitchIn}, {}), Faults({Deploy}, {});
    var d1 := Result(d, version, f1, true);
    assert d1 == Dirs(Absent, d.boot, Complete(version));
    var d2 := Result(d1, version, f2, true);
    assert d2 == Dirs(Absent, Absent, Complete(version));
    assert Result(d2, version, f3, true) == Dirs(Absent, Absent, Absent);
  }
}

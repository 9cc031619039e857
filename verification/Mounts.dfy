/** Mounting a partition read-write and the undo that goes with it. A mount point is the stack
    of file systems mounted on it; only the top one is visible. */
module Mounts {

  datatype Mode = Ro | Rw

  type Point = seq<Mode>

  datatype Step = Probe | FindMnt | Mount | Unmount

  /** What the function returned by MountRWPartition will do. */
  datatype Undo = Nothing | RemountRo | UnmountIt

  function Top(m: Point): Mode
    requires m != []
  {
    m[|m| - 1]
  }

  function Remounted(m: Point, mode: Mode): Point
  {
    if m == [] then m else m[|m| - 1 := mode]
  }

  /** The point is seen to be mounted. */
  predicate Seen(m: Point, faults: set<Step>)
  {
    m != [] && Probe !in faults
  }

  /** It is seen to be mounted read-write. */
  predicate SeenRw(m: Point, faults: set<Step>)
  {
    Seen(m, faults) && Top(m) == Rw && FindMnt !in faults
  }

  /** Mount point, undo and error of MountRWPartition. A probe that fails counts as "not mounted", a
      findmnt that fails as "not read-write". What is seen to be mounted is never mounted again. */
  function MountRW(m: Point, faults: set<Step>): (r: (Point, Undo, bool))
    ensures r.2 <==> Mount in faults && !SeenRw(m, faults)
    ensures !r.2 ==> r.0 == (if Seen(m, faults) then m[..|m| - 1] else m) + [Rw]
    ensures r.2 ==> r.0 == m
  {
    if m != [] && Probe !in faults then
      if Top(m) == Rw && FindMnt !in faults then (m, Nothing, false)
      else if Mount in faults then (m, Nothing, true)
      else (Remounted(m, Rw), RemountRo, false)
    else if Mount in faults then (m, Nothing, true)
    else (m + [Rw], UnmountIt, false)
  }

  function RunUndo(m: Point, undo: Undo, faults: set<Step>): (Point, bool)
  {
    match undo
    case Nothing => (m, false)
    case RemountRo => if Mount in faults then (m, true) else (Remounted(m, Ro), false)
    case UnmountIt =>
      if m == [] || Probe in faults then (m, false)
      else if Unmount in faults then (m, true)
      else (m[..|m| - 1], false)
  }

  /** When the undo of a successful MountRWPartition takes the mount point back: always if nothing had
      to be done; if it was remounted, unless exactly one went wrong of "it was read-only before" and
      "remounting it read-only works"; if it was mounted, when it is seen and unmounted. */
  predicate UndoRestores(m: Point, faults: set<Step>, undoFaults: set<Step>)
  {
    if SeenRw(m, faults) then true
    else if Seen(m, faults) then Top(m) == Rw <==> Mount in undoFaults
    else Probe !in undoFaults && Unmount !in undoFaults
  }

  /** When that undo reports an error: a remount or an unmount of something seen to be mounted fails. */
  predicate UndoFails(m: Point, faults: set<Step>, undoFaults: set<Step>)
  {
    if SeenRw(m, faults) then false
    else if Seen(m, faults) then Mount in undoFaults
    else Probe !in undoFaults && Unmount in undoFaults
  }

  lemma UndoError(m: Point, faults: set<Step>, undoFaults: set<Step>)
    requires !MountRW(m, faults).2
    ensures RunUndo(MountRW(m, faults).0, MountRW(m, faults).1, undoFaults).1 <==> UndoFails(m, faults, undoFaults)
  {
  }

  /** That condition is exact, for unmounted, read-only, read-write and stacked mount points: a point
      that was read-write but for which findmnt failed is left read-only by an undo that works. */
  lemma MountRWRoundTrip(m: Point, faults: set<Step>, undoFaults: set<Step>)
    requires !MountRW(m, faults).2
    ensures RunUndo(MountRW(m, faults).0, MountRW(m, faults).1, undoFaults).0 == m
      <==> UndoRestores(m, faults, undoFaults)
  {
    var (m', undo, _) := MountRW(m, faults);
    if undo == RemountRo {
      assert Remounted(m', Ro) == Remounted(m, Ro);
      assert Top(m) == Ro ==> Remounted(m, Ro) == m;
      assert Top(m') == Rw;
      assert Top(m) == Rw ==> m' == m;
    } else if undo == UnmountIt {
      assert m'[..|m|] == m;
    }
  }

  /** When probing and undoing work, the undo restores the mount point and reports no error. */
  lemma HonestRoundTrip(m: Point, faults: set<Step>)
    requires !MountRW(m, faults).2 && Probe !in faults && FindMnt !in faults
    ensures RunUndo(MountRW(m, faults).0, MountRW(m, faults).1, {}) == (m, false)
  {
    MountRWRoundTrip(m, faults, {});
  }
}

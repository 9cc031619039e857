/** Snapshot IDs and clean-up of the btrfs backend. */
module BtrfsBackends {
  import opened Basics
  import opened SnapshotIds

  /** What a clean-up without failures leaves: the newest `max`, and nothing from the booted snapshot
      on is touched. */
  ghost function Survivors(ids: set<nat>, current: nat, max: nat): set<nat>
  {
    set d | d in ids && Survives(ids, d, current, max)
  }

  ghost predicate Survives(ids: set<nat>, id: nat, current: nat, max: nat)
  {
    Newer(ids, id) < max || (current in ids && id >= current)
  }

  /** The ID the backend gives a new snapshot. */
  function NewId(activeID: nat, ids: set<nat>): nat
  {
    if activeID == 0 then 1 else NextId(ids)
  }

  /** What is left when deleting from the oldest on stops at `b`, whose subvolume or only whose folder
      cannot be deleted. */
  ghost function StoppedAt(ids: set<nat>, b: nat, subvolume: set<nat>): set<nat>
  {
    set d | d in ids && (d > b || (d == b && b in subvolume))
  }

  class BtrfsBackend {
    const currentID: nat       // the booted snapshot, 0 if none
    const activeID: nat        // the default snapshot, 0 if none
    const maxSnapshots: nat
    var ids: set<nat>          // snapshot subvolumes

    constructor (currentID: nat, activeID: nat, maxSnapshots: nat, ids: set<nat>)
      ensures this.currentID == currentID && this.activeID == activeID
      ensures this.maxSnapshots == maxSnapshots && this.ids == ids
    {
      this.currentID, this.activeID, this.maxSnapshots, this.ids := currentID, activeID, maxSnapshots, ids;
    }

    /** The next ID: without an active snapshot it is 1 whatever exists, so it is new exactly if there
        is an active snapshot or no snapshot 1. */
    method ComputeNewID(listOk: bool) returns (id: Option<nat>)
      ensures id.None? <==> activeID != 0 && (!listOk || ids == {})
      ensures id.Some? ==> id.value == NewId(activeID, ids)
      ensures id.Some? && activeID == 0 ==> id.value == 1
      ensures id.Some? && activeID != 0 ==>
        (forall d :: d in ids ==> d < id.value) && id.value >= 1 && id.value - 1 in ids
      ensures id.Some? ==> (id.value !in ids <==> activeID != 0 || 1 !in ids)
    {
      if activeID == 0 { return Some(1); }
      if !listOk { return None; }
      var list := Ascending(ids);
      if |list| == 0 { return None; }
      var max := 0;
      for i := 0 to |list|
        invariant (max == 0 || max in ids) && forall j :: 0 <= j < i ==> list[j] <= max
      {
        if list[i] > max { max := list[i]; }
      }
      forall d | d in ids ensures d <= max {
        var j :| 0 <= j < |list| && list[j] == d;
      }
      return Some(max + 1);
    }

    /** Deletes the subvolume and then its folder. */
    method DeleteSnapshot(id: nat, subvolumeOk: bool, folderOk: bool) returns (err: bool)
      modifies this
      ensures err <==> id == 0 || id == currentID || !subvolumeOk || !folderOk
      ensures ids == if id != 0 && id != currentID && subvolumeOk then old(ids) - {id} else old(ids)
    {
      if id == 0 || id == currentID { return true; }
      if !subvolumeOk { return true; }
      ids := ids - {id};
      return !folderOk;
    }

    /** Deletes the oldest snapshots down to the maximum, stopping at the booted one or at the first
        failure. `subvolume` and `folder` are the IDs whose deletion fails. */
    method SnapshotsCleanup(listOk: bool, subvolume: set<nat>, folder: set<nat>) returns (err: bool)
      requires 0 !in ids
      modifies this
      ensures Survivors(old(ids), currentID, maxSnapshots) <= ids <= old(ids)
      ensures forall x, y :: x in old(ids) && x !in ids && y in ids ==> x < y
      ensures var kept := Survivors(old(ids), currentID, maxSnapshots);
        var failing := (subvolume + folder) * (old(ids) - kept);
        && (err <==> !listOk || failing != {})
        && (!err ==> ids == kept)
        && (!listOk ==> ids == old(ids))
        && (listOk && failing != {} ==> exists b :: IsLeast(b, failing) && ids == StoppedAt(old(ids), b, subvolume))
    {
      SurvivorsAreOld(ids, currentID, maxSnapshots);
      if !listOk { return true; }
      var list := Ascending(ids);
      assert ids == Elements(list);
      ghost var at;
      err, at := DeletePrefix(list, subvolume, folder);
      ghost var k := if err && list[at] !in subvolume then at + 1 else at;
      PrefixSurvives(old(ids), list, k, currentID, maxSnapshots);
      PrefixIsOlder(old(ids), list, k);
      if err {
        StopIsLeast(old(ids), list, at, currentID, maxSnapshots, subvolume, folder);
      } else {
        NoneFails(old(ids), list, at, subvolume + folder);
      }
    }

    /** The deletion loop over the sorted list; `at` is where it stopped. */
    method DeletePrefix(list: seq<nat>, subvolume: set<nat>, folder: set<nat>) returns (err: bool, ghost at: nat)
      requires Increasing(list) && ids == Elements(list) && 0 !in ids
      modifies this
      ensures at <= |list| && (at > 0 ==> at <= |list| - maxSnapshots)
      ensures forall j :: 0 <= j < at ==> list[j] != currentID && list[j] !in subvolume + folder
      ensures if err then
          && at < |list| - maxSnapshots && list[at] != currentID && list[at] in subvolume + folder
          && ids == Elements(list[if list[at] in subvolume then at else at + 1..])
        else
          ids == Elements(list[at..]) && (at < |list| - maxSnapshots ==> list[at] == currentID)
    {
      var snapsToDelete := |list| - maxSnapshots;
      var i := 0;
      assert list[0..] == list;
      while i < snapsToDelete
        invariant 0 <= i <= |list| && (i > 0 ==> i <= snapsToDelete) && ids == Elements(list[i..])
        invariant forall j :: 0 <= j < i ==> list[j] != currentID && list[j] !in subvolume + folder
      {
        if list[i] == currentID { return false, i; }
        assert list[i] in old(ids);
        DropFirst(list, i);
        err := DeleteSnapshot(list[i], list[i] !in subvolume, list[i] !in folder);
        if err { return true, i; }
        i := i + 1;
      }
      return false, i;
    }
  }

  /** What the loop went past did not fail, and the rest survives. */
  lemma NoneFails(ids: set<nat>, list: seq<nat>, at: nat, bad: set<nat>)
    requires Lists(list, ids) && Increasing(list) && at <= |list| && forall j :: 0 <= j < at ==> list[j] !in bad
    ensures bad * (ids - Elements(list[at..])) == {}
  {
    SuffixIsRest(list, ids, at);
  }

  lemma SuffixIsNewer(ids: set<nat>, list: seq<nat>, i: nat)
    requires Lists(list, ids) && Increasing(list) && i < |list|
    ensures Elements(list[i..]) == set d | d in ids && d >= list[i]
    ensures Elements(list[i + 1..]) == set d | d in ids && d > list[i]
  {
    forall d ensures d in Elements(list[i..]) <==> d in ids && d >= list[i] {
      if d in ids && d >= list[i] {
        var k :| 0 <= k < |list| && list[k] == d;
        InSuffix(list, i, k);
      }
    }
    DropFirst(list, i);
  }

  /** The loop stops with an error at the oldest of the snapshots to be deleted that cannot be. */
  lemma StopIsLeast(
    ids: set<nat>, list: seq<nat>, at: nat, current: nat, max: nat,
    subvolume: set<nat>, folder: set<nat>)
    requires Lists(list, ids) && Increasing(list) &&
      at < |list| - max && list[at] != current && list[at] in subvolume + folder
    requires forall j :: 0 <= j < at ==> list[j] != current && list[j] !in subvolume + folder
    ensures IsLeast(list[at], (subvolume + folder) * (ids - Survivors(ids, current, max)))
    ensures Elements(list[if list[at] in subvolume then at else at + 1..]) == StoppedAt(ids, list[at], subvolume)
  {
    var doomed := ids - Survivors(ids, current, max);
    assert list[at] in doomed by { SurvivesAt(ids, list, at, at + 1, current, max); }
    FirstIsLeast(list, at, subvolume + folder, doomed);
    SuffixIsNewer(ids, list, at);
  }

  lemma FirstIsLeast(list: seq<nat>, at: nat, bad: set<nat>, among: set<nat>)
    requires Increasing(list) && at < |list| && list[at] in bad && list[at] in among
    requires (forall j :: 0 <= j < at ==> list[j] !in bad) && forall x :: x in among ==> x in list
    ensures IsLeast(list[at], bad * among)
  {
    forall x | x in bad * among ensures list[at] <= x {
      var k :| 0 <= k < |list| && list[k] == x;
      assert k >= at;
    }
  }

  lemma DropFirst(list: seq<nat>, i: nat)
    requires Increasing(list) && i < |list|
    ensures Elements(list[i..]) - {list[i]} == Elements(list[i + 1..])
  {
    assert list[i..] == [list[i]] + list[i + 1..];
    assert list[i] !in list[i + 1..];
  }

  lemma SurvivorsAreOld(ids: set<nat>, current: nat, max: nat)
    ensures Survivors(ids, current, max) <= ids
  {
  }

  /** Everything before position `k` of the sorted list is older than everything after. */
  lemma PrefixIsOlder(ids: set<nat>, list: seq<nat>, k: nat)
    requires Lists(list, ids) && Increasing(list) && k <= |list|
    ensures Elements(list[k..]) <= ids
    ensures forall x, y :: x in ids && x !in Elements(list[k..]) && y in Elements(list[k..]) ==> x < y
  {
    SuffixIsRest(list, ids, k);
    forall x, y | x in ids && x !in Elements(list[k..]) && y in Elements(list[k..]) ensures x < y {
      assert x in list[..k];
    }
  }

  /** An element after position `k` survives if the loop ended there by itself; one before does not. */
  lemma SurvivesAt(ids: set<nat>, list: seq<nat>, i: nat, k: nat, current: nat, max: nat)
    requires Lists(list, ids) && Increasing(list) && i < |list| && k <= |list| && (k > 0 ==> k <= |list| - max)
    requires forall j :: 0 <= j < k ==> list[j] != current
    ensures i < k ==> !Survives(ids, list[i], current, max)
    ensures i >= k && (k < |list| - max ==> list[k] == current) ==> Survives(ids, list[i], current, max)
  {
    NewerAt(ids, list, i);
    if i < k && current in ids {
      var c :| 0 <= c < |list| && list[c] == current;
      assert c >= k;
    }
  }

  /** What is left of the sorted list contains the survivors, and is them if the loop ended by itself. */
  lemma PrefixSurvives(ids: set<nat>, list: seq<nat>, k: nat, current: nat, max: nat)
    requires Lists(list, ids) && Increasing(list) && k <= |list| && (k > 0 ==> k <= |list| - max)
    requires forall j :: 0 <= j < k ==> list[j] != current
    ensures Survivors(ids, current, max) <= Elements(list[k..])
    ensures (k < |list| - max ==> list[k] == current) ==> Elements(list[k..]) == Survivors(ids, current, max)
  {
    forall x | x in Survivors(ids, current, max) ensures x in Elements(list[k..]) {
      var i :| 0 <= i < |list| && list[i] == x;
      SurvivesAt(ids, list, i, k, current, max);
      InSuffix(list, k, i);
    }
    if k < |list| - max ==> list[k] == current { SuffixSurvives(ids, list, k, current, max); }
  }

  lemma InSuffix(list: seq<nat>, k: nat, i: nat)
    requires k <= i < |list|
    ensures list[i] in list[k..]
  {
    assert list[k..][i - k] == list[i];
  }

  lemma FromSuffix(list: seq<nat>, k: nat, x: nat) returns (i: nat)
    requires k <= |list| && x in list[k..]
    ensures k <= i < |list| && list[i] == x
  {
    var j :| 0 <= j < |list[k..]| && list[k..][j] == x;
    i := k + j;
  }

  lemma SuffixSurvives(ids: set<nat>, list: seq<nat>, k: nat, current: nat, max: nat)
    requires Lists(list, ids) && Increasing(list) && k <= |list| && (k > 0 ==> k <= |list| - max)
    requires (forall j :: 0 <= j < k ==> list[j] != current) && (k < |list| - max ==> list[k] == current)
    ensures Elements(list[k..]) <= Survivors(ids, current, max)
  {
    forall x | x in Elements(list[k..]) ensures x in ids && Survives(ids, x, current, max) {
      var i := FromSuffix(list, k, x);
      assert x in list;
      SurvivesAt(ids, list, i, k, current, max);
    }
  }

  ghost function From(ids: set<nat>, id: nat): set<nat>
  {
    set d | d in ids && d >= id
  }

  lemma FromCount(ids: set<nat>, id: nat)
    requires id in ids
    ensures |From(ids, id)| == 1 + Newer(ids, id)
  {
    assert From(ids, id) == {id} + NewerSet(ids, id);
  }

  lemma SurvivorCount(ids: set<nat>, k: nat, current: nat, max: nat)
    requires var list := Ascending(ids);
      && k <= |list| && (k > 0 ==> k <= |list| - max)
      && (forall j :: 0 <= j < k ==> list[j] != current) && (k < |list| - max ==> list[k] == current)
    ensures |Survivors(ids, current, max)| == |ids| - k
  {
    PrefixSurvives(ids, Ascending(ids), k, current, max);
    ElementCount(Ascending(ids)[k..]);
  }

  /** A full clean-up leaves the maximum, or everything from the booted snapshot on if that is more. */
  lemma CleanupCount(ids: set<nat>, current: nat, max: nat)
    ensures var limit := if |ids| <= max then |ids| else max;
      |Survivors(ids, current, max)| ==
        if current in ids && |From(ids, current)| > limit then |From(ids, current)| else limit
  {
    var list := Ascending(ids);
    var m := if |ids| <= max then 0 else |ids| - max;
    if current in ids {
      var c :| 0 <= c < |list| && list[c] == current;
      FromCount(ids, current);
      NewerAt(ids, list, c);
      SurvivorCount(ids, if c < m then c else m, current, max);
    } else {
      SurvivorCount(ids, m, current, max);
    }
  }

  /** A new snapshot survives the clean-up that follows exactly if its ID was computed from an active
      snapshot, or it is still among the newest, or it is the booted one. */
  lemma NewIdSurvives(ids: set<nat>, activeID: nat, current: nat, max: nat)
    requires max >= 1 && 0 !in ids
    ensures NewId(activeID, ids) in Survivors(ids + {NewId(activeID, ids)}, current, max)
       <==> activeID != 0 || Newer(ids, 1) < max || current == 1
  {
    var id := NewId(activeID, ids);
    if activeID != 0 {
      assert NewerSet(ids + {id}, id) == {};
    } else {
      assert NewerSet(ids + {1}, 1) == NewerSet(ids, 1);
    }
  }

  /** Snapshots 5 and 6 left without an active one: a new snapshot, numbered 1, is deleted right away. */
  lemma NewIdLost()
    ensures NewId(0, {5, 6}) !in Survivors({5, 6} + {NewId(0, {5, 6})}, 0, 2)
  {
    NewIdSurvives({5, 6}, 0, 0, 2);
    assert NewerSet({5, 6}, 1) == {5, 6};
  }
}

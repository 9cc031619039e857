/** The bind mounts of a chroot environment. The list the object keeps is compared with the
    mounts that are really there, for every pattern of failing calls. */
module Chroots {
  import opened Basics

  datatype Path = Path(name: string)

  /** The elements of `s` whose position is in `at`, in order. */
  function Pick(s: seq<Path>, at: set<nat>): seq<Path>
  {
    if s == [] then []
    else Pick(s[..|s| - 1], at) + (if |s| - 1 in at then [s[|s| - 1]] else [])
  }

  /** Closing works through the active mounts from the last to the first and keeps those that
      could not be unmounted, the last one first. */
  function Left(active: seq<Path>, stuck: set<nat>): seq<Path>
  {
    Rev(Pick(active, stuck))
  }

  class Chroot {
    const points: seq<Path>          // mount points of the default and the extra binds, in order
    var activeMounts: seq<Path>
    var mounted: multiset<Path>      // the binds really in place under the chroot
    ghost var attempts: seq<Path>    // unmount calls made, in order

    /** The list is what is mounted. */
    ghost predicate Accurate()
      reads this
    {
      mounted == multiset(activeMounts)
    }

    constructor (points: seq<Path>)
      ensures Accurate() && activeMounts == [] && this.points == points && attempts == []
    {
      this.points, activeMounts, mounted, attempts := points, [], multiset{}, [];
    }

    /** Mounts the points in order; `bad` are those whose directory or bind fails, `stuck` the
        positions that cannot be unmounted again when that makes Prepare give up. */
    method Prepare(bad: set<nat>, stuck: set<nat>) returns (err: bool)
      requires Accurate()
      modifies this
      ensures Accurate()
      ensures err <==> old(activeMounts) != [] || exists i :: 0 <= i < |points| && i in bad
      ensures !err ==> activeMounts == points
      ensures old(activeMounts) != [] ==> activeMounts == old(activeMounts) && attempts == old(attempts)
      ensures err && old(activeMounts) == [] ==>
        exists n :: 0 <= n < |points| && n in bad && (forall i :: 0 <= i < n ==> i !in bad)
          && activeMounts == Left(points[..n], stuck) && attempts == old(attempts) + Rev(points[..n])
    {
      if activeMounts != [] { return true; }
      for k := 0 to |points|
        invariant Accurate() && activeMounts == points[..k] && attempts == old(attempts)
        invariant forall i :: 0 <= i < k ==> i !in bad
      {
        if k in bad {
          var _ := Close(stuck);
          return true;
        }
        assert points[..k + 1] == points[..k] + [points[k]];
        mounted := mounted + multiset{points[k]};
        activeMounts := activeMounts + [points[k]];
      }
      return false;
    }

    method Close(stuck: set<nat>) returns (err: bool)
      requires Accurate()
      modifies this
      ensures Accurate()
      ensures activeMounts == Left(old(activeMounts), stuck) && (err <==> activeMounts != [])
      ensures attempts == old(attempts) + Rev(old(activeMounts))
    {
      var failures := [];
      while activeMounts != []
        invariant mounted == multiset(activeMounts) + multiset(failures)
        invariant failures + Left(activeMounts, stuck) == Left(old(activeMounts), stuck)
        invariant attempts + Rev(activeMounts) == old(attempts) + Rev(old(activeMounts))
        decreases |activeMounts|
      {
        failures := CloseOne(stuck, failures);
      }
      if failures != [] { activeMounts := failures; }
      err := failures != [];
    }

    /** Closes, and closes again if something was stuck: what a failed Close keeps is listed backwards, so
        the second one goes through it in the order in which it was mounted. */
    method CloseAgain(stuck: set<nat>, stuckAgain: set<nat>) returns (err: bool)
      requires Accurate()
      modifies this
      ensures Accurate() && (err <==> activeMounts != [])
      ensures attempts == old(attempts) + Rev(old(activeMounts)) + Pick(old(activeMounts), stuck)
      ensures activeMounts == Left(Left(old(activeMounts), stuck), stuckAgain)
    {
      RevTwice(Pick(activeMounts, stuck));
      err := Close(stuck);
      if !err { return; }
      err := Close(stuckAgain);
    }

    /** One turn of the closing loop. */
    method CloseOne(stuck: set<nat>, failures: seq<Path>) returns (failures': seq<Path>)
      requires activeMounts != [] && mounted == multiset(activeMounts) + multiset(failures)
      modifies this
      ensures mounted == multiset(activeMounts) + multiset(failures') && |activeMounts| == old(|activeMounts|) - 1
      ensures failures' + Left(activeMounts, stuck) == failures + old(Left(activeMounts, stuck))
      ensures attempts + Rev(activeMounts) == old(attempts + Rev(activeMounts))
    {
      var n := |activeMounts| - 1;
      var curr := activeMounts[n];
      LeftLast(activeMounts, stuck, failures);
      TakeLast(activeMounts, failures, mounted);
      Regroup(attempts, [curr], Rev(activeMounts[..n]));
      activeMounts, attempts := activeMounts[..n], attempts + [curr];
      if n in stuck {
        failures' := failures + [curr];
      } else {
        mounted := mounted - multiset{curr};
        failures' := failures;
      }
    }
  }

  lemma Regroup(a: seq<Path>, b: seq<Path>, c: seq<Path>)
    ensures (a + b) + c == a + (b + c)
  {
  }

  lemma LeftLast(active: seq<Path>, stuck: set<nat>, failures: seq<Path>)
    requires active != []
    ensures var n := |active| - 1;
      failures + Left(active, stuck)
        == (if n in stuck then failures + [active[n]] else failures) + Left(active[..n], stuck)
  {
    var n := |active| - 1;
    var rest := Pick(active[..n], stuck);
    if n in stuck {
      RevOnto(rest, active[n]);
      Regroup(failures, [active[n]], Left(active[..n], stuck));
    } else {
      assert rest + [] == rest;
    }
  }

  lemma TakeLast(active: seq<Path>, failures: seq<Path>, mounted: multiset<Path>)
    requires active != [] && mounted == multiset(active) + multiset(failures)
    ensures var n := |active| - 1;
      && mounted == multiset(active[..n]) + multiset(failures + [active[n]])
      && mounted - multiset{active[n]} == multiset(active[..n]) + multiset(failures)
  {
    var n := |active| - 1;
    assert active == active[..n] + [active[n]];
  }

  predicate Distinct(s: seq<Path>)
  {
    forall i, j :: 0 <= i < j < |s| ==> s[i] != s[j]
  }

  lemma {:induction false} PickedFrom(s: seq<Path>, at: set<nat>, x: Path)
    requires x in Pick(s, at)
    ensures x in s
  {
    var n := |s| - 1;
    if x in Pick(s[..n], at) { PickedFrom(s[..n], at, x); }
  }

  lemma {:induction false} PickKeepsDistinct(s: seq<Path>, at: set<nat>)
    requires Distinct(s)
    ensures Distinct(Pick(s, at))
  {
    if s != [] {
      var n := |s| - 1;
      var rest := Pick(s[..n], at);
      PickKeepsDistinct(s[..n], at);
      forall i | 0 <= i < |rest| ensures rest[i] != s[n] {
        PickedFrom(s[..n], at, rest[i]);
      }
    }
  }

  /** At least two of the positions are in `at`. */
  ghost predicate TwoIn(at: set<nat>, n: nat)
  {
    exists i, j :: 0 <= i < j < n && i in at && j in at
  }

  lemma {:induction false} PickCount(s: seq<Path>, at: set<nat>)
    ensures |Pick(s, at)| >= 1 <==> exists i :: 0 <= i < |s| && i in at
    ensures |Pick(s, at)| >= 2 <==> TwoIn(at, |s|)
  {
    if s != [] {
      var n := |s| - 1;
      PickCount(s[..n], at);
      if n in at && |Pick(s[..n], at)| >= 1 {
        var i :| 0 <= i < n && i in at;
        assert TwoIn(at, |s|);
      }
    }
  }

  /** The second Close undoes the mounts that were stuck in the first in the order in which they were
      mounted. For distinct mount points that is the reverse order it should be exactly when at most one
      was stuck. */
  lemma RetryOrder(active: seq<Path>, stuck: set<nat>)
    requires Distinct(active)
    ensures Pick(active, stuck) == Rev(Pick(active, stuck)) <==> !TwoIn(stuck, |active|)
  {
    PickCount(active, stuck);
    PickKeepsDistinct(active, stuck);
    Palindrome(Pick(active, stuck));
  }

  lemma Palindrome(s: seq<Path>)
    requires Distinct(s)
    ensures s == Rev(s) <==> |s| <= 1
  {
    if |s| >= 2 {
      assert Rev(s)[0] == s[|s| - 1];
    } else if |s| == 1 {
      assert s[..0] == [];
    }
  }
}

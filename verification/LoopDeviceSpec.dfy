/** What the loop-device snapshotter does to the state partition, operation by operation.
    Every system call that can fail is a `Step`; an operation takes the set of its steps
    that fail. A failed step changes nothing. */
module LoopDeviceSpec {
  import opened Basics
  import opened SnapshotIds

  /** The `active` symbolic link, by the snapshot ID in its target. */
  datatype Link = NoLink | To(id: nat)

  /** The bootloader variables a transaction rewrites. */
  datatype Grub = Grub(passives: seq<nat>, fallback: seq<nat>)

  /** `images` are the directories whose snapshot.img is complete; `bound` is the number of work
      directories of transactions that are bind mounted, one on top of the other. */
  datatype Store = Store(dirs: set<nat>, images: set<nat>, link: Link, grub: Grub, bound: nat)

  datatype Snapshot = Snapshot(id: nat, inProgress: bool)

  datatype Step =
    | ListDir | Losetup | ReadLink
    | MakeSnapDir | MakeWorkDir | MakeMountPoint | Bind
    | Unbind | MakeImage | RemoveWorkDir
    | Unlink | Symlink | Relink
    | RemoveSnapDir | GrubEnv

  /** Failing steps of one CloseTransaction: its own, those of retention (`drop` per deleted ID),
      of the bootloader update, and of the abort it runs when it fails. */
  datatype CloseFaults = CloseFaults(
    steps: set<Step>, retain: set<Step>, drop: nat -> set<Step>, grub: set<Step>, abort: set<Step>)

  predicate WellFormed(s: Store)
  {
    s.images <= s.dirs && 0 !in s.dirs
  }

  /** The active snapshot: 0 without a link, -1 (an error) when the link does not lead to an image. */
  function ActiveId(s: Store): int
  {
    match s.link
    case NoLink => 0
    case To(a) => if a in s.images then a else -1
  }

  function WithoutSnapshot(s: Store, id: nat): Store
  {
    s.(dirs := s.dirs - {id}, images := s.images - {id})
  }

  // ---- StartTransaction ----

  predicate QueriesFail(s: Store, faults: set<Step>)
  {
    ListDir in faults || (s.dirs != {} && Losetup in faults) || ReadLink in faults || ActiveId(s) < 0
  }

  /** New store, whether the call failed. */
  function Start(s: Store, faults: set<Step>): (Store, bool)
  {
    if QueriesFail(s, faults) || MakeSnapDir in faults then (s, true)
    else
      var made := s.(dirs := s.dirs + {NextId(s.dirs)});
      if MakeWorkDir in faults || MakeMountPoint in faults || Bind in faults then
        (if RemoveSnapDir in faults then made else s, true)
      else
        (made.(bound := s.bound + 1), false)
  }

  /** The snapshots can be listed, each checked for being booted, and the link read and followed. */
  predicate Answered(s: Store, faults: set<Step>)
  {
    && ListDir !in faults && ReadLink !in faults && (s.dirs == {} || Losetup !in faults)
    && (s.link.To? ==> s.link.id in s.images)
  }

  /** The calls StartTransaction needs, and all it changes: one directory, numbered above all others, and
      one bind mount; the directory stays after an error exactly if it was made and cannot be removed. */
  lemma StartExactly(s: Store, faults: set<Step>)
    ensures var (r, err) := Start(s, faults);
      && (!err <==>
            && Answered(s, faults) && MakeSnapDir !in faults && MakeWorkDir !in faults
            && MakeMountPoint !in faults && Bind !in faults)
      && r == s.(dirs := r.dirs, bound := if err then s.bound else s.bound + 1)
      && r.dirs == if !err || (Answered(s, faults) && MakeSnapDir !in faults && RemoveSnapDir in faults)
                   then s.dirs + {NextId(s.dirs)} else s.dirs
  {
  }

  // ---- CloseTransactionOnError ----

  function Unmounted(s: Store, faults: set<Step>): (Store, bool)
  {
    if s.bound > 0 && Unbind !in faults then (s.(bound := s.bound - 1), false) else (s, true)
  }

  function Abort(s: Store, snap: Snapshot, faults: set<Step>): (Store, bool)
  {
    var (s1, e1) := if snap.inProgress then Unmounted(s, faults) else (s, false);
    if RemoveSnapDir in faults then (s1, true) else (WithoutSnapshot(s1, snap.id), e1)
  }

  /** The directory goes even if the unmount fails; an error means that one of the two did not work. */
  lemma AbortExactly(s: Store, snap: Snapshot, faults: set<Step>)
    ensures var (r, err) := Abort(s, snap, faults);
      && r == s.(dirs := r.dirs, images := r.images, bound := r.bound)
      && (RemoveSnapDir in faults ==> r.dirs == s.dirs && r.images == s.images)
      && (RemoveSnapDir !in faults ==> r.dirs == s.dirs - {snap.id} && r.images == s.images - {snap.id})
      && (r.bound == s.bound - 1 <==> snap.inProgress && s.bound > 0 && Unbind !in faults)
      && (r.bound == s.bound || r.bound == s.bound - 1)
      && (err <==> RemoveSnapDir in faults || (snap.inProgress && r.bound == s.bound))
  {
  }

  // ---- DeleteSnapshot and retention ----

  /** `stale` is the active ID remembered since the transaction started. */
  function Delete(s: Store, booted: set<nat>, stale: nat, id: nat, faults: set<Step>): (Store, bool)
  {
    if Losetup in faults || id in booted || ListDir in faults then (s, true)
    else if id !in s.dirs then (s, false)
    else if stale == id && (Unlink in faults || s.link.NoLink?) then (s, true)
    else
      var s1 := if stale == id then s.(link := NoLink) else s;
      if RemoveSnapDir in faults then (s1, true) else (WithoutSnapshot(s1, id), false)
  }

  /** A deletion reports an error exactly if the snapshot is still there afterwards, or is booted, or that
      could not be found out. Other snapshots are not touched, nor is anything on a booted one. */
  lemma DeleteExactly(s: Store, booted: set<nat>, stale: nat, id: nat, faults: set<Step>)
    ensures var (r, err) := Delete(s, booted, stale, id, faults);
      && (err <==> id in r.dirs || id in booted || Losetup in faults || ListDir in faults)
      && (err ==> r.dirs == s.dirs && r.images == s.images)
      && (!err && id in s.dirs ==> r.dirs == s.dirs - {id} && r.images == s.images - {id})
      && (!err && id !in s.dirs ==> r == s)
      && (id in booted ==> r == s)
      && r == s.(dirs := r.dirs, images := r.images, link := r.link)
      && (r.link != s.link ==> id == stale && id in s.dirs && id !in booted && r.link == NoLink)
      && (!err && id == stale && id in s.dirs ==> r.link == NoLink)
  {
  }

  /** Deleting `id` gets as far as removing its directory. */
  predicate Deletable(s: Store, booted: set<nat>, stale: nat, id: nat, faults: set<Step>)
  {
    && id in s.dirs && id !in booted && Losetup !in faults && ListDir !in faults
    && (id == stale ==> Unlink !in faults && s.link.To?)
  }

  /** The net effect of trying to delete every one of `victims`, in any order. */
  ghost function Drop(s: Store, booted: set<nat>, stale: nat, victims: set<nat>, drop: nat -> set<Step>): Store
  {
    var gone := set v | v in victims && Deletable(s, booted, stale, v, drop(v)) && RemoveSnapDir !in drop(v);
    s.(dirs := s.dirs - gone, images := s.images - gone,
       link := if stale in victims && Deletable(s, booted, stale, stale, drop(stale)) then NoLink else s.link)
  }

  /** Deleting one more snapshot extends the victims by it. */
  lemma DropOneMore(s: Store, booted: set<nat>, stale: nat, victims: set<nat>, drop: nat -> set<Step>, v: nat)
    requires v !in victims
    ensures Delete(Drop(s, booted, stale, victims, drop), booted, stale, v, drop(v)).0
         == Drop(s, booted, stale, victims + {v}, drop)
  {
    var before, after := Drop(s, booted, stale, victims, drop), Drop(s, booted, stale, victims + {v}, drop);
    var deleted := Delete(before, booted, stale, v, drop(v)).0;
    assert deleted.dirs == after.dirs;
    assert deleted.images == after.images;
  }

  predicate ListFails(s: Store, faults: set<Step>)
  {
    ListDir in faults || ReadLink in faults || ActiveId(s) < 0
  }

  function Passives(s: Store): set<nat>
  {
    set d | d in s.dirs && d != ActiveId(s)
  }

  ghost function Retain(
    s: Store, booted: set<nat>, stale: nat, max: int, faults: set<Step>, drop: nat -> set<Step>): Store
  {
    if ListFails(s, faults) then s
    else Drop(s, booted, stale, Victims(Passives(s), max), drop)
  }

  // ---- setBootloader ----

  function Without(r: seq<nat>, id: int): seq<nat>
  {
    if r == [] then []
    else if r[0] == id then Without(r[1..], id)
    else [r[0]] + Without(r[1..], id)
  }

  function Upto(n: nat): (r: seq<nat>)
    ensures |r| == n && forall i :: 0 <= i < n ==> r[i] == i
  {
    seq(n, i => i)
  }

  function PassiveList(s: Store): seq<nat>
  {
    Without(Listing(s.dirs), ActiveId(s))
  }

  function GrubFor(passives: seq<nat>): Grub
  {
    Grub(Rev(passives), Upto(|passives| + 2))
  }

  function SetBootloader(s: Store, faults: set<Step>): Store
  {
    if ListFails(s, faults) || GrubEnv in faults then s else s.(grub := GrubFor(PassiveList(s)))
  }

  // ---- CloseTransaction ----

  /** Replacing the link; on failure the old target is linked again if possible. */
  function SwitchLink(s: Store, id: nat, stale: nat, faults: set<Step>): (Store, bool)
  {
    var bare := if Unlink in faults then s else s.(link := NoLink);
    if Symlink !in faults && bare.link.NoLink? then (bare.(link := To(id)), false)
    else if Relink !in faults && bare.link.NoLink? then (bare.(link := To(stale)), true)
    else (bare, true)
  }

  /** The steps up to and including the link switch. */
  function Commit(s: Store, snap: Snapshot, stale: nat, faults: set<Step>): (Store, bool)
  {
    if !snap.inProgress then (s, true) else
    var (s1, e1) := Unmounted(s, faults);
    if e1 || MakeImage in faults then (s1, true) else
    var s2 := s1.(images := s1.images + {snap.id});
    if RemoveWorkDir in faults then (s2, true) else
    SwitchLink(s2, snap.id, stale, faults)
  }

  ghost function Close(s: Store, snap: Snapshot, booted: set<nat>, stale: nat, max: int, f: CloseFaults): (Store, bool)
  {
    var (s1, err) := Commit(s, snap, stale, f.steps);
    if err then (Abort(s1, snap, f.abort).0, true)
    else (SetBootloader(Retain(s1, booted, stale, max, f.retain, f.drop), f.grub), false)
  }

  // ---- What a committed transaction leaves behind ----

  /** The store right after the link switch of a transaction that created `id`. */
  predicate JustSwitched(s: Store, id: nat)
  {
    WellFormed(s) && id in s.images && s.link == To(id)
  }

  /** Retention gets to delete `stale`, one of the `passives`: their list can be read, at least
      `max - 1` of them are newer, it is not booted, and the calls of its deletion, of which `drop`
      fail, go as far as removing the link. */
  ghost predicate Retires(
    passives: set<nat>, booted: set<nat>, stale: nat, max: int, faults: set<Step>, drop: set<Step>)
  {
    && ListDir !in faults && ReadLink !in faults
    && stale in passives && Newer(passives, stale) >= max - 1
    && stale !in booted && drop !! {Losetup, ListDir, Unlink}
  }

  /** Retention takes the new link away exactly when it deletes, as just another passive snapshot,
      the one that was active when the transaction started. */
  lemma RetentionKeepsLink(
    s: Store, id: nat, booted: set<nat>, stale: nat, max: int, faults: set<Step>, drop: nat -> set<Step>)
    requires JustSwitched(s, id)
    ensures Retain(s, booted, stale, max, faults, drop).link
         == if Retires(s.dirs - {id}, booted, stale, max, faults, drop(stale)) then NoLink else To(id)
  {
    assert Passives(s) == s.dirs - {id};
  }

  /** Whatever fails: the link afterwards is the new one or none at all, and the new image stays. */
  lemma RetentionIsSafe(
    s: Store, id: nat, booted: set<nat>, stale: nat, max: int, faults: set<Step>, drop: nat -> set<Step>)
    requires JustSwitched(s, id) && booted <= s.images
    ensures var r := Retain(s, booted, stale, max, faults, drop);
      && WellFormed(r) && id in r.images && r.dirs <= s.dirs && booted <= r.images
      && (r.link == To(id) || (r.link == NoLink && stale in s.dirs - {id} - booted))
  {
  }

  /** What retention removes, whatever fails: of the older snapshots those that are not booted, have at
      least `max - 1` newer ones and whose calls all work. Images go with their directories. */
  lemma RetentionRemoves(
    s: Store, id: nat, booted: set<nat>, stale: nat, max: int, faults: set<Step>, drop: nat -> set<Step>)
    requires JustSwitched(s, id)
    ensures var r, older := Retain(s, booted, stale, max, faults, drop), s.dirs - {id};
      && (forall d :: d in s.dirs ==>
            (d !in r.dirs <==>
              && d != id && d !in booted && Newer(older, d) >= max - 1 && faults !! {ListDir, ReadLink}
              && drop(d) !! {Losetup, ListDir, RemoveSnapDir} && (d == stale ==> Unlink !in drop(d))))
      && r.dirs <= s.dirs && r.images == s.images * r.dirs
      && r == s.(dirs := r.dirs, images := r.images, link := r.link)
  {
    assert Passives(s) == s.dirs - {id};
  }

  /** With the previous active snapshot the newest of the older ones and room for two,
      the link survives every failure. */
  lemma RetentionKeepsNewest(
    s: Store, id: nat, booted: set<nat>, stale: nat, max: int, faults: set<Step>, drop: nat -> set<Step>)
    requires JustSwitched(s, id) && max >= 2
    requires stale in s.dirs ==> forall d :: d in s.dirs && d != id ==> d <= stale
    ensures Retain(s, booted, stale, max, faults, drop).link == To(id)
  {
    RetentionKeepsLink(s, id, booted, stale, max, faults, drop);
    if stale in s.dirs {
      assert NewerSet(s.dirs - {id}, stale) == {};
    }
  }

  lemma RetentionParts(s: Store, id: nat, booted: set<nat>, stale: nat, max: int, drop: nat -> set<Step>)
    requires JustSwitched(s, id) && forall d :: drop(d) == {}
    ensures var older := s.dirs - {id};
      Retain(s, booted, stale, max, {}, drop).dirs
        == {id} + (older - Victims(older, max)) + Victims(older, max) * booted
  {
    var older, r := s.dirs - {id}, Retain(s, booted, stale, max, {}, drop);
    assert Passives(s) == older;
    forall d ensures d in r.dirs <==> d == id || d in older - Victims(older, max) || d in Victims(older, max) * booted {
      assert drop(d) == {};
    }
  }

  lemma SizeOfParts(id: nat, kept: set<nat>, spared: set<nat>)
    requires id !in kept && id !in spared && kept !! spared
    ensures |{id} + kept + spared| == 1 + |kept| + |spared|
  {
    assert {id} !! kept && {id} + kept !! spared;
  }

  /** When every removal works, what survives is the new snapshot, the `max - 1` newest older
      ones and the booted ones; the limit is exceeded only by booted snapshots retention gave up on. */
  lemma RetentionIsExact(s: Store, id: nat, booted: set<nat>, stale: nat, max: int, drop: nat -> set<Step>)
    requires JustSwitched(s, id) && forall d :: drop(d) == {}
    ensures var older, dirs := s.dirs - {id}, Retain(s, booted, stale, max, {}, drop).dirs;
      && (forall d :: d in dirs <==> d == id || (d in older && (Newer(older, d) < max - 1 || d in booted)))
      && (max >= 1 ==>
            |dirs| == (if |older| < max then |older| + 1 else max) + |Victims(older, max) * booted|)
  {
    var older := s.dirs - {id};
    RetentionParts(s, id, booted, stale, max, drop);
    SizeOfParts(id, older - Victims(older, max), Victims(older, max) * booted);
    if max >= 1 { KeptCount(older, max); }
  }

  lemma {:induction false} WithoutLists(r: seq<nat>, ids: set<nat>, id: int)
    requires Lists(r, ids)
    ensures Lists(Without(r, id), set d | d in ids && d != id)
  {
    if r != [] {
      var rest, keep := r[1..], set d | d in ids && d != id;
      assert Lists(rest, ids - {r[0]}) by {
        assert forall i, j :: 0 <= i < j < |rest| ==> rest[i] == r[i + 1] && rest[j] == r[j + 1];
      }
      WithoutLists(rest, ids - {r[0]}, id);
      var tail := Without(rest, id);
      assert Lists(tail, keep - {r[0]}) by {
        assert (set d | d in ids - {r[0]} && d != id) == keep - {r[0]};
      }
      if r[0] != id {
        PrependFresh(r[0], tail, keep);
      } else {
        assert keep - {r[0]} == keep;
      }
    }
  }

  lemma PrependFresh(x: nat, r: seq<nat>, ids: set<nat>)
    requires x in ids && Lists(r, ids - {x})
    ensures Lists([x] + r, ids) && Lists(r + [x], ids)
  {
    forall y ensures y in [x] + r <==> y in ids {
      assert y in [x] + r <==> y == x || y in r;
    }
    forall y ensures y in r + [x] <==> y in ids {
      assert y in r + [x] <==> y == x || y in r;
    }
  }

  lemma {:induction false} RevLists(r: seq<nat>, ids: set<nat>)
    requires Lists(r, ids)
    ensures Lists(Rev(r), ids) && |Rev(r)| == |r|
  {
    if r != [] {
      var n := |r| - 1;
      var rest, others := r[..n], ids - {r[n]};
      assert Lists(rest, others) by {
        assert r == rest + [r[n]];
      }
      RevLists(rest, others);
      PrependFresh(r[n], Rev(rest), ids);
    }
  }

  lemma {:induction false} WithoutByName(r: seq<nat>, id: int)
    requires ByName(r)
    ensures ByName(Without(r, id))
  {
    if r != [] {
      var rest := r[1..];
      WithoutByName(rest, id);
      if r[0] != id {
        forall y | y in Without(rest, id) ensures NameBefore(Name(r[0]), Name(y)) {
          WithoutFrom(rest, id, y);
        }
        PrependByName(r[0], Without(rest, id));
      }
    }
  }

  lemma {:induction false} WithoutFrom(r: seq<nat>, id: int, x: nat)
    requires x in Without(r, id)
    ensures x in r
  {
    if r[0] == id || x != r[0] { WithoutFrom(r[1..], id, x); }
  }

  /** Ordered by name from the last to the first. */
  ghost predicate FromLast(r: seq<nat>)
  {
    forall i, j :: 0 <= i < j < |r| ==> NameBefore(Name(r[j]), Name(r[i]))
  }

  lemma RevFromLast(r: seq<nat>)
    requires ByName(r)
    ensures FromLast(Rev(r))
  {
    forall i, j | 0 <= i < j < |Rev(r)| ensures NameBefore(Name(Rev(r)[j]), Name(Rev(r)[i])) {
      if r != [] {
        RevAt(r, 0);
        RevAt(r, i);
        RevAt(r, j);
      }
    }
  }

  /** What the bootloader should be told: each of the snapshots once, the one whose name is last first, and
      as fallbacks the numbers of the active, the passive and the recovery entry. */
  ghost predicate Offers(g: Grub, passives: set<nat>)
  {
    && Lists(g.passives, passives) && FromLast(g.passives)
    && |g.fallback| == |g.passives| + 2 && forall i :: 0 <= i < |g.fallback| ==> g.fallback[i] == i
  }

  /** The calls of a bootloader update that must work. */
  predicate GrubWorks(faults: set<Step>)
  {
    ListDir !in faults && ReadLink !in faults && GrubEnv !in faults
  }

  lemma GrubOffers(s: Store)
    ensures Offers(GrubFor(PassiveList(s)), Passives(s))
  {
    var r := PassiveList(s);
    WithoutLists(Listing(s.dirs), s.dirs, ActiveId(s));
    WithoutByName(Listing(s.dirs), ActiveId(s));
    assert Lists(r, Passives(s)) && ByName(r);
    RevLists(r, Passives(s));
    RevFromLast(r);
  }

  /** The bootloader is told about every snapshot but the active one, or nothing if a call fails. */
  lemma BootloaderListsPassives(s: Store, faults: set<Step>)
    requires ActiveId(s) >= 0
    ensures var r := SetBootloader(s, faults);
      && r == s.(grub := r.grub)
      && if GrubWorks(faults) then Offers(r.grub, Passives(s)) else r.grub == s.grub
  {
    GrubOffers(s);
  }
}

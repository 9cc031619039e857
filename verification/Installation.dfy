/** Laying out a whole disk: the partitions of an installation, in install order, on a fresh table. */
module Installation {
  import opened Disks
  import opened PartitionOrder

  /** Sum of sizes in MiB. */
  function Total(sizes: seq<nat>): nat
  {
    if sizes == [] then 0 else Total(sizes[..|sizes| - 1]) + sizes[|sizes| - 1]
  }

  lemma {:induction false} TotalGrows(sizes: seq<nat>, i: nat)
    requires i <= |sizes|
    ensures Total(sizes[..i]) <= Total(sizes)
    decreases |sizes|
  {
    if i < |sizes| {
      var n := |sizes| - 1;
      TotalGrows(sizes[..n], i);
      assert sizes[..n][..i] == sizes[..i];
    } else {
      assert sizes[..i] == sizes;
    }
  }

  function Sizes(parts: seq<Partition>): (r: seq<nat>)
    ensures |r| == |parts| && forall i :: 0 <= i < |parts| ==> r[i] == parts[i].size
  {
    seq(|parts|, i requires 0 <= i < |parts| => parts[i].size)
  }

  /** The 1 MiB offset and all sizes fit in the usable sectors, with a sector to spare for a last
      partition that takes the rest. */
  predicate Fits(sizes: seq<nat>, sectorS: nat, usable: nat)
    requires sectorS > 0
  {
    var next := (MIB / sectorS) * (1 + Total(sizes));
    if sizes != [] && sizes[|sizes| - 1] == 0 then next <= usable else next <= usable + 1
  }

  /** Every request has its partition: aligned to 1 MiB, right after the previous ones, with the size
      asked for, or all that is left if it asked for 0. */
  ghost predicate Placed(parts: seq<Part>, sizes: seq<nat>, sectorS: nat, usable: nat)
    requires sectorS > 0
  {
    && |parts| == |sizes|
    && forall i :: 0 <= i < |sizes| ==>
         && parts[i].start * sectorS == MIB * (1 + Total(sizes[..i]))
         && (if sizes[i] == 0 then End(parts[i]) == usable else parts[i].size * sectorS == MIB * sizes[i])
  }

  /** What goes wrong: the new table is not written, or for the partitions with these indices the tool, the
      lookup of the device or the formatting fails. */
  datatype Faults = Faults(table: bool, add: set<nat>, find: set<nat>, format: set<nat>)

  predicate Faulty(f: Faults, i: nat)
  {
    i in f.add || i in f.find || i in f.format
  }

  /** No call fails, only the last request is for the rest of the disk, and all fit. */
  ghost predicate Succeeds(sizes: seq<nat>, f: Faults, sectorS: nat, usable: nat)
    requires sectorS > 0
  {
    && (forall i :: 0 <= i < |sizes| ==> !Faulty(f, i))
    && (forall i :: 0 <= i < |sizes| - 1 ==> sizes[i] != 0)
    && (sizes != [] ==> Fits(sizes, sectorS, usable))
  }

  /** Where the next partition goes once the first `i` are placed: a request for the rest leaves nothing. */
  ghost predicate Ready(parts: seq<Part>, sizes: seq<nat>, i: nat, sectorS: nat, usable: nat)
    requires sectorS > 0 && i <= |sizes|
  {
    && Placed(parts, sizes[..i], sectorS, usable)
    && NextStart(parts, sectorS) ==
         if i > 0 && sizes[i - 1] == 0 then usable + 1 else (MIB / sectorS) * (1 + Total(sizes[..i]))
  }

  /** Adds and formats the partitions one by one until one of them fails. */
  method CreatePartitions(disk: Disk, sizes: seq<nat>, f: Faults) returns (err: bool)
    requires disk.Valid() && disk.parts == []
    modifies disk
    ensures disk.Valid()
    ensures err <==> !Succeeds(sizes, f, disk.sectorS, disk.usable)
    ensures |disk.parts| <= |sizes| && Placed(disk.parts, sizes[..|disk.parts|], disk.sectorS, disk.usable)
    ensures !err ==> Placed(disk.parts, sizes, disk.sectorS, disk.usable)
  {
    assert sizes[..0] == [];
    for i := 0 to |sizes|
      invariant disk.Valid() && Ready(disk.parts, sizes, i, disk.sectorS, disk.usable)
      invariant Succeeds(sizes[..i], f, disk.sectorS, disk.usable)
    {
      err := CreateAndFormatPartition(disk, sizes, i, f);
      SucceedsNext(sizes, i, f, disk.sectorS, disk.usable);
      if err {
        FailsForGood(sizes, i + 1, f, disk.sectorS, disk.usable);
        return;
      }
    }
    assert sizes[..|sizes|] == sizes;
    return false;
  }

  method CreateAndFormatPartition(disk: Disk, sizes: seq<nat>, i: nat, f: Faults) returns (err: bool)
    requires disk.Valid() && i < |sizes| && Ready(disk.parts, sizes, i, disk.sectorS, disk.usable)
    modifies disk
    ensures disk.Valid()
    ensures !err <==> !Faulty(f, i) && (i > 0 ==> sizes[i - 1] != 0) && Fits(sizes[..i + 1], disk.sectorS, disk.usable)
    ensures |disk.parts| <= i + 1 && Placed(disk.parts, sizes[..|disk.parts|], disk.sectorS, disk.usable)
    ensures !err ==> Ready(disk.parts, sizes, i + 1, disk.sectorS, disk.usable)
  {
    var ok := AddNext(disk, sizes, i, i !in f.add);
    if !ok { return true; }
    if i in f.find { return true; }
    return i in f.format;
  }

  method AddNext(disk: Disk, sizes: seq<nat>, i: nat, toolOk: bool) returns (ok: bool)
    requires disk.Valid() && i < |sizes| && Ready(disk.parts, sizes, i, disk.sectorS, disk.usable)
    modifies disk
    ensures disk.Valid()
    ensures ok <==> toolOk && (i > 0 ==> sizes[i - 1] != 0) && Fits(sizes[..i + 1], disk.sectorS, disk.usable)
    ensures if ok then Ready(disk.parts, sizes, i + 1, disk.sectorS, disk.usable) else disk.parts == old(disk.parts)
  {
    ghost var before := disk.parts;
    AddsWhenFits(before, sizes, i, disk.sectorS, disk.usable);
    var r := disk.AddPartition(sizes[i], toolOk);
    ok := r.Added?;
    if ok { ReadyNext(before, disk.parts[i], sizes, i, disk.sectorS, disk.usable); }
  }

  /** The condition under which a partition is added, in terms of the sizes. */
  lemma AddsWhenFits(parts: seq<Part>, sizes: seq<nat>, i: nat, sectorS: nat, usable: nat)
    requires GoodSector(sectorS) && i < |sizes| && Ready(parts, sizes, i, sectorS, usable)
    ensures var start, sectors := NextStart(parts, sectorS), MiBToSectors(sizes[i], sectorS);
      (start + Granted(start, sectors, usable) - 1 <= usable && start <= usable) <==>
      ((i > 0 ==> sizes[i - 1] != 0) && Fits(sizes[..i + 1], sectorS, usable))
  {
    FitsNext(sizes, i, sectorS, usable);
  }

  lemma ReadyNext(parts: seq<Part>, p: Part, sizes: seq<nat>, i: nat, sectorS: nat, usable: nat)
    requires GoodSector(sectorS) && i < |sizes| && Ready(parts, sizes, i, sectorS, usable)
    requires p.start == NextStart(parts, sectorS) && (i > 0 ==> sizes[i - 1] != 0)
    requires p.size == Granted(p.start, MiBToSectors(sizes[i], sectorS), usable)
    ensures Ready(parts + [p], sizes, i + 1, sectorS, usable)
  {
    GrantsRequest(p, sizes, i, sectorS, usable);
    PlacesOneMore(parts, p, sizes, i, sectorS, usable);
  }

  lemma SucceedsNext(sizes: seq<nat>, i: nat, f: Faults, sectorS: nat, usable: nat)
    requires i < |sizes| && sectorS > 0 && Succeeds(sizes[..i], f, sectorS, usable)
    ensures Succeeds(sizes[..i + 1], f, sectorS, usable) <==>
      !Faulty(f, i) && (i > 0 ==> sizes[i - 1] != 0) && Fits(sizes[..i + 1], sectorS, usable)
  {
    var now, next := sizes[..i], sizes[..i + 1];
    assert forall j :: 0 <= j < i ==> next[j] == now[j];
    assert i > 0 ==> next[i - 1] == sizes[i - 1];
    assert Succeeds(next, f, sectorS, usable) ==> !Faulty(f, i);
  }

  lemma FailsForGood(sizes: seq<nat>, i: nat, f: Faults, sectorS: nat, usable: nat)
    requires 0 < i <= |sizes| && GoodSector(sectorS) && !Succeeds(sizes[..i], f, sectorS, usable)
    ensures !Succeeds(sizes, f, sectorS, usable)
  {
    if Succeeds(sizes, f, sectorS, usable) {
      var part := sizes[..i];
      assert forall j :: 0 <= j < i ==> part[j] == sizes[j];
      assert !Fits(part, sectorS, usable);
      StaysTooBig(sizes, i - 1, sectorS, usable);
    }
  }

  lemma GrantsRequest(p: Part, sizes: seq<nat>, i: nat, sectorS: nat, usable: nat)
    requires i < |sizes| && GoodSector(sectorS)
    requires p.start == (MIB / sectorS) * (1 + Total(sizes[..i]))
    requires p.size == Granted(p.start, MiBToSectors(sizes[i], sectorS), usable)
    ensures p.start * sectorS == MIB * (1 + Total(sizes[..i]))
    ensures if sizes[i] == 0 then End(p) == usable else p.size * sectorS == MIB * sizes[i]
    ensures sizes[i] != 0 ==> p.start + p.size == (MIB / sectorS) * (1 + Total(sizes[..i + 1]))
  {
    FitsNext(sizes, i, sectorS, usable);
    WholeSectors(sizes[i], sectorS);
    Step(MIB / sectorS, Total(sizes[..i]), sizes[i], sectorS);
  }

  lemma FitsNext(sizes: seq<nat>, i: nat, sectorS: nat, usable: nat)
    requires i < |sizes| && GoodSector(sectorS)
    ensures Total(sizes[..i + 1]) == Total(sizes[..i]) + sizes[i]
    ensures var start, sectors := (MIB / sectorS) * (1 + Total(sizes[..i])), MiBToSectors(sizes[i], sectorS);
      Fits(sizes[..i + 1], sectorS, usable) <==>
        start + Granted(start, sectors, usable) - 1 <= usable && start <= usable
  {
    var upto := sizes[..i + 1];
    assert upto[..i] == sizes[..i] && upto[i] == sizes[i];
    WholeSectors(sizes[i], sectorS);
    Step(MIB / sectorS, Total(sizes[..i]), sizes[i], sectorS);
  }

  lemma Step(k: nat, total: nat, size: nat, ss: nat)
    requires k * ss == MIB
    ensures k * (1 + total) + size * k == k * (1 + total + size)
    ensures k * (1 + total) * ss == MIB * (1 + total)
  {
    assert k * (1 + total) * ss == (k * ss) * (1 + total);
  }

  lemma StaysTooBig(sizes: seq<nat>, i: nat, sectorS: nat, usable: nat)
    requires i < |sizes| && GoodSector(sectorS) && !Fits(sizes[..i + 1], sectorS, usable)
    requires forall j :: 0 <= j < |sizes| - 1 ==> sizes[j] != 0
    ensures !Fits(sizes, sectorS, usable)
  {
    var k, part := MIB / sectorS, sizes[..i + 1];
    if i + 1 == |sizes| {
      assert part == sizes;
    } else {
      TotalGrows(sizes, i + 1);
      assert k * (1 + Total(part)) <= k * (1 + Total(sizes));
    }
  }

  lemma PlacesOneMore(parts: seq<Part>, p: Part, sizes: seq<nat>, i: nat, sectorS: nat, usable: nat)
    requires i < |sizes| && sectorS > 0 && Placed(parts, sizes[..i], sectorS, usable)
    requires p.start * sectorS == MIB * (1 + Total(sizes[..i]))
    requires if sizes[i] == 0 then End(p) == usable else p.size * sectorS == MIB * sizes[i]
    ensures Placed(parts + [p], sizes[..i + 1], sectorS, usable)
  {
    var all, upto := parts + [p], sizes[..i + 1];
    forall j | 0 <= j < |upto|
      ensures all[j].start * sectorS == MIB * (1 + Total(upto[..j]))
      ensures if upto[j] == 0 then End(all[j]) == usable else all[j].size * sectorS == MIB * upto[j]
    {
      assert upto[..j] == sizes[..j];
      if j < i { assert sizes[..i][..j] == sizes[..j]; }
    }
  }

  /** Puts the partitions of a spec on the disk, in install order. */
  method PartitionDevice(disk: Disk, ep: ElementalPartitions, extra: seq<Partition>, f: Faults) returns (err: bool)
    requires disk.Valid()
    modifies disk
    ensures disk.Valid()
    ensures f.table ==> err && disk.parts == old(disk.parts)
    ensures !f.table ==>
      var sizes := Sizes(InstallOrder(ep, extra, {}));
      && (err <==> !Succeeds(sizes, f, disk.sectorS, disk.usable))
      && |disk.parts| <= |sizes| && Placed(disk.parts, sizes[..|disk.parts|], disk.sectorS, disk.usable)
      && (!err ==> Placed(disk.parts, sizes, disk.sectorS, disk.usable))
  {
    disk.NewPartitionTable(!f.table);
    if f.table { return true; }
    var parts := PartitionsByInstallOrder(ep, extra, {});
    err := CreatePartitions(disk, Sizes(parts), f);
  }

  /** The calls that matter to a list of sizes all work. */
  ghost predicate NoFault(f: Faults, n: nat)
  {
    !f.table && forall i :: 0 <= i < n ==> !Faulty(f, i)
  }

  /** Sanitizing a spec and partitioning a disk for it. If the partitions whose place is fixed have a size,
      an accepted spec gets all its partitions, each once and placed, exactly when they fit and no call
      fails; a request for the rest of the disk is then the last one served. */
  method InstallPartitions(disk: Disk, spec: InstallSpec, newPtr: nat, f: Faults) returns (v: Verdict, err: bool)
    requires disk.Valid()
    modifies disk
    ensures disk.Valid()
    ensures !v.Accepted? ==> err && disk.parts == old(disk.parts)
    ensures v.Accepted? ==>
      var order := InstallOrder(v.parts, spec.extra, {});
      && multiset(order) == multiset(Fixed(v.parts, {})) + multiset(Flexible(v.parts, spec.extra, {}))
      && (spec.firmware == EFI && spec.table == GPT ==> spec.parts.boot.Some? && spec.parts.boot.value in order)
      && (spec.firmware == BIOS && spec.table == GPT ==> order != [] && order[0] == Partition(newPtr, "bios", 1, ""))
      && (!err ==> Placed(disk.parts, Sizes(order), disk.sectorS, disk.usable))
      && ((forall p :: p in Fixed(v.parts, {}) ==> p.size != 0) ==>
            (!err <==> NoFault(f, |order|) && (order != [] ==> Fits(Sizes(order), disk.sectorS, disk.usable))))
  {
    v := Sanitize(spec, newPtr);
    if !v.Accepted? { return v, true; }
    OrderIsComplete(v.parts, spec.extra, {});
    FirmwareIsPlaced(v.parts, spec.extra);
    err := PartitionDevice(disk, v.parts, spec.extra, f);
    SucceedsWhenSized(v.parts, spec.extra, f, disk.sectorS, disk.usable);
  }

  /** The partition the firmware boots from is among those installed, a BIOS partition in the first place. */
  lemma FirmwareIsPlaced(ep: ElementalPartitions, extra: seq<Partition>)
    ensures ep.boot.Some? ==> ep.boot.value in InstallOrder(ep, extra, {})
    ensures ep.bios.Some? ==> InstallOrder(ep, extra, {}) != [] && InstallOrder(ep, extra, {})[0] == ep.bios.value
  {
    if ep.boot.Some? {
      var k := |Taken(ep.bios, {})|;
      assert InstallOrder(ep, extra, {})[k] == ep.boot.value;
    }
  }

  lemma SucceedsWhenSized(ep: ElementalPartitions, extra: seq<Partition>, f: Faults, sectorS: nat, usable: nat)
    requires sectorS > 0
    ensures var order := InstallOrder(ep, extra, {});
      (forall p :: p in Fixed(ep, {}) ==> p.size != 0) ==>
        ((!f.table && Succeeds(Sizes(order), f, sectorS, usable)) <==>
         (NoFault(f, |order|) && (order != [] ==> Fits(Sizes(order), sectorS, usable))))
  {
    if forall p :: p in Fixed(ep, {}) ==> p.size != 0 { GreedyIsLast(ep, extra, {}); }
  }
}

/** Building a raw disk: partition images are concatenated after 1 MiB, and a partition table that
    must describe the same layout is written on top. */
module RawImage {
  import opened Basics
  import opened Disks
  import opened PartitionOrder
  import opened Installation

  const IMG_OVERHEAD: nat := 256

  /** The disk to build and the sizes in MiB of the trees to be put in its partitions. */
  datatype DiskSpec = DiskSpec(
    size: nat, expandable: bool, parts: ElementalPartitions,
    oemTree: nat, recoveryTree: nat, persistentTree: nat)

  /** The partitions the builder dereferences, told apart by identity; only the recovery one has
      its name. */
  ghost predicate Buildable(spec: DiskSpec)
  {
    var p := spec.parts;
    && p.boot.Some? && p.oem.Some? && p.recovery.Some? && p.state.Some? && p.persistent.Some?
    && p.recovery.value.name == "recovery"
    && (forall q :: q in AsSeq(p.bios) + [p.boot.value, p.oem.value, p.state.value, p.persistent.value] ==>
         q.name != "recovery")
    && (forall q :: q in AsSeq(p.bios) + [p.boot.value, p.oem.value, p.recovery.value] ==>
         q.ptr != p.state.value.ptr && q.ptr != p.persistent.value.ptr)
  }

  /** Size of an image made from a tree: as configured, or what the tree needs. */
  function FromTree(size: nat, tree: nat): nat
  {
    if size == 0 then tree + IMG_OVERHEAD else size
  }

  /** The image files in the order they are concatenated, by size. */
  method CreatePartitionImages(spec: DiskSpec) returns (images: seq<nat>)
    requires Buildable(spec)
    ensures images == Images(spec)
  {
    var p := spec.parts;
    images := [p.boot.value.size];
    images := images + [FromTree(p.oem.value.size, spec.oemTree)];
    var recoverySize := p.recovery.value.size;
    if spec.expandable { recoverySize := 0; }
    images := images + [FromTree(recoverySize, spec.recoveryTree)];
    if !spec.expandable {
      images := images + [p.state.value.size];
      images := images + [FromTree(p.persistent.value.size, spec.persistentTree)];
    }
  }

  function Excluded(spec: DiskSpec): set<nat>
    requires spec.parts.state.Some? && spec.parts.persistent.Some?
  {
    if spec.expandable then {spec.parts.state.value.ptr, spec.parts.persistent.value.ptr} else {}
  }

  /** The size in MiB the table gives a partition. */
  function TableSize(p: Partition, expandable: bool): nat
  {
    if p.name == "recovery" && expandable then 0 else p.size
  }

  function TableSizes(parts: seq<Partition>, expandable: bool): (r: seq<nat>)
    ensures |r| == |parts| && forall i :: 0 <= i < |parts| ==> r[i] == TableSize(parts[i], expandable)
  {
    seq(|parts|, i requires 0 <= i < |parts| => TableSize(parts[i], expandable))
  }

  /** The entry for request `i`: it starts where the offset and the sizes before it add up. */
  function EntryAt(sizes: seq<nat>, i: nat, sectorS: nat): Part
    requires sectorS > 0 && i < |sizes|
  {
    Part(i + 1, (MIB / sectorS) * (1 + Total(sizes[..i])), MiBToSectors(sizes[i], sectorS))
  }

  function Entries(sizes: seq<nat>, n: nat, sectorS: nat): (r: seq<Part>)
    requires sectorS > 0 && n <= |sizes|
    ensures |r| == n && forall i :: 0 <= i < n ==> r[i] == EntryAt(sizes, i, sectorS)
  {
    seq(n, i requires 0 <= i < n => EntryAt(sizes, i, sectorS))
  }

  ghost predicate TableOf(table: seq<Part>, sizes: seq<nat>, sectorS: nat)
    requires sectorS > 0
  {
    |table| == |sizes| && forall i :: 0 <= i < |table| ==> table[i] == EntryAt(sizes, i, sectorS)
  }

  method CreateDiskPartitionTable(spec: DiskSpec, sectorS: nat) returns (table: seq<Part>)
    requires Buildable(spec) && GoodSector(sectorS)
    ensures TableOf(table, TableSizes(InstallOrder(spec.parts, [], Excluded(spec)), spec.expandable), sectorS)
  {
    var parts := PartitionsByInstallOrder(spec.parts, [], Excluded(spec));
    table := RequestEntries(parts, spec.expandable, sectorS);
  }

  /** The loop over the partitions: each entry is requested where the one before it ends. */
  method RequestEntries(parts: seq<Partition>, expandable: bool, sectorS: nat) returns (table: seq<Part>)
    requires GoodSector(sectorS)
    ensures TableOf(table, TableSizes(parts, expandable), sectorS)
  {
    ghost var sizes := TableSizes(parts, expandable);
    table := [];
    var startS: nat, sizeS: nat := 0, 0;
    for i := 0 to |parts|
      invariant table == Entries(sizes, i, sectorS)
      invariant i > 0 ==> Part(i, startS, sizeS) == EntryAt(sizes, i - 1, sectorS)
    {
      NextEntry(sizes, i, sectorS);
      if i == 0 { startS := MIB / sectorS; } else { startS := startS + sizeS; }
      if parts[i].name == "recovery" && expandable {
        sizeS := 0;
      } else {
        sizeS := MiBToSectors(parts[i].size, sectorS);
      }
      table := table + [Part(i + 1, startS, sizeS)];
    }
  }

  lemma NextEntry(sizes: seq<nat>, i: nat, sectorS: nat)
    requires GoodSector(sectorS) && i < |sizes|
    ensures i == 0 ==> EntryAt(sizes, i, sectorS).start == MIB / sectorS
    ensures i > 0 ==>
      EntryAt(sizes, i, sectorS).start == EntryAt(sizes, i - 1, sectorS).start + EntryAt(sizes, i - 1, sectorS).size
    ensures MiBToSectors(0, sectorS) == 0
  {
    assert sizes[..0] == [];
    WholeSectors(0, sectorS);
    if i > 0 {
      FitsNext(sizes, i - 1, sectorS, 0);
      WholeSectors(sizes[i - 1], sectorS);
      Step(MIB / sectorS, Total(sizes[..i - 1]), sizes[i - 1], sectorS);
    }
  }

  /** The pieces of the raw file in MiB: leading gap, images, trailing space. */
  ghost predicate Pieces(spec: DiskSpec, images: seq<nat>, file: seq<nat>)
  {
    var needed := Needed(InstallOrder(spec.parts, [], {}));
    && |file| == |images| + 2 && file[0] == 1 && file[1..|images| + 1] == images
    && file[|images| + 1] == (if spec.size == 0 then 1 else spec.size - 2 - needed) >= 1
  }

  /** None if the configured size is not above the minimum. */
  method CreateDiskImage(spec: DiskSpec, images: seq<nat>) returns (file: Option<seq<nat>>)
    ensures file.None? <==> 0 < spec.size <= 2 + Needed(InstallOrder(spec.parts, [], {}))
    ensures file.Some? ==> Pieces(spec, images, file.value)
  {
    var eSize := 1;
    if spec.size > 0 {
      var minSize := MinDiskSize(spec.parts);
      if spec.size > minSize { eSize := spec.size - minSize; } else { return None; }
    }
    return Some([1] + images + [eSize]);
  }

  /** Byte offset of an image in the file. */
  function Offset(images: seq<nat>, i: nat): nat
    requires i <= |images|
  {
    MIB * (1 + Total(images[..i]))
  }

  ghost predicate Agrees(table: seq<Part>, images: seq<nat>, sectorS: nat)
  {
    |table| == |images| && forall i :: 0 <= i < |images| ==> table[i].start * sectorS == Offset(images, i)
  }

  lemma {:induction false} StartsAgree(table: seq<Part>, sizes: seq<nat>, images: seq<nat>, sectorS: nat)
    requires GoodSector(sectorS) && TableOf(table, sizes, sectorS)
    ensures Agrees(table, images, sectorS)
       <==> |sizes| == |images| && forall i :: 0 <= i < |sizes| ==> Total(sizes[..i]) == Total(images[..i])
  {
    WholeSectors(1, sectorS);
    if |sizes| == |images| {
      forall i | 0 <= i < |sizes|
        ensures table[i].start * sectorS == Offset(images, i) <==> Total(sizes[..i]) == Total(images[..i])
      {
        Step(MIB / sectorS, Total(sizes[..i]), 0, sectorS);
      }
    }
  }

  /** Prefix sums agree up to the last place exactly when all entries but the last do. */
  lemma {:induction false} PrefixSums(a: seq<nat>, b: seq<nat>)
    requires |a| == |b|
    ensures (forall i :: 0 <= i < |a| ==> Total(a[..i]) == Total(b[..i]))
       <==> (forall i :: 0 <= i < |a| - 1 ==> a[i] == b[i])
  {
    forall i | 0 <= i < |a| - 1
      ensures Total(a[..i + 1]) == Total(a[..i]) + a[i] && Total(b[..i + 1]) == Total(b[..i]) + b[i]
    {
      assert a[..i + 1][..i] == a[..i] && b[..i + 1][..i] == b[..i];
    }
    if forall i :: 0 <= i < |a| - 1 ==> a[i] == b[i] {
      forall i | 0 <= i < |a| ensures Total(a[..i]) == Total(b[..i]) {
        assert a[..i] == b[..i];
      }
    } else {
      var i :| 0 <= i < |a| - 1 && a[i] != b[i];
      assert Total(a[..i]) != Total(b[..i]) || Total(a[..i + 1]) != Total(b[..i + 1]);
    }
  }

  /** The partitions that have an image of their own, in install order. */
  function WithImage(spec: DiskSpec): seq<Partition>
    requires Buildable(spec)
  {
    var p := spec.parts;
    [p.boot.value, p.oem.value, p.recovery.value] + if spec.expandable then [] else [p.state.value, p.persistent.value]
  }

  /** The table lists those, after the BIOS partition if there is one. */
  lemma TableOrder(spec: DiskSpec)
    requires Buildable(spec)
    ensures InstallOrder(spec.parts, [], Excluded(spec)) == AsSeq(spec.parts.bios) + WithImage(spec)
  {
    var p, ex := spec.parts, Excluded(spec);
    if spec.expandable {
      var kept := AsSeq(p.bios) + [p.boot.value, p.oem.value, p.recovery.value];
      var n := |kept|;
      assert p.bios.Some? ==> kept[0] in kept;
      assert kept[n - 3] in kept && kept[n - 2] in kept && kept[n - 1] in kept;
      assert Flexible(p, [], ex) == [];
      assert Fixed(p, ex) == kept;
    } else {
      FullOrder(spec);
    }
  }

  lemma FullOrder(spec: DiskSpec)
    requires Buildable(spec)
    ensures var p := spec.parts;
      InstallOrder(p, [], {})
        == AsSeq(p.bios) + [p.boot.value, p.oem.value, p.recovery.value, p.state.value, p.persistent.value]
  {
    var p := spec.parts;
    assert Flexible(p, [], {}) == [p.persistent.value];
    OneFlexible(p.persistent.value);
    assert Fixed(p, {}) == AsSeq(p.bios) + [p.boot.value, p.oem.value, p.recovery.value, p.state.value];
    assert InstallOrder(p, [], {}) == Fixed(p, {}) + (Sized([p.persistent.value]) + Greedy([p.persistent.value]));
  }

  lemma OneFlexible(q: Partition)
    ensures Sized([q]) + Greedy([q]) == [q]
  {
    assert [q][..0] == [];
  }

  /** The images of a spec, as CreatePartitionImages makes them. */
  function Images(spec: DiskSpec): seq<nat>
    requires Buildable(spec)
  {
    var p := spec.parts;
    if spec.expandable then
      [p.boot.value.size, FromTree(p.oem.value.size, spec.oemTree), FromTree(0, spec.recoveryTree)]
    else
      [p.boot.value.size, FromTree(p.oem.value.size, spec.oemTree), FromTree(p.recovery.value.size, spec.recoveryTree),
       p.state.value.size, FromTree(p.persistent.value.size, spec.persistentTree)]
  }

  /** The sizes the table gives the partitions that have an image. */
  function OwnSizes(spec: DiskSpec): seq<nat>
    requires Buildable(spec)
  {
    TableSizes(WithImage(spec), spec.expandable)
  }

  lemma NamesTold(spec: DiskSpec)
    requires Buildable(spec)
    ensures var p := spec.parts;
      && (p.bios.Some? ==> p.bios.value.name != "recovery")
      && p.boot.value.name != "recovery" && p.oem.value.name != "recovery"
      && p.state.value.name != "recovery" && p.persistent.value.name != "recovery"
  {
    var p := spec.parts;
    var others := AsSeq(p.bios) + [p.boot.value, p.oem.value, p.state.value, p.persistent.value];
    var n := |others|;
    assert others[0] in others && others[n - 4] in others
      && others[n - 3] in others && others[n - 2] in others && others[n - 1] in others;
  }

  /** Table and images have the same sizes, except possibly the last one, exactly in these cases; and
      these are the cases in which only the last entry can ask for the rest of the disk. */
  lemma SizesMatch(spec: DiskSpec)
    requires Buildable(spec)
    ensures var p, own, images := spec.parts, OwnSizes(spec), Images(spec);
      && |own| == |images|
      && ((forall i :: 0 <= i < |own| - 1 ==> own[i] == images[i])
           <==> p.oem.value.size != 0 && (spec.expandable || p.recovery.value.size != 0))
      && ((forall i :: 0 <= i < |own| - 1 ==> own[i] != 0)
           <==> p.boot.value.size != 0 && p.oem.value.size != 0 &&
                (spec.expandable || (p.recovery.value.size != 0 && p.state.value.size != 0)))
  {
    NamesTold(spec);
    var own, images := OwnSizes(spec), Images(spec);
    assert own[0] == images[0] == spec.parts.boot.value.size && own[1] == spec.parts.oem.value.size;
    if !spec.expandable {
      assert own[3] == images[3] == spec.parts.state.value.size && own[2] == spec.parts.recovery.value.size;
    }
  }

  /** The requested sizes are the BIOS partition's, if there is one, and those. */
  lemma RequestedSizes(spec: DiskSpec)
    requires Buildable(spec)
    ensures TableSizes(InstallOrder(spec.parts, [], Excluded(spec)), spec.expandable)
      == Sizes(AsSeq(spec.parts.bios)) + OwnSizes(spec)
  {
    TableOrder(spec);
    NamesTold(spec);
  }

  /** Entry by entry: it starts at its image, and none but the last asks for the rest of the disk, which
      the tool would grant it at the expense of the entries after it. */
  ghost predicate Describes(table: seq<Part>, images: seq<nat>, sectorS: nat)
  {
    Agrees(table, images, sectorS) && forall i :: 0 <= i < |table| - 1 ==> table[i].size != 0
  }

  lemma TableAgrees(spec: DiskSpec, table: seq<Part>, sectorS: nat)
    requires Buildable(spec) && GoodSector(sectorS)
    requires TableOf(table, TableSizes(InstallOrder(spec.parts, [], Excluded(spec)), spec.expandable), sectorS)
    ensures Agrees(table, Images(spec), sectorS) <==>
      spec.parts.bios.None? && spec.parts.oem.value.size != 0 &&
      (spec.expandable || spec.parts.recovery.value.size != 0)
  {
    var own, images := OwnSizes(spec), Images(spec);
    RequestedSizes(spec);
    SizesMatch(spec);
    if spec.parts.bios.None? {
      assert Sizes(AsSeq(spec.parts.bios)) + own == own;
      StartsAgree(table, own, images, sectorS);
      PrefixSums(own, images);
    }
  }

  lemma TableDescribes(spec: DiskSpec, table: seq<Part>, sectorS: nat)
    requires Buildable(spec) && GoodSector(sectorS)
    requires TableOf(table, TableSizes(InstallOrder(spec.parts, [], Excluded(spec)), spec.expandable), sectorS)
    ensures var p := spec.parts; Describes(table, Images(spec), sectorS) <==>
      p.bios.None? && p.boot.value.size != 0 && p.oem.value.size != 0 &&
      (spec.expandable || (p.recovery.value.size != 0 && p.state.value.size != 0))
  {
    TableAgrees(spec, table, sectorS);
    if spec.parts.bios.None? {
      var own := OwnSizes(spec);
      RequestedSizes(spec);
      SizesMatch(spec);
      assert Sizes(AsSeq(spec.parts.bios)) + own == own;
      NonzeroEntries(table, own, sectorS);
    }
  }

  lemma NonzeroEntries(table: seq<Part>, sizes: seq<nat>, sectorS: nat)
    requires GoodSector(sectorS) && TableOf(table, sizes, sectorS)
    ensures (forall i :: 0 <= i < |table| - 1 ==> table[i].size != 0)
      <==> (forall i :: 0 <= i < |sizes| - 1 ==> sizes[i] != 0)
  {
    forall i | 0 <= i < |table| ensures table[i].size != 0 <==> sizes[i] != 0 {
      WholeSectors(sizes[i], sectorS);
    }
  }

  /** Builds a disk. The starts requested for the table are those of the images exactly when there is no
      BIOS partition, and the OEM partition and, unless the disk is expandable, the recovery partition
      have a configured size; they can all be granted exactly when the boot and state partitions have one
      too. The file has the configured size plus Slack, less 1 MiB. */
  method CreateRAWDisk(spec: DiskSpec, sectorS: nat) returns (file: Option<seq<nat>>, table: seq<Part>)
    requires Buildable(spec) && GoodSector(sectorS)
    ensures file.None? <==> 0 < spec.size <= 2 + Needed(InstallOrder(spec.parts, [], {}))
    ensures file.None? ==> table == []
    ensures file.Some? ==>
      var p, images := spec.parts, Images(spec);
      && (Agrees(table, images, sectorS) <==>
            p.bios.None? && p.oem.value.size != 0 && (spec.expandable || p.recovery.value.size != 0))
      && (Describes(table, images, sectorS) <==>
            && p.bios.None? && p.boot.value.size != 0 && p.oem.value.size != 0
            && (spec.expandable || (p.recovery.value.size != 0 && p.state.value.size != 0)))
      && Pieces(spec, images, file.value)
      && Total(file.value) == if spec.size == 0 then 2 + Total(images) else spec.size - 1 + Slack(spec)
  {
    var images := CreatePartitionImages(spec);
    file := CreateDiskImage(spec, images);
    if file.None? { return None, []; }
    table := CreateDiskPartitionTable(spec, sectorS);
    TableAgrees(spec, table, sectorS);
    TableDescribes(spec, table, sectorS);
    FileSize(spec, file.value);
  }

  /** With a BIOS partition the table has one entry more than there are images, and each image's own
      entry is off by the size of the BIOS partition and by whatever else the sizes before it differ. */
  lemma BiosShiftsTable(spec: DiskSpec, sectorS: nat, table: seq<Part>, i: nat)
    requires Buildable(spec) && GoodSector(sectorS) && spec.parts.bios.Some? && i < |Images(spec)|
    requires TableOf(table, TableSizes(InstallOrder(spec.parts, [], Excluded(spec)), spec.expandable), sectorS)
    ensures |table| == |Images(spec)| + 1 && |OwnSizes(spec)| == |Images(spec)|
    ensures table[i + 1].start * sectorS - Offset(Images(spec), i)
      == MIB * (spec.parts.bios.value.size + Total(OwnSizes(spec)[..i]) - Total(Images(spec)[..i]))
  {
    var bios, own := spec.parts.bios.value.size, OwnSizes(spec);
    RequestedSizes(spec);
    SizesMatch(spec);
    assert Sizes(AsSeq(spec.parts.bios)) == [bios];
    EntryAfter(table, bios, own, sectorS, i);
  }

  lemma EntryAfter(table: seq<Part>, first: nat, rest: seq<nat>, sectorS: nat, i: nat)
    requires GoodSector(sectorS) && i < |rest| && TableOf(table, [first] + rest, sectorS)
    ensures table[i + 1].start * sectorS == MIB * (1 + first + Total(rest[..i]))
  {
    var sizes := [first] + rest;
    assert sizes[..i + 1] == [first] + rest[..i];
    TotalAdd([first], rest[..i]);
    assert [first][..0] == [];
    WholeSectors(1, sectorS);
    Step(MIB / sectorS, Total(sizes[..i + 1]), 0, sectorS);
  }

  /** Where the sizes agree, every image lies exactly that one partition before its entry. */
  lemma BiosShift(spec: DiskSpec, sectorS: nat, table: seq<Part>, i: nat)
    requires Buildable(spec) && GoodSector(sectorS) && spec.parts.bios.Some? && i < |Images(spec)|
    requires TableOf(table, TableSizes(InstallOrder(spec.parts, [], Excluded(spec)), spec.expandable), sectorS)
    requires spec.parts.oem.value.size != 0 && (spec.expandable || spec.parts.recovery.value.size != 0)
    ensures |table| == |Images(spec)| + 1
    ensures table[i + 1].start * sectorS == Offset(Images(spec), i) + MIB * spec.parts.bios.value.size
  {
    BiosShiftsTable(spec, sectorS, table, i);
    SizesMatch(spec);
    PrefixSums(OwnSizes(spec), Images(spec));
  }

  // ---- The size of the file ----

  /** What MinDiskSize reckons with for one partition. */
  function Least(size: nat): nat
  {
    if size == 0 then MIN_PART_SIZE else size
  }

  /** By how much the image of a tree exceeds that. */
  function Excess(size: nat, tree: nat): int
  {
    if size == 0 then tree + IMG_OVERHEAD - MIN_PART_SIZE else 0
  }

  /** The difference between the images and what MinDiskSize reckons with, from the configured sizes. */
  function Slack(spec: DiskSpec): int
    requires Buildable(spec)
  {
    var p := spec.parts;
    (if p.bios.Some? then 0 - Least(p.bios.value.size) else 0)
    - (if p.boot.value.size == 0 then MIN_PART_SIZE else 0)
    + Excess(p.oem.value.size, spec.oemTree)
    + if spec.expandable then
        spec.recoveryTree + IMG_OVERHEAD - Least(p.recovery.value.size)
        - Least(p.state.value.size) - Least(p.persistent.value.size)
      else
        Excess(p.recovery.value.size, spec.recoveryTree) - (if p.state.value.size == 0 then MIN_PART_SIZE else 0)
        + Excess(p.persistent.value.size, spec.persistentTree)
  }

  lemma ImagesAndNeeded(spec: DiskSpec)
    requires Buildable(spec)
    ensures Total(Images(spec)) == Needed(InstallOrder(spec.parts, [], {})) + Slack(spec)
  {
    NeededOfAll(spec);
    TotalOfImages(spec);
  }

  lemma NeededOfAll(spec: DiskSpec)
    requires Buildable(spec)
    ensures var p := spec.parts;
      Needed(InstallOrder(p, [], {})) == (if p.bios.Some? then Least(p.bios.value.size) else 0)
        + Least(p.boot.value.size) + Least(p.oem.value.size) + Least(p.recovery.value.size)
        + Least(p.state.value.size) + Least(p.persistent.value.size)
  {
    var p := spec.parts;
    FullOrder(spec);
    NeededAfter(AsSeq(p.bios), p.boot.value, p.oem.value, p.recovery.value, p.state.value, p.persistent.value);
    if p.bios.Some? { NeededOnto([], p.bios.value); }
  }

  lemma NeededAfter(s: seq<Partition>, a: Partition, b: Partition, c: Partition, d: Partition, e: Partition)
    ensures Needed(s + [a, b, c, d, e])
      == Needed(s) + Least(a.size) + Least(b.size) + Least(c.size) + Least(d.size) + Least(e.size)
  {
    NeededOnto(s, a);
    NeededOnto(s + [a], b);
    NeededOnto(s + [a] + [b], c);
    NeededOnto(s + [a] + [b] + [c], d);
    NeededOnto(s + [a] + [b] + [c] + [d], e);
    assert s + [a] + [b] + [c] + [d] + [e] == s + [a, b, c, d, e];
  }

  lemma NeededOnto(s: seq<Partition>, q: Partition)
    ensures Needed(s + [q]) == Needed(s) + Least(q.size)
  {
    assert (s + [q])[..|s|] == s;
  }

  lemma TotalOnto(s: seq<nat>, x: nat)
    ensures Total(s + [x]) == Total(s) + x
  {
    assert (s + [x])[..|s|] == s;
  }

  lemma TotalOfThree(a: nat, b: nat, c: nat)
    ensures Total([a, b, c]) == a + b + c
  {
    TotalOnto([], a);
    TotalOnto([a], b);
    TotalOnto([a, b], c);
    assert [] + [a] == [a] && [a] + [b] == [a, b] && [a, b] + [c] == [a, b, c];
  }

  lemma TotalOfFive(a: nat, b: nat, c: nat, d: nat, e: nat)
    ensures Total([a, b, c, d, e]) == a + b + c + d + e
  {
    TotalOfThree(a, b, c);
    TotalOnto([a, b, c], d);
    TotalOnto([a, b, c, d], e);
    assert [a, b, c] + [d] == [a, b, c, d] && [a, b, c, d] + [e] == [a, b, c, d, e];
  }

  lemma TotalOfImages(spec: DiskSpec)
    requires Buildable(spec)
    ensures var images := Images(spec);
      Total(images) == images[0] + images[1] + images[2] + if spec.expandable then 0 else images[3] + images[4]
  {
    var images := Images(spec);
    if spec.expandable {
      TotalOfThree(images[0], images[1], images[2]);
    } else {
      TotalOfFive(images[0], images[1], images[2], images[3], images[4]);
    }
  }

  lemma FileSize(spec: DiskSpec, file: seq<nat>)
    requires Buildable(spec) && Pieces(spec, Images(spec), file)
    ensures Total(file) == if spec.size == 0 then 2 + Total(Images(spec)) else spec.size - 1 + Slack(spec)
  {
    assert file == [1] + Images(spec) + [file[|file| - 1]];
    FileTotal(Images(spec), file[|file| - 1]);
    ImagesAndNeeded(spec);
  }

  /** EFI, not expandable, boot and state sizes configured. */
  predicate Ordinary(spec: DiskSpec)
    requires Buildable(spec)
  {
    spec.parts.bios.None? && !spec.expandable && spec.parts.boot.value.size != 0 && spec.parts.state.value.size != 0
  }

  /** A disk has the configured size exactly when the slack is 1 MiB. An ordinary one never has it: it
      comes out 1 MiB smaller if the other three sizes are configured, and otherwise, as with the default
      size 0 of the persistent partition, at least 191 MiB larger; with that default alone, by 191 MiB more
      than the tree put in it. */
  lemma RawSize(spec: DiskSpec, file: seq<nat>)
    requires Buildable(spec) && spec.size > 0 && Pieces(spec, Images(spec), file)
    ensures Total(file) == spec.size <==> Slack(spec) == 1
    ensures Ordinary(spec) ==>
      var p := spec.parts;
      if p.oem.value.size != 0 && p.recovery.value.size != 0 && p.persistent.value.size != 0
      then Total(file) == spec.size - 1
      else Total(file) >= spec.size + 191
    ensures
      Ordinary(spec) && spec.parts.persistent.value.size == 0
      && spec.parts.oem.value.size != 0 && spec.parts.recovery.value.size != 0 ==>
        Total(file) == spec.size + spec.persistentTree + 191
  {
    FileSize(spec, file);
  }

  lemma FileTotal(images: seq<nat>, trailing: nat)
    ensures Total([1] + images + [trailing]) == 1 + Total(images) + trailing
  {
    TotalAdd([1], images);
    TotalAdd([1] + images, [trailing]);
    assert [1][..0] == [] && [trailing][..0] == [];
  }

  lemma {:induction false} TotalAdd(a: seq<nat>, b: seq<nat>)
    ensures Total(a + b) == Total(a) + Total(b)
  {
    if b == [] {
      assert a + b == a;
    } else {
      assert (a + b)[..|a + b| - 1] == a + b[..|b| - 1];
      TotalAdd(a, b[..|b| - 1]);
    }
  }
}

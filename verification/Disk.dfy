/** Allocating partitions on a disk: sector arithmetic on machine words, the free-space checks and
    the partition table they keep. */
module Disks {

  const MIB: nat := 1048576
  const WORD: nat := 0x1_0000_0000_0000_0000

  datatype Part = Part(number: nat, start: nat, size: nat)

  function End(p: Part): int
  {
    p.start + p.size - 1
  }

  /** Unsigned subtraction wraps around. */
  function Minus(a: int, b: int): int
  {
    (a - b) % WORD
  }

  predicate GoodSector(sectorS: nat)
  {
    sectorS > 0 && MIB % sectorS == 0
  }

  function MiBToSectors(size: nat, sectorS: nat): nat
    requires sectorS > 0
  {
    size * MIB / sectorS
  }

  lemma MultipleIsFar(d: int, b: int)
    requires b > 0
    ensures d >= 1 ==> d * b >= b
    ensures d <= -1 ==> d * b <= -b
  {
    assert d * b == (d - 1) * b + b == (d + 1) * b - b;
  }

  lemma DivideProduct(a: int, b: int)
    requires b > 0
    ensures a * b / b == a
  {
    var x := a * b;
    var q, r := x / b, x % b;
    assert x == q * b + r;
    assert (a - q) * b == r;
    MultipleIsFar(a - q, b);
  }

  /** Sizes convert without rounding when the sector size divides 1 MiB. */
  lemma WholeSectors(size: nat, sectorS: nat)
    requires GoodSector(sectorS)
    ensures MIB / sectorS >= 1 && (MIB / sectorS) * sectorS == MIB
    ensures MiBToSectors(size, sectorS) == size * (MIB / sectorS)
    ensures MiBToSectors(size, sectorS) * sectorS == size * MIB
    ensures size > 0 ==> MiBToSectors(size, sectorS) > 0
  {
    var k := MIB / sectorS;
    assert k * sectorS == MIB;
    assert size * MIB == (size * k) * sectorS by { assert size * (k * sectorS) == (size * k) * sectorS; }
    DivideProduct(size * k, sectorS);
    if size > 0 { assert size * k >= k; }
  }

  /** Where the next partition goes: after the last one, or 1 MiB into the disk. */
  function NextStart(parts: seq<Part>, sectorS: nat): nat
    requires sectorS > 0
  {
    if parts == [] then MIB / sectorS else parts[|parts| - 1].start + parts[|parts| - 1].size
  }

  /** Numbered from 1, contiguous from 1 MiB on, none empty. */
  ghost predicate Contiguous(parts: seq<Part>, sectorS: nat)
    requires sectorS > 0
  {
    forall i :: 0 <= i < |parts| ==>
      parts[i].number == i + 1 && parts[i].size > 0 && parts[i].start == NextStart(parts[..i], sectorS)
  }

  /** A contiguous table whose last partition ends within the usable sectors. */
  ghost predicate Layout(parts: seq<Part>, sectorS: nat, usable: nat)
  {
    && GoodSector(sectorS) && Contiguous(parts, sectorS)
    && (parts != [] ==> End(parts[|parts| - 1]) <= usable)
  }

  /** Every partition starts on a MiB boundary, and so will the next one if there is room for it. */
  ghost predicate Aligned(parts: seq<Part>, sectorS: nat, usable: nat)
    requires GoodSector(sectorS)
  {
    WholeSectors(1, sectorS);
    var perMiB := MIB / sectorS;
    && (forall i :: 0 <= i < |parts| ==> parts[i].start % perMiB == 0)
    && (NextStart(parts, sectorS) % perMiB == 0 || NextStart(parts, sectorS) == usable + 1)
  }

  ghost predicate Tabled(parts: seq<Part>, sectorS: nat, usable: nat)
  {
    Layout(parts, sectorS, usable) && Aligned(parts, sectorS, usable)
  }

  lemma AddMultiple(x: nat, size: nat, k: nat)
    requires k > 0 && x % k == 0
    ensures (x + size * k) % k == 0
  {
    var m := x / k + size;
    assert x + size * k == m * k;
    DivideProduct(m, k);
  }

  /** Placing a request after aligned partitions keeps the alignment. */
  lemma AlignedAppend(parts: seq<Part>, p: Part, size: nat, sectorS: nat, usable: nat)
    requires GoodSector(sectorS) && Aligned(parts, sectorS, usable)
    requires p.start == NextStart(parts, sectorS) <= usable
    requires p.size == Granted(p.start, MiBToSectors(size, sectorS), usable)
    ensures Aligned(parts + [p], sectorS, usable)
  {
    WholeSectors(size, sectorS);
    WholeSectors(1, sectorS);
    AddMultiple(p.start, size, MIB / sectorS);
  }

  /** In a layout all partitions are disjoint and in order, start after the first MiB and end within
      the usable sectors. */
  lemma {:induction false} LayoutIsDisjoint(parts: seq<Part>, sectorS: nat, usable: nat, i: nat, j: nat)
    requires Layout(parts, sectorS, usable) && i < j < |parts|
    ensures MIB / sectorS <= parts[i].start <= End(parts[i]) < parts[j].start <= End(parts[j]) <= usable
    decreases j - i, |parts| - j
  {
    assert parts[j].start == NextStart(parts[..j], sectorS);
    if i + 1 < j {
      LayoutIsDisjoint(parts, sectorS, usable, i, j - 1);
    } else {
      StartsAfterOffset(parts, sectorS, i);
    }
    EndsWithin(parts, sectorS, usable, j);
  }

  lemma {:induction false} StartsAfterOffset(parts: seq<Part>, sectorS: nat, i: nat)
    requires sectorS > 0 && Contiguous(parts, sectorS) && i < |parts|
    ensures parts[i].start >= MIB / sectorS
  {
    assert parts[i].start == NextStart(parts[..i], sectorS);
    if i > 0 { StartsAfterOffset(parts, sectorS, i - 1); }
  }

  lemma {:induction false} EndsWithin(parts: seq<Part>, sectorS: nat, usable: nat, i: nat)
    requires Layout(parts, sectorS, usable) && i < |parts|
    ensures End(parts[i]) <= usable
    decreases |parts| - i
  {
    if i + 1 < |parts| {
      EndsWithin(parts, sectorS, usable, i + 1);
      assert parts[i + 1].start == NextStart(parts[..i + 1], sectorS);
    }
  }

  /** Free sectors after the last partition, as the code computes them. */
  function FreeSpace(parts: seq<Part>, sectorS: nat, lastS: nat): int
    requires sectorS > 0
  {
    if parts != [] then
      var last := parts[|parts| - 1];
      Minus(lastS, last.start + last.size - 1)
    else Minus(lastS, MIB / sectorS - 1)
  }

  /** The subtraction is exact on every layout, except on a disk without partitions that is smaller
      than the offset of the first one. */
  lemma FreeSpaceIsExact(parts: seq<Part>, sectorS: nat, usable: nat, lastS: nat)
    requires Layout(parts, sectorS, usable) && usable <= lastS < WORD
    ensures FreeSpace(parts, sectorS, lastS) == lastS + 1 - NextStart(parts, sectorS)
       <==> parts != [] || MIB / sectorS <= lastS + 1
  {
    WholeSectors(1, sectorS);
    if parts == [] && MIB / sectorS > lastS + 1 {
      assert Minus(lastS, MIB / sectorS - 1) >= 0;
    } else if parts != [] {
      StartsAfterOffset(parts, sectorS, |parts| - 1);
    }
  }

  function FreeSpaceWithoutLast(parts: seq<Part>, sectorS: nat, lastS: nat): int
    requires sectorS > 0
  {
    if |parts| > 1 then
      var prev := parts[|parts| - 2];
      Minus(lastS, prev.start + prev.size - 1)
    else Minus(lastS, MIB / sectorS - 1)
  }

  /** What a request for `sectors` really gets: all usable sectors left if it is 0. */
  function Granted(start: nat, sectors: nat, usable: nat): int
  {
    if sectors == 0 then usable + 1 - start else sectors
  }

  datatype Added = Added(number: nat) | NoSpace | Refused

  datatype Expanded = Expanded | NothingToExpand | Shrinks | TooLarge | NotWritten

  /** A disk whose table has been read. The partitioning tool refuses partitions beyond `usable`,
      the last sector the table format leaves for data, and may fail for its own reasons. */
  class Disk {
    const sectorS: nat
    const lastS: nat
    const usable: nat
    var parts: seq<Part>

    ghost predicate Valid()
      reads this
    {
      && Tabled(parts, sectorS, usable)
      && usable <= lastS < WORD && MIB / sectorS <= lastS + 1
    }

    /** A fresh partition table. */
    constructor (sectorS: nat, lastS: nat, usable: nat)
      requires GoodSector(sectorS) && usable <= lastS < WORD && MIB / sectorS <= lastS + 1
      ensures Valid() && parts == []
      ensures this.sectorS == sectorS && this.lastS == lastS && this.usable == usable
    {
      FreshTable(sectorS, usable);
      this.sectorS, this.lastS, this.usable, parts := sectorS, lastS, usable, [];
    }

    /** Replaces whatever was on the disk. */
    method NewPartitionTable(ok: bool)
      requires Valid()
      modifies this
      ensures Valid() && parts == if ok then [] else old(parts)
    {
      FreshTable(sectorS, usable);
      if ok { parts := []; }
    }

    /** The tool writes `part` after the partitions in `keep` and the table is read back. */
    method Write(part: Part, keep: seq<Part>, ghost size: nat, toolOk: bool) returns (ok: bool)
      requires Valid() && Tabled(keep, sectorS, usable)
      requires part.number == |keep| + 1 && part.start == NextStart(keep, sectorS) &&
        part.size == MiBToSectors(size, sectorS)
      modifies this
      ensures Valid()
      ensures ok ==
        (toolOk && part.start <= usable && part.start + Granted(part.start, part.size, usable) - 1 <= usable)
      ensures parts == if ok then keep + [part.(size := Granted(part.start, part.size, usable))] else old(parts)
    {
      var granted := Granted(part.start, part.size, usable);
      ok := toolOk && part.start <= usable && part.start + granted - 1 <= usable;
      if ok {
        TableAppend(keep, part.(size := granted), size, sectorS, usable);
        parts := keep + [part.(size := granted)];
      }
    }

    method AddPartition(size: nat, toolOk: bool) returns (r: Added)
      requires Valid()
      modifies this
      ensures Valid()
      ensures var start, sectors := NextStart(old(parts), sectorS), MiBToSectors(size, sectorS);
        && (r.NoSpace? <==> start + sectors - 1 > lastS)
        && (r.Added? <==> toolOk && start + Granted(start, sectors, usable) - 1 <= usable && start <= usable)
        && parts ==
            if r.Added? then old(parts) + [Part(|old(parts)| + 1, start, Granted(start, sectors, usable))]
            else old(parts)
      ensures r.Added? ==> r.number == |parts|
    {
      var partNum, start := 0, MIB / sectorS;
      if |parts| > 0 {
        var last := parts[|parts| - 1];
        partNum, start := last.number, last.start + last.size;
      }
      var sectors := MiBToSectors(size, sectorS);
      FreeSpaceIsExact(parts, sectorS, usable, lastS);
      if sectors > FreeSpace(parts, sectorS, lastS) { return NoSpace; }
      partNum := partNum + 1;
      var ok := Write(Part(partNum, start, sectors), parts, size, toolOk);
      if !ok { return Refused; }
      return Added(partNum);
    }

    method ExpandLastPartition(size: nat, toolOk: bool) returns (r: Expanded)
      requires Valid()
      modifies this
      ensures Valid()
      ensures r.NothingToExpand? <==> old(parts) == []
      ensures old(parts) != [] ==>
        var n := |old(parts)| - 1; var last, sectors := old(parts)[n], MiBToSectors(size, sectorS);
        && (r.Shrinks? <==> size > 0 && sectors < last.size)
        && (r.TooLarge? <==> size > 0 && sectors >= last.size && last.start + sectors - 1 > lastS)
        && (r.Expanded? <==> toolOk && (size == 0 || (sectors >= last.size && last.start + sectors - 1 <= usable)))
        && (r.Expanded? ==>
              && parts == old(parts)[..n] + [last.(size := Granted(last.start, sectors, usable))]
              && parts[n].size >= last.size)
      ensures !r.Expanded? ==> parts == old(parts)
    {
      if parts == [] { return NothingToExpand; }
      var n := |parts| - 1;
      r := CheckExpansion(size);
      if !r.Expanded? { return; }
      TableWithoutLast(parts, sectorS, usable);
      WholeSectors(size, sectorS);
      var ok := Write(parts[n].(size := MiBToSectors(size, sectorS)), parts[..n], size, toolOk);
      if !ok { return NotWritten; }
    }

    /** The checks on the requested size; none for 0, which asks for the rest of the disk. */
    method CheckExpansion(size: nat) returns (r: Expanded)
      requires Valid() && parts != []
      ensures var last, sectors := parts[|parts| - 1], MiBToSectors(size, sectorS);
        r == if size > 0 && sectors < last.size then Shrinks
             else if size > 0 && last.start + sectors - 1 > lastS then TooLarge
             else Expanded
      ensures r.Expanded? ==> var last := parts[|parts| - 1];
        Granted(last.start, MiBToSectors(size, sectorS), usable) >= last.size
    {
      var part, sectors := parts[|parts| - 1], MiBToSectors(size, sectorS);
      WholeSectors(size, sectorS);
      FreeWithoutLastIsExact(parts, sectorS, usable, lastS);
      if size > 0 {
        if sectors < part.size { return Shrinks; }
        if sectors > FreeSpaceWithoutLast(parts, sectorS, lastS) { return TooLarge; }
      }
      return Expanded;
    }
  }

  lemma FreshTable(sectorS: nat, usable: nat)
    requires GoodSector(sectorS)
    ensures Tabled([], sectorS, usable)
  {
    WholeSectors(1, sectorS);
    DivideProduct(1, MIB / sectorS);
    assert 1 * (MIB / sectorS) == MIB / sectorS;
  }

  lemma Appends(parts: seq<Part>, sectorS: nat, p: Part)
    requires sectorS > 0 && Contiguous(parts, sectorS)
    requires p.number == |parts| + 1 && p.size > 0 && p.start == NextStart(parts, sectorS)
    ensures Contiguous(parts + [p], sectorS)
  {
    var all := parts + [p];
    forall i | 0 <= i < |all|
      ensures all[i].number == i + 1 && all[i].size > 0 && all[i].start == NextStart(all[..i], sectorS)
    {
      assert all[..i] == parts[..i];
      if i == |parts| { assert parts[..i] == parts; }
    }
  }

  lemma PrefixContiguous(parts: seq<Part>, sectorS: nat, n: nat)
    requires sectorS > 0 && Contiguous(parts, sectorS) && n <= |parts|
    ensures Contiguous(parts[..n], sectorS)
  {
    forall i | 0 <= i < n ensures parts[..n][i].start == NextStart(parts[..n][..i], sectorS) {
      assert parts[..n][..i] == parts[..i];
    }
  }

  lemma TableAppend(keep: seq<Part>, p: Part, size: nat, sectorS: nat, usable: nat)
    requires Tabled(keep, sectorS, usable) && p.number == |keep| + 1 && p.start == NextStart(keep, sectorS) <= usable
    requires p.size == Granted(p.start, MiBToSectors(size, sectorS), usable) && End(p) <= usable
    ensures Tabled(keep + [p], sectorS, usable)
  {
    WholeSectors(size, sectorS);
    Appends(keep, sectorS, p);
    AlignedAppend(keep, p, size, sectorS, usable);
  }

  /** Dropping the last partition leaves a table whose next start is where it began. */
  lemma TableWithoutLast(parts: seq<Part>, sectorS: nat, usable: nat)
    requires Tabled(parts, sectorS, usable) && parts != []
    ensures var n := |parts| - 1;
      && Tabled(parts[..n], sectorS, usable)
      && parts[n].start == NextStart(parts[..n], sectorS) && parts[n].number == n + 1
  {
    var n := |parts| - 1;
    PrefixContiguous(parts, sectorS, n);
    assert parts[n].start == NextStart(parts[..n], sectorS);
    if n > 0 { EndsWithin(parts, sectorS, usable, n - 1); }
  }

  /** The bound for growing the last partition is computed from the one before it; contiguity makes
      it the distance from the start of the last one to the end of the disk. */
  lemma FreeWithoutLastIsExact(parts: seq<Part>, sectorS: nat, usable: nat, lastS: nat)
    requires Layout(parts, sectorS, usable) && usable <= lastS < WORD && parts != []
    ensures FreeSpaceWithoutLast(parts, sectorS, lastS) == lastS + 1 - parts[|parts| - 1].start
  {
    var n := |parts| - 1;
    assert parts[n].start == NextStart(parts[..n], sectorS);
    StartsAfterOffset(parts, sectorS, n);
    if n > 0 { StartsAfterOffset(parts, sectorS, n - 1); }
    WholeSectors(1, sectorS);
  }

  /** The sizes in sectors that pass the checks on expanding the last partition. */
  predicate LetsThrough(parts: seq<Part>, sectors: nat, sectorS: nat, lastS: nat)
    requires sectorS > 0 && parts != []
  {
    parts[|parts| - 1].size <= sectors <= FreeSpaceWithoutLast(parts, sectorS, lastS)
  }

  /** Any table whose last partition begins at or after the end of the others, or the first MiB, and
      ends on the disk. */
  predicate LastIsLast(parts: seq<Part>, sectorS: nat, lastS: nat)
    requires sectorS > 0
  {
    && parts != [] && lastS < WORD
    && var n := |parts| - 1; 0 < NextStart(parts[..n], sectorS) <= parts[n].start && End(parts[n]) <= lastS
  }

  /** On such tables the bound is right, in that everything it lets through ends on the disk, exactly
      when there is no gap before the last partition. */
  lemma BoundIsRight(parts: seq<Part>, sectorS: nat, lastS: nat)
    requires sectorS > 0 && LastIsLast(parts, sectorS, lastS)
    ensures var n := |parts| - 1;
      (forall sectors :: LetsThrough(parts, sectors, sectorS, lastS) ==> parts[n].start + sectors - 1 <= lastS)
        <==> parts[n].start == NextStart(parts[..n], sectorS)
  {
    var n := |parts| - 1;
    var bound := lastS + 1 - NextStart(parts[..n], sectorS);
    assert FreeSpaceWithoutLast(parts, sectorS, lastS) == bound;
    assert LetsThrough(parts, bound, sectorS, lastS);
  }

  /** Sizes are asked for in whole MiB: of these a gap lets too large a one through exactly when the
      largest that fits without it does not fit with it. */
  lemma GapDefeatsBound(parts: seq<Part>, sectorS: nat, lastS: nat)
    requires GoodSector(sectorS) && LastIsLast(parts, sectorS, lastS)
    ensures MIB / sectorS > 0
    ensures var n, perMiB := |parts| - 1, MIB / sectorS;
      (forall size: nat :: LetsThrough(parts, MiBToSectors(size, sectorS), sectorS, lastS) ==>
         parts[n].start + MiBToSectors(size, sectorS) - 1 <= lastS)
        <==> parts[n].start + (lastS + 1 - NextStart(parts[..n], sectorS)) / perMiB * perMiB - 1 <= lastS
  {
    var n := |parts| - 1;
    var most := LargestLetThrough(parts, sectorS, lastS);
    if parts[n].start + MiBToSectors(most, sectorS) - 1 > lastS {
      assert LetsThrough(parts, MiBToSectors(most, sectorS), sectorS, lastS);
    }
  }

  lemma LargestLetThrough(parts: seq<Part>, sectorS: nat, lastS: nat) returns (most: nat)
    requires GoodSector(sectorS) && LastIsLast(parts, sectorS, lastS)
    ensures MIB / sectorS > 0
    ensures var n, perMiB := |parts| - 1, MIB / sectorS;
      && MiBToSectors(most, sectorS) == (lastS + 1 - NextStart(parts[..n], sectorS)) / perMiB * perMiB
      && (MiBToSectors(most, sectorS) >= parts[n].size ==>
          LetsThrough(parts, MiBToSectors(most, sectorS), sectorS, lastS))
    ensures forall size: nat :: LetsThrough(parts, MiBToSectors(size, sectorS), sectorS, lastS) ==>
      MiBToSectors(size, sectorS) <= MiBToSectors(most, sectorS)
  {
    var k := MIB / sectorS;
    WholeSectors(1, sectorS);
    var bound := lastS + 1 - NextStart(parts[..|parts| - 1], sectorS);
    assert FreeSpaceWithoutLast(parts, sectorS, lastS) == bound;
    most := bound / k;
    WholeSectors(most, sectorS);
    AtMostQuotient(most, k, bound);
    forall size: nat | MiBToSectors(size, sectorS) <= bound
      ensures MiBToSectors(size, sectorS) <= MiBToSectors(most, sectorS)
    {
      WholeSectors(size, sectorS);
      AtMostQuotient(size, k, bound);
    }
  }

  lemma AtMostQuotient(size: nat, k: nat, bound: nat)
    requires k > 0
    ensures bound / k * k <= bound
    ensures size * k <= bound ==> size * k <= bound / k * k
  {
    var q := bound / k;
    assert bound == q * k + bound % k;
    assert (size - q) * k == size * k - q * k;
    MultipleIsFar(size - q, k);
  }

  /** A table on which that happens: 1 MiB sizes with a gap of 1 MiB, expanded to 3 MiB. */
  lemma GapWitness()
    ensures var parts, sectors := [Part(1, 2048, 2048), Part(2, 6144, 2048)], MiBToSectors(3, 512);
      LastIsLast(parts, 512, 10239) && LetsThrough(parts, sectors, 512, 10239) && parts[1].start + sectors - 1 > 10239
  {
    var parts := [Part(1, 2048, 2048), Part(2, 6144, 2048)];
    assert parts[..1] == [Part(1, 2048, 2048)];
  }
}

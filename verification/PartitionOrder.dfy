/** Which partitions an installation creates, in which order, and what Sanitize guarantees
    about them. Sizes are in MiB; 0 asks for all the space left. */
module PartitionOrder {

  import opened Basics

  /** `ptr` stands for the identity of the record: exclusion is by pointer. */
  datatype Partition = Partition(ptr: nat, name: string, size: nat, mountPoint: string)

  datatype ElementalPartitions = ElementalPartitions(
    bios: Option<Partition>, boot: Option<Partition>, oem: Option<Partition>,
    recovery: Option<Partition>, state: Option<Partition>, persistent: Option<Partition>)

  function Taken(p: Option<Partition>, excludes: set<nat>): seq<Partition>
  {
    if p.Some? && p.value.ptr !in excludes then [p.value] else []
  }

  /** The partitions whose place is fixed. */
  function Fixed(ep: ElementalPartitions, excludes: set<nat>): seq<Partition>
  {
    Taken(ep.bios, excludes) + Taken(ep.boot, excludes) + Taken(ep.oem, excludes)
    + Taken(ep.recovery, excludes) + Taken(ep.state, excludes)
  }

  /** Those that may ask for the rest of the disk. */
  function Flexible(ep: ElementalPartitions, extra: seq<Partition>, excludes: set<nat>): seq<Partition>
  {
    Taken(ep.persistent, excludes) + extra
  }

  function Sized(s: seq<Partition>): seq<Partition>
  {
    if s == [] then []
    else Sized(s[..|s| - 1]) + (if s[|s| - 1].size != 0 then [s[|s| - 1]] else [])
  }

  /** The first partition of size 0, if any. */
  function Greedy(s: seq<Partition>): seq<Partition>
  {
    if s == [] then []
    else
      var first := Greedy(s[..|s| - 1]);
      if first == [] && s[|s| - 1].size == 0 then [s[|s| - 1]] else first
  }

  function Zeros(s: seq<Partition>): nat
  {
    if s == [] then 0 else Zeros(s[..|s| - 1]) + (if s[|s| - 1].size == 0 then 1 else 0)
  }

  function InstallOrder(ep: ElementalPartitions, extra: seq<Partition>, excludes: set<nat>): seq<Partition>
  {
    var flexible := Flexible(ep, extra, excludes);
    Fixed(ep, excludes) + Sized(flexible) + Greedy(flexible)
  }

  method FixedPartitions(ep: ElementalPartitions, excludes: set<nat>) returns (parts: seq<Partition>)
    ensures parts == Fixed(ep, excludes)
  {
    parts := Append([], ep.bios, excludes);
    parts := Append(parts, ep.boot, excludes);
    parts := Append(parts, ep.oem, excludes);
    parts := Append(parts, ep.recovery, excludes);
    parts := Append(parts, ep.state, excludes);
  }

  method Append(before: seq<Partition>, p: Option<Partition>, excludes: set<nat>) returns (parts: seq<Partition>)
    ensures parts == before + Taken(p, excludes)
  {
    parts := before;
    if p.Some? && p.value.ptr !in excludes { parts := parts + [p.value]; }
  }

  function AsSeq(p: Option<Partition>): seq<Partition>
  {
    if p.Some? then [p.value] else []
  }

  /** The loop over the extra partitions, after `done` have been placed. */
  method PlaceExtras(
    parts0: seq<Partition>, last0: Option<Partition>, extra: seq<Partition>,
    ghost fixed: seq<Partition>, ghost done: seq<Partition>)
    returns (parts: seq<Partition>)
    requires parts0 == fixed + Sized(done) && Greedy(done) == AsSeq(last0)
    ensures parts == fixed + Sized(done + extra) + Greedy(done + extra)
  {
    parts := parts0;
    var last := last0;
    assert done + extra[..0] == done;
    for i := 0 to |extra|
      invariant parts == fixed + Sized(done + extra[..i])
      invariant Greedy(done + extra[..i]) == AsSeq(last)
    {
      var p := extra[i];
      ghost var before, after := done + extra[..i], done + extra[..i + 1];
      assert after[..|after| - 1] == before && after[|after| - 1] == p;
      if p.size == 0 {
        if last.None? { last := Some(p); }
      } else {
        parts := parts + [p];
      }
    }
    assert extra[..|extra|] == extra;
    if last.Some? { parts := parts + [last.value]; }
  }

  method PartitionsByInstallOrder(ep: ElementalPartitions, extra: seq<Partition>, excludes: set<nat>)
    returns (parts: seq<Partition>)
    ensures parts == InstallOrder(ep, extra, excludes)
  {
    parts := FixedPartitions(ep, excludes);
    ghost var fixed, done := parts, Taken(ep.persistent, excludes);
    assert done != [] ==> done[..|done| - 1] == [];
    var last: Option<Partition> := None;
    if ep.persistent.Some? && ep.persistent.value.ptr !in excludes {
      if ep.persistent.value.size == 0 { last := ep.persistent; } else { parts := parts + [ep.persistent.value]; }
    }
    parts := PlaceExtras(parts, last, extra, fixed, done);
  }

  lemma {:induction false} Split(s: seq<Partition>)
    ensures |Sized(s)| == |s| - Zeros(s) && |Greedy(s)| == (if Zeros(s) == 0 then 0 else 1)
    ensures forall p :: p in Sized(s) ==> p.size != 0
    ensures forall p :: p in Greedy(s) ==> p.size == 0
  {
    if s != [] {
      Split(s[..|s| - 1]);
    }
  }

  lemma {:induction false} SplitElements(s: seq<Partition>)
    ensures multiset(Sized(s)) + multiset(Greedy(s)) <= multiset(s)
  {
    if s != [] {
      var n := |s| - 1;
      SplitElements(s[..n]);
      assert s == s[..n] + [s[n]];
      assert multiset(s) == multiset(s[..n]) + multiset{s[n]};
    }
  }

  lemma SameSize(a: multiset<Partition>, b: multiset<Partition>)
    requires a <= b && |a| == |b|
    ensures a == b
  {
    assert b == a + (b - a);
    assert |b - a| == 0;
  }

  /** The order loses or duplicates no partition exactly when at most one of the flexible ones has
      size 0: the branch that drops a partition runs otherwise. */
  lemma OrderIsComplete(ep: ElementalPartitions, extra: seq<Partition>, excludes: set<nat>)
    ensures var fixed, flexible := Fixed(ep, excludes), Flexible(ep, extra, excludes);
      multiset(InstallOrder(ep, extra, excludes)) == multiset(fixed) + multiset(flexible) <==> Zeros(flexible) <= 1
  {
    var fixed, flexible := Fixed(ep, excludes), Flexible(ep, extra, excludes);
    FlexibleIsComplete(flexible);
    AppendElements(fixed, Sized(flexible), Greedy(flexible));
    Cancel(multiset(fixed), multiset(Sized(flexible) + Greedy(flexible)), multiset(flexible));
  }

  lemma AppendElements(a: seq<Partition>, b: seq<Partition>, c: seq<Partition>)
    ensures multiset(a + b + c) == multiset(a) + multiset(b + c)
  {
    assert a + b + c == a + (b + c);
  }

  lemma Cancel(a: multiset<Partition>, b: multiset<Partition>, c: multiset<Partition>)
    ensures a + b == a + c <==> b == c
  {
    assert (a + b) - a == b && (a + c) - a == c;
  }

  lemma FlexibleIsComplete(flexible: seq<Partition>)
    ensures multiset(Sized(flexible) + Greedy(flexible)) == multiset(flexible) <==> Zeros(flexible) <= 1
  {
    var tail := Sized(flexible) + Greedy(flexible);
    Split(flexible);
    SplitElements(flexible);
    assert multiset(tail) == multiset(Sized(flexible)) + multiset(Greedy(flexible));
    assert |multiset(tail)| == |tail| && |multiset(flexible)| == |flexible|;
    if Zeros(flexible) <= 1 { SameSize(multiset(tail), multiset(flexible)); }
  }

  /** With fixed sizes non-zero, only the last place can hold a partition of size 0, and it does
      exactly when some partition asks for the rest. */
  lemma GreedyIsLast(ep: ElementalPartitions, extra: seq<Partition>, excludes: set<nat>)
    requires forall p :: p in Fixed(ep, excludes) ==> p.size != 0
    ensures var r := InstallOrder(ep, extra, excludes);
      && (forall i :: 0 <= i < |r| - 1 ==> r[i].size != 0)
      && (Zeros(Flexible(ep, extra, excludes)) > 0 <==> r != [] && r[|r| - 1].size == 0)
  {
    var fixed, flexible := Fixed(ep, excludes), Flexible(ep, extra, excludes);
    Split(flexible);
    var sized, r := fixed + Sized(flexible), InstallOrder(ep, extra, excludes);
    assert r == sized + Greedy(flexible);
    assert forall i :: 0 <= i < |sized| ==> sized[i] in fixed || sized[i] in Sized(flexible);
    if Greedy(flexible) != [] { assert r[|r| - 1] in Greedy(flexible); }
  }

  lemma {:induction false} SizedAt(s: seq<Partition>, i: nat)
    requires i < |s| && s[i].size != 0
    ensures var k := i - Zeros(s[..i]); 0 <= k < |Sized(s)| && Sized(s)[k] == s[i]
  {
    var n := |s| - 1;
    var front := s[..n];
    if i < n {
      assert front[i] == s[i] && front[..i] == s[..i];
      SizedAt(front, i);
      assert Sized(front) <= Sized(s);
    } else {
      Split(front);
      assert Sized(s) == Sized(front) + [s[n]];
    }
  }

  lemma {:induction false} GreedyIsFirst(s: seq<Partition>, i: nat)
    requires i < |s| && s[i].size == 0 && Zeros(s[..i]) == 0
    ensures Greedy(s) == [s[i]]
  {
    var n := |s| - 1;
    var front := s[..n];
    if i < n {
      assert front[i] == s[i] && front[..i] == s[..i];
      GreedyIsFirst(front, i);
    } else {
      Split(front);
    }
  }

  /** Whether the persistent partition has a place before the extra ones, as 0 or 1. */
  function Leading(ep: ElementalPartitions, excludes: set<nat>): nat
  {
    if ep.persistent.Some? && ep.persistent.value.ptr !in excludes && ep.persistent.value.size != 0 then 1 else 0
  }

  lemma SizedOfFlexible(ep: ElementalPartitions, extra: seq<Partition>, excludes: set<nat>, i: nat)
    requires i < |extra| && extra[i].size != 0
    ensures var flexible, k := Flexible(ep, extra, excludes), Leading(ep, excludes) + i - Zeros(extra[..i]);
      0 <= k < |Sized(flexible)| && Sized(flexible)[k] == extra[i]
  {
    var taken, flexible := Taken(ep.persistent, excludes), Flexible(ep, extra, excludes);
    var at := |taken| + i;
    assert flexible[at] == extra[i] && flexible[..at] == taken + extra[..i];
    ZerosAdd(taken, extra[..i]);
    assert taken != [] ==> taken[..0] == [];
    SizedAt(flexible, at);
    Split(extra[..i]);
  }

  /** The place of an extra partition with a size: after the fixed ones and a persistent one with a size, in
      the order given, those without a size not counted. */
  lemma PlaceOfExtra(ep: ElementalPartitions, extra: seq<Partition>, excludes: set<nat>, i: nat)
    requires i < |extra| && extra[i].size != 0
    ensures var r, fixed := InstallOrder(ep, extra, excludes), |Fixed(ep, excludes)|;
      var k := fixed + Leading(ep, excludes) + i - Zeros(extra[..i]);
      fixed <= k < |r| && r[k] == extra[i]
  {
    SizedOfFlexible(ep, extra, excludes, i);
  }

  /** The place of the persistent partition: right after the fixed ones, or the last one if it asks for the
      rest. */
  lemma PlaceOfPersistent(ep: ElementalPartitions, extra: seq<Partition>, excludes: set<nat>)
    requires ep.persistent.Some? && ep.persistent.value.ptr !in excludes
    ensures var r, fixed := InstallOrder(ep, extra, excludes), |Fixed(ep, excludes)|;
      && r != [] && fixed < |r|
      && (if ep.persistent.value.size != 0 then r[fixed] else r[|r| - 1]) == ep.persistent.value
  {
    var flexible := Flexible(ep, extra, excludes);
    assert flexible[0] == ep.persistent.value && flexible[..0] == [];
    if ep.persistent.value.size != 0 { SizedAt(flexible, 0); } else { GreedyIsFirst(flexible, 0); }
  }

  /** Without that the last place is for the first extra partition that asks for the rest. */
  lemma PlaceOfGreedy(ep: ElementalPartitions, extra: seq<Partition>, excludes: set<nat>, i: nat)
    requires ep.persistent.Some? && ep.persistent.value.ptr !in excludes ==> ep.persistent.value.size != 0
    requires i < |extra| && extra[i].size == 0 && Zeros(extra[..i]) == 0
    ensures var r := InstallOrder(ep, extra, excludes); r != [] && r[|r| - 1] == extra[i]
  {
    var taken, flexible := Taken(ep.persistent, excludes), Flexible(ep, extra, excludes);
    var at := |taken| + i;
    assert flexible[at] == extra[i] && flexible[..at] == taken + extra[..i];
    ZerosAdd(taken, extra[..i]);
    assert taken != [] ==> taken[..0] == [];
    GreedyIsFirst(flexible, at);
  }

  // ---- Sanitize ----

  datatype Firmware = EFI | BIOS | OtherFirmware

  datatype Table = GPT | OtherTable

  datatype Verdict = Accepted(parts: ElementalPartitions) | Rejected | Panics

  datatype InstallSpec = InstallSpec(
    sourceEmpty: bool, firmware: Firmware, table: Table, parts: ElementalPartitions, extra: seq<Partition>)

  const BIOS_SIZE: nat := 1

  function SetFirmware(ep: ElementalPartitions, firmware: Firmware, table: Table, newPtr: nat): Verdict
  {
    if firmware == EFI && table == GPT then
      if ep.boot.None? then Rejected else Accepted(ep.(bios := None))
    else if firmware == BIOS && table == GPT then
      Accepted(ep.(bios := Some(Partition(newPtr, "bios", BIOS_SIZE, "")), boot := None))
    else if ep.state.None? then Rejected
    else Accepted(ep.(boot := None, bios := None))
  }

  /** Sanitize of an install spec; `newPtr` is the identity of a BIOS partition it may create. A nil
      persistent partition is dereferenced when one extra partition has size 0. */
  method Sanitize(spec: InstallSpec, newPtr: nat) returns (v: Verdict)
    ensures v.Accepted? ==>
      && Zeros(Flexible(v.parts, spec.extra, {})) <= 1
      && v.parts.persistent == spec.parts.persistent
      && v.parts.oem == spec.parts.oem && v.parts.recovery == spec.parts.recovery && v.parts.state == spec.parts.state
      && (spec.firmware == EFI && spec.table == GPT ==>
            v.parts.boot == spec.parts.boot && v.parts.boot.Some? && v.parts.bios.None?)
      && (spec.firmware == BIOS && spec.table == GPT ==>
            v.parts.boot.None? && v.parts.bios == Some(Partition(newPtr, "bios", 1, "")))
      && (spec.table != GPT || spec.firmware == OtherFirmware ==> v.parts.boot.None? && v.parts.bios.None?)
    ensures v.Accepted? <==>
      && !spec.sourceEmpty && spec.parts.state.Some? && spec.parts.state.value.mountPoint != ""
      && Zeros(Flexible(spec.parts, spec.extra, {})) <= 1 && !(spec.parts.persistent.None? && Zeros(spec.extra) == 1)
      && !(spec.firmware == EFI && spec.table == GPT && spec.parts.boot.None?)
    ensures v.Panics? <==>
      && !spec.sourceEmpty && spec.parts.state.Some? && spec.parts.state.value.mountPoint != ""
      && spec.parts.persistent.None? && Zeros(spec.extra) == 1
  {
    if spec.sourceEmpty { return Rejected; }
    if spec.parts.state.None? || spec.parts.state.value.mountPoint == "" { return Rejected; }
    var zeros := 0;
    for i := 0 to |spec.extra|
      invariant zeros == Zeros(spec.extra[..i])
    {
      assert spec.extra[..i + 1] == spec.extra[..i] + [spec.extra[i]];
      if spec.extra[i].size == 0 { zeros := zeros + 1; }
    }
    assert spec.extra[..|spec.extra|] == spec.extra;
    ZerosOfFlexible(spec.parts, spec.extra);
    if zeros > 1 { return Rejected; }
    if zeros == 1 {
      if spec.parts.persistent.None? { return Panics; }
      if spec.parts.persistent.value.size == 0 { return Rejected; }
    }
    v := SetFirmware(spec.parts, spec.firmware, spec.table, newPtr);
  }

  lemma {:induction false} ZerosAdd(a: seq<Partition>, b: seq<Partition>)
    ensures Zeros(a + b) == Zeros(a) + Zeros(b)
  {
    if b == [] {
      assert a + b == a;
    } else {
      var n := |b| - 1;
      assert (a + b)[..|a + b| - 1] == a + b[..n];
      ZerosAdd(a, b[..n]);
    }
  }

  lemma ZerosOfFlexible(ep: ElementalPartitions, extra: seq<Partition>)
    ensures Zeros(Flexible(ep, extra, {}))
         == Zeros(extra) + if ep.persistent.Some? && ep.persistent.value.size == 0 then 1 else 0
  {
    var taken := Taken(ep.persistent, {});
    ZerosAdd(taken, extra);
    assert Zeros(taken[..0]) == 0;
  }

  // ---- Sizes of a raw disk ----

  const MIN_PART_SIZE: nat := 64

  function Needed(s: seq<Partition>): nat
  {
    if s == [] then 0
    else Needed(s[..|s| - 1]) + (if s[|s| - 1].size == 0 then MIN_PART_SIZE else s[|s| - 1].size)
  }

  method MinDiskSize(ep: ElementalPartitions) returns (min: nat)
    ensures min == 2 + Needed(InstallOrder(ep, [], {}))
  {
    var parts := PartitionsByInstallOrder(ep, [], {});
    min := AddNeeded(2, parts);
  }

  method AddNeeded(offset: nat, parts: seq<Partition>) returns (min: nat)
    ensures min == offset + Needed(parts)
  {
    min := offset;
    for i := 0 to |parts|
      invariant min == offset + Needed(parts[..i])
    {
      assert parts[..i + 1][..i] == parts[..i];
      min := min + if parts[i].size == 0 then MIN_PART_SIZE else parts[i].size;
    }
    assert parts[..|parts|] == parts;
  }
}

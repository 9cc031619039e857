/** The UEFI boot entries and boot order (section 3.3 of the UEFI Specification 2.10). */
module BootOrder {

  import opened Basics

  datatype Entry = Entry(number: nat, data: seq<byte>, attributes: nat)

  const MAX_BOOT_ENTRIES: nat := 65535

  // ---- Merging boot orders ----

  /** Position of the first occurrence of `x`, the length if there is none. */
  function First(s: seq<int>, x: int): (k: nat)
    ensures k <= |s| && (k < |s| <==> x in s) && (k < |s| ==> s[k] == x)
    ensures forall i :: 0 <= i < k ==> s[i] != x
  {
    if s == [] then 0
    else if s[0] == x then 0
    else
      assert x in s <==> x in s[1..];
      1 + First(s[1..], x)
  }

  /** `r` is `s` without what is not in `keep` and without repetitions, in order of first occurrence. */
  ghost predicate Merged(r: seq<int>, s: seq<int>, keep: set<nat>)
  {
    && (forall x :: x in r <==> x in s && x in keep)
    && InOrder(r, s)
  }

  ghost predicate InOrder(r: seq<int>, s: seq<int>)
  {
    forall i, j :: 0 <= i < j < |r| ==> First(s, r[i]) < First(s, r[j])
  }

  lemma HeadAndTail(r: seq<int>, s: seq<int>, x: int)
    requires r != [] && InOrder(r, s)
    ensures InOrder(r[1..], s) && r[0] !in r[1..] && (x in r <==> x == r[0] || x in r[1..])
  {
    assert r == [r[0]] + r[1..];
  }

  /** The first element of an ordered sequence is the one that occurs first. */
  lemma HeadIsLeast(r: seq<int>, s: seq<int>, x: int)
    requires InOrder(r, s) && x in r
    ensures First(s, r[0]) <= First(s, x) && (First(s, r[0]) == First(s, x) ==> x == r[0])
  {
    var k :| 0 <= k < |r| && r[k] == x;
    if k > 0 { assert First(s, r[0]) < First(s, r[k]); }
  }

  lemma HasFirst(r: seq<int>)
    ensures r == [] || r[0] in r
  {
  }

  lemma {:induction false} MergedIsUnique(r: seq<int>, q: seq<int>, s: seq<int>)
    requires (forall x :: x in r <==> x in q) && InOrder(r, s) && InOrder(q, s)
    ensures r == q
  {
    HasFirst(r);
    HasFirst(q);
    if r != [] {
      HeadIsLeast(r, s, q[0]);
      HeadIsLeast(q, s, r[0]);
      forall x ensures x in r[1..] <==> x in q[1..] {
        HeadAndTail(r, s, x);
        HeadAndTail(q, s, x);
      }
      HeadAndTail(r, s, r[0]);
      HeadAndTail(q, s, q[0]);
      MergedIsUnique(r[1..], q[1..], s);
      assert r == [r[0]] + r[1..] && q == [q[0]] + q[1..];
    }
  }

  lemma FirstInHead(head: seq<int>, tail: seq<int>, x: int)
    ensures First(head + tail, x) == if x in head then First(head, x) else |head| + First(tail, x)
  {
    var s := head + tail;
    if x in head {
      assert s[First(head, x)] == x;
    } else {
      assert forall i :: 0 <= i < |head| ==> s[i] == head[i];
      assert forall i :: 0 <= i < |tail| ==> s[|head| + i] == tail[i];
    }
  }

  /** One more element: kept if known and new. */
  function Extend(r: seq<int>, x: int, keep: set<nat>): seq<int>
  {
    if x in keep && x !in r then r + [x] else r
  }

  lemma MergeNext(r: seq<int>, s: seq<int>, x: int, keep: set<nat>)
    requires Merged(r, s, keep)
    ensures Merged(Extend(r, x, keep), s + [x], keep)
  {
    var r' := Extend(r, x, keep);
    forall y ensures y in r' <==> y in s + [x] && y in keep {
      assert y in s + [x] <==> y in s || y == x;
      assert y in r + [x] <==> y in r || y == x;
    }
    forall i, j | 0 <= i < j < |r'| ensures First(s + [x], r'[i]) < First(s + [x], r'[j]) {
      assert r'[i] == r[i] && r[i] in r;
      FirstInHead(s, [x], r'[i]);
      FirstInHead(s, [x], r'[j]);
      if j < |r| { assert r'[j] == r[j] && r[j] in r; }
    }
  }

  // ---- The manager ----

  function Low(n: int): byte { n % 256 }

  function High(n: int): byte { n / 256 % 256 }

  /** Two bytes per number, the low one first; numbers are cut to 16 bits. */
  function Encode(order: seq<int>): seq<byte>
  {
    if order == [] then [] else Encode(order[..|order| - 1]) + [Low(order[|order| - 1]), High(order[|order| - 1])]
  }

  /** The numbers in a BootOrder variable; reading one with an odd number of bytes panics. */
  function Decode(bytes: seq<byte>): Option<seq<int>>
  {
    if |bytes| % 2 == 1 then None else Some(DecodePairs(bytes))
  }

  function DecodePairs(bytes: seq<byte>): seq<int>
    requires |bytes| % 2 == 0
  {
    if bytes == [] then []
    else
      var n := |bytes| - 2;
      DecodePairs(bytes[..n]) + [Join(bytes[n], bytes[n + 1])]
  }

  function Join(lo: int, hi: int): int { lo + 256 * hi }

  predicate Word(n: int)
  {
    0 <= n < 65536
  }

  lemma SplitWord(n: int)
    requires Word(n)
    ensures Join(Low(n), High(n)) == n
  {
  }

  lemma DecodeLast(bytes: seq<byte>, lo: byte, hi: byte)
    requires |bytes| % 2 == 0
    ensures DecodePairs(bytes + [lo, hi]) == DecodePairs(bytes) + [Join(lo, hi)]
  {
    var all := bytes + [lo, hi];
    assert |all| == |bytes| + 2 && all[..|all| - 2] == bytes;
    assert all[|all| - 2] == lo && all[|all| - 1] == hi;
  }

  /** Number `i` is read from bytes 2i and 2i + 1, the low one first. */
  lemma {:induction false} DecodeAt(bytes: seq<byte>, i: nat)
    requires |bytes| % 2 == 0 && 2 * i < |bytes|
    ensures |DecodePairs(bytes)| == |bytes| / 2
    ensures DecodePairs(bytes)[i] == (bytes[2 * i] as int) + 256 * (bytes[2 * i + 1] as int)
  {
    var n := |bytes| - 2;
    if n > 0 { DecodeAt(bytes[..n], if 2 * i < n then i else 0); }
  }

  /** And written there. */
  lemma {:induction false} EncodeAt(order: seq<int>, i: nat)
    requires i < |order| && Word(order[i])
    ensures |Encode(order)| == 2 * |order|
    ensures Encode(order)[2 * i] == order[i] % 256 && Encode(order)[2 * i + 1] == order[i] / 256
  {
    var n := |order| - 1;
    EncodeLength(order[..n]);
    if i < n { EncodeAt(order[..n], i); }
  }

  lemma {:induction false} EncodeLength(order: seq<int>)
    ensures |Encode(order)| == 2 * |order|
  {
    if order != [] { EncodeLength(order[..|order| - 1]); }
  }

  /** What is written reads back, for 16-bit numbers. */
  lemma {:induction false} DecodeEncode(order: seq<int>)
    requires forall i :: 0 <= i < |order| ==> Word(order[i])
    ensures Decode(Encode(order)) == Some(order)
  {
    if order != [] {
      var k := |order| - 1;
      DecodeEncode(order[..k]);
      DecodeLast(Encode(order[..k]), Low(order[k]), High(order[k]));
      SplitWord(order[k]);
      assert order == order[..k] + [order[k]];
    }
  }

  /** A Boot#### variable as stored by the firmware. */
  datatype Variable = Variable(data: seq<byte>, attributes: nat)

  /** The entries of a manager: those variables whose load option can be read. */
  function Readable(variables: map<nat, Variable>, unreadable: set<nat>): map<nat, Entry>
  {
    map n | n in variables && n !in unreadable :: Entry(n, variables[n].data, variables[n].attributes)
  }

  /** The loop over the names of the variables; those that cannot be read are skipped. */
  method ReadEntries(names: seq<nat>, variables: map<nat, Variable>, unreadable: set<nat>)
    returns (entries: map<nat, Entry>)
    requires forall n :: n in names <==> n in variables
    ensures entries == Readable(variables, unreadable)
    ensures forall n :: n in entries <==> n in variables && n !in unreadable
    ensures forall n :: n in entries ==> entries[n] == Entry(n, variables[n].data, variables[n].attributes)
  {
    entries := map[];
    for i := 0 to |names|
      invariant forall n :: n in entries <==> n in names[..i] && n !in unreadable
      invariant forall n :: n in entries ==>
        n in variables && entries[n] == Entry(n, variables[n].data, variables[n].attributes)
    {
      var n := names[i];
      assert names[..i + 1] == names[..i] + [n];
      if n !in unreadable { entries := entries[n := Entry(n, variables[n].data, variables[n].attributes)]; }
    }
    assert names[..|names|] == names;
  }

  predicate HasContent(e: Entry, data: seq<byte>, attributes: nat)
  {
    e.data == data && e.attributes == attributes
  }

  ghost predicate Exists(entries: map<nat, Entry>, data: seq<byte>, attributes: nat)
  {
    exists n :: n in entries && HasContent(entries[n], data, attributes)
  }

  /** No entry can be had: no number is free (even if the entry exists), its path cannot be built, or it
      does not exist and cannot be stored. */
  ghost predicate NoEntry(entries: map<nat, Entry>, data: seq<byte>, attributes: nat, pathOk: bool, setOk: bool)
  {
    || (forall i :: 0 <= i < MAX_BOOT_ENTRIES ==> i in entries) || !pathOk
    || (!setOk && !Exists(entries, data, attributes))
  }

  /** The least number without an entry belongs to a variable that could not be read. */
  ghost predicate NextIsTaken(entries: map<nat, Entry>, variables: map<nat, Variable>)
  {
    exists n :: n in variables && n !in entries && forall i :: 0 <= i < n ==> i in entries
  }

  class BootManager {
    var entries: map<nat, Entry>
    var bootOrder: seq<int>
    var variable: seq<byte>               // BootOrder as stored by the firmware
    var variables: map<nat, Variable>     // the Boot#### variables

    ghost predicate Valid()
      reads this
    {
      forall n :: n in entries ==>
        && Word(n) && entries[n].number == n
        && n in variables && variables[n] == Variable(entries[n].data, entries[n].attributes)
    }

    /** A manager over the stored variables, given the order in which they are listed. */
    constructor (names: seq<nat>, variables: map<nat, Variable>, unreadable: set<nat>, variable: seq<byte>)
      requires |variable| % 2 == 0
      requires (forall n :: n in names <==> n in variables) && forall n :: n in variables ==> Word(n)
      ensures Valid() && entries == Readable(variables, unreadable)
      ensures forall n :: n in entries <==> n in variables && n !in unreadable
      ensures this.variables == variables && this.variable == variable
      ensures Some(bootOrder) == Decode(variable)
    {
      var order := DecodeOrder(variable);
      var read := ReadEntries(names, variables, unreadable);
      this.variables, this.variable, entries, bootOrder := variables, variable, read, order;
    }

    /** Puts `head` in front of the order and commits it. */
    method PrependAndSetBootOrder(head: seq<int>, setOk: bool) returns (err: bool)
      requires Valid()
      modifies this`bootOrder, this`variable
      ensures err == !setOk
      ensures err ==> bootOrder == old(bootOrder) && variable == old(variable)
      ensures !err ==> Merged(bootOrder, head + old(bootOrder), entries.Keys) && Decode(variable) == Some(bootOrder)
    {
      var newOrder := Merge(head + bootOrder);
      var output := EncodeOrder(newOrder);
      forall i | 0 <= i < |newOrder| ensures Word(newOrder[i]) { assert newOrder[i] in newOrder; }
      DecodeEncode(newOrder);
      if !setOk { return true; }
      variable, bootOrder := output, newOrder;
      return false;
    }

    /** Filters out duplicates and unknown entries. */
    method Merge(all: seq<int>) returns (newOrder: seq<int>)
      ensures Merged(newOrder, all, entries.Keys)
    {
      newOrder := [];
      for i := 0 to |all|
        invariant Merged(newOrder, all[..i], entries.Keys)
      {
        var num := all[i];
        var isDuplicate := Occurs(num, newOrder);
        MergeNext(newOrder, all[..i], num, entries.Keys);
        assert all[..i + 1] == all[..i] + [num];
        ghost var extended := Extend(newOrder, num, entries.Keys);
        if num in entries && !isDuplicate { newOrder := newOrder + [num]; }
        assert newOrder == extended;
      }
      assert all[..|all|] == all;
    }

    method NextFreeEntry() returns (n: Option<nat>)
      ensures n.None? <==> forall i :: 0 <= i < 65535 ==> i in entries
      ensures n.Some? ==>
        n.value < 65535 && n.value !in entries && forall i :: 0 <= i < n.value ==> i in entries
    {
      for i := 0 to MAX_BOOT_ENTRIES
        invariant forall k :: 0 <= k < i ==> k in entries
      {
        if i !in entries { return Some(i); }
      }
      return None;
    }

    /** An entry with this content: an existing one, or a new one under the least number without an entry.
        A variable of that number that could not be read is overwritten. */
    method FindOrCreateEntry(data: seq<byte>, attributes: nat, pathOk: bool, setOk: bool) returns (r: Option<nat>)
      requires Valid()
      modifies this`entries, this`variables
      ensures Valid()
      ensures r.None? <==> NoEntry(old(entries), data, attributes, pathOk, setOk)
      ensures r.None? || Exists(old(entries), data, attributes) ==>
        entries == old(entries) && variables == old(variables)
      ensures r.Some? ==> r.value in entries && entries[r.value] == Entry(r.value, data, attributes)
      ensures r.Some? && !Exists(old(entries), data, attributes) ==>
        && r.value !in old(entries) && (forall i :: 0 <= i < r.value ==> i in old(entries))
        && entries == old(entries)[r.value := Entry(r.value, data, attributes)]
        && variables == old(variables)[r.value := Variable(data, attributes)]
        && (r.value in old(variables) <==> NextIsTaken(old(entries), old(variables)))
    {
      var free := NextFreeEntry();
      if free.None? || !pathOk { return None; }
      if n :| n in entries && HasContent(entries[n], data, attributes) {
        return Some(entries[n].number);
      }
      if !setOk { return None; }
      variables := variables[free.value := Variable(data, attributes)];
      entries := entries[free.value := Entry(free.value, data, attributes)];
      return free;
    }

    /** Makes an entry the first to boot, as the bootloader setup does. If the order cannot be stored
        the order stays, but an entry created for it stays too. */
    method SetFirst(data: seq<byte>, attributes: nat, pathOk: bool, setOk: bool, orderOk: bool) returns (r: Option<nat>)
      requires Valid()
      modifies this
      ensures Valid()
      ensures r.None? <==> !orderOk || NoEntry(old(entries), data, attributes, pathOk, setOk)
      ensures r.None? ==> bootOrder == old(bootOrder) && variable == old(variable)
      ensures NoEntry(old(entries), data, attributes, pathOk, setOk) ==>
        entries == old(entries) && variables == old(variables)
      ensures r.Some? ==>
        && r.value in entries && entries[r.value] == Entry(r.value, data, attributes)
        && bootOrder != [] && bootOrder[0] == r.value && Decode(variable) == Some(bootOrder)
        && Merged(bootOrder, [r.value] + old(bootOrder), entries.Keys)
    {
      r := FindOrCreateEntry(data, attributes, pathOk, setOk);
      if r.None? { return; }
      ghost var all := [r.value as int] + bootOrder;
      var err := PrependAndSetBootOrder([r.value], orderOk);
      if err { return None; }
      assert all[0] == r.value && First(all, r.value) == 0;
      assert r.value as int in bootOrder;
      var k :| 0 <= k < |bootOrder| && bootOrder[k] == r.value;
    }
  }

  method Occurs(num: int, order: seq<int>) returns (found: bool)
    ensures found <==> num in order
  {
    found := false;
    for j := 0 to |order|
      invariant found <==> num in order[..j]
    {
      if order[j] == num { found := true; }
    }
    assert order[..|order|] == order;
  }

  lemma DecodeTwoMore(bytes: seq<byte>, i: nat)
    requires i % 2 == 0 && i + 2 <= |bytes|
    ensures DecodePairs(bytes[..i + 2]) == DecodePairs(bytes[..i]) + [Join(bytes[i], bytes[i + 1])]
  {
    DecodeLast(bytes[..i], bytes[i], bytes[i + 1]);
    assert bytes[..i + 2] == bytes[..i] + [bytes[i], bytes[i + 1]];
  }

  method DecodeOrder(bytes: seq<byte>) returns (order: seq<int>)
    requires |bytes| % 2 == 0
    ensures Some(order) == Decode(bytes)
  {
    order := [];
    var i := 0;
    while i < |bytes|
      invariant 0 <= i <= |bytes| && i % 2 == 0 && order == DecodePairs(bytes[..i])
    {
      DecodeTwoMore(bytes, i);
      order := order + [Join(bytes[i], bytes[i + 1])];
      i := i + 2;
    }
    assert bytes[..|bytes|] == bytes;
  }

  method EncodeOrder(order: seq<int>) returns (output: seq<byte>)
    ensures output == Encode(order)
  {
    output := [];
    for i := 0 to |order|
      invariant output == Encode(order[..i])
    {
      assert order[..i + 1][..i] == order[..i];
      output := output + [Low(order[i]), High(order[i])];
    }
    assert order[..|order|] == order;
  }

  lemma FirstInMerged(r: seq<int>, s: seq<int>, i: nat)
    requires i < |r| && InOrder(r, s)
    ensures First(r, r[i]) == i
  {
    var k := First(r, r[i]);
    assert r[i] in r && r[k] == r[i];
    assert First(s, r[k]) == First(s, r[i]);
  }

  /** Setting the same head again changes nothing. */
  lemma PrependIsIdempotent(head: seq<int>, order: seq<int>, keep: set<nat>, r: seq<int>, q: seq<int>)
    requires Merged(r, head + order, keep) && Merged(q, head + r, keep)
    ensures q == r
  {
    var s, t := head + order, head + r;
    forall i, j | 0 <= i < j < |r| ensures First(t, r[i]) < First(t, r[j]) {
      FirstInHead(head, order, r[i]);
      FirstInHead(head, order, r[j]);
      FirstInHead(head, r, r[i]);
      FirstInHead(head, r, r[j]);
      FirstInMerged(r, s, i);
      FirstInMerged(r, s, j);
    }
    forall x ensures x in r <==> x in q {
      assert x in t <==> x in head || x in r;
      assert x in s <==> x in head || x in order;
    }
    MergedIsUnique(r, q, t);
  }
}

/** Snapshot IDs as they appear on disk: a finite set of numbers, its listings
    and the counting facts that retention rests on. */
module SnapshotIds {

  /** `r` enumerates `ids`: every element once, nothing else. */
  ghost predicate Lists(r: seq<nat>, ids: set<nat>)
  {
    && (forall x :: x in r <==> x in ids)
    && (forall i, j :: 0 <= i < j < |r| ==> r[i] != r[j])
  }

  ghost predicate Increasing(r: seq<nat>)
  {
    forall i, j :: 0 <= i < j < |r| ==> r[i] < r[j]
  }

  predicate IsLeast(m: nat, ids: set<nat>)
  {
    m in ids && forall x :: x in ids ==> m <= x
  }

  lemma {:induction false} Least(ids: set<nat>) returns (m: nat)
    requires ids != {}
    ensures IsLeast(m, ids)
  {
    m :| m in ids;
    var rest := ids - {m};
    if rest != {} {
      var k := Least(rest);
      LeastOfTwo(m, k, ids);
      if k < m { m := k; }
    } else {
      assert ids == {m};
    }
  }

  lemma LeastOfTwo(m: nat, k: nat, ids: set<nat>)
    requires m in ids && IsLeast(k, ids - {m})
    ensures IsLeast(if k < m then k else m, ids)
  {
    forall x | x in ids ensures (if k < m then k else m) <= x {
      if x != m { assert x in ids - {m}; }
    }
  }

  lemma LeastExists(ids: set<nat>)
    requires ids != {}
    ensures exists m :: IsLeast(m, ids)
  {
    var m := Least(ids);
  }

  lemma PrependLeast(m: nat, r: seq<nat>, ids: set<nat>)
    requires IsLeast(m, ids)
    requires Lists(r, ids - {m}) && Increasing(r)
    ensures Lists([m] + r, ids) && Increasing([m] + r)
  {
    var s := [m] + r;
    forall x ensures x in s <==> x in ids {
      assert x in s <==> x == m || x in r;
    }
    forall i, j | 0 <= i < j < |s| ensures s[i] < s[j] {
      assert s[j] == r[j - 1] && r[j - 1] in r;
    }
  }

  /** The IDs in numeric order, as sort.Ints leaves them. */
  function Ascending(ids: set<nat>): (r: seq<nat>)
    ensures Lists(r, ids) && Increasing(r) && |r| == |ids|
  {
    if ids == {} then [] else
      LeastExists(ids);
      var m :| IsLeast(m, ids);
      var r := Ascending(ids - {m});
      PrependLeast(m, r, ids);
      [m] + r
  }

  function Digit(d: nat): char
    requires d < 10
  {
    ('0' as int + d) as char
  }

  /** Decimal name of the directory that holds a snapshot. */
  function Name(id: nat): string
  {
    if id < 10 then [Digit(id)] else Name(id / 10) + [Digit(id % 10)]
  }

  predicate NameBefore(a: string, b: string)
  {
    b != [] && (a == [] || a[0] < b[0] || (a[0] == b[0] && NameBefore(a[1..], b[1..])))
  }

  /** The number a decimal name stands for. */
  function Number(name: string): nat
    requires forall i :: 0 <= i < |name| ==> '0' <= name[i] <= '9'
  {
    if name == [] then 0 else 10 * Number(name[..|name| - 1]) + (name[|name| - 1] as int - '0' as int)
  }

  lemma {:induction false} NameIsDecimal(id: nat)
    ensures forall i :: 0 <= i < |Name(id)| ==> '0' <= Name(id)[i] <= '9'
    ensures Number(Name(id)) == id
  {
    if id < 10 {
      assert Name(id)[..0] == [];
    } else {
      NameIsDecimal(id / 10);
      assert Name(id)[..|Name(id)| - 1] == Name(id / 10);
    }
  }

  /** The two agree up to `k`, where the first one ends or has the smaller character. */
  predicate DifferAt(a: string, b: string, k: nat)
  {
    k <= |a| && k < |b| && a[..k] == b[..k] && (k == |a| || a[k] < b[k])
  }

  lemma {:induction false} NameBeforeIsLexical(a: string, b: string)
    ensures NameBefore(a, b) <==> exists k :: DifferAt(a, b, k)
  {
    forall k: nat | DifferAt(a, b, k) && k > 0 ensures a[0] == b[0] {
      assert a[0] == a[..k][0] && b[0] == b[..k][0];
    }
    if a != [] && b != [] && a[0] == b[0] {
      NameBeforeIsLexical(a[1..], b[1..]);
      if k: nat :| DifferAt(a[1..], b[1..], k) {
        assert a[..k + 1] == [a[0]] + a[1..][..k] && b[..k + 1] == [b[0]] + b[1..][..k];
        assert DifferAt(a, b, k + 1);
      }
      if k: nat :| DifferAt(a, b, k) {
        assert k > 0;
        assert a[1..][..k - 1] == a[..k][1..] && b[1..][..k - 1] == b[..k][1..];
        assert DifferAt(a[1..], b[1..], k - 1);
      }
    } else if NameBefore(a, b) {
      assert DifferAt(a, b, 0);
    }
  }

  /** Listed by name. */
  ghost predicate ByName(r: seq<nat>)
  {
    forall i, j :: 0 <= i < j < |r| ==> NameBefore(Name(r[i]), Name(r[j]))
  }

  lemma {:induction false} NamesAreOrdered(a: string, b: string, c: string)
    requires NameBefore(a, b) && NameBefore(b, c)
    ensures NameBefore(a, c)
  {
    if a != [] && a[0] == b[0] == c[0] { NamesAreOrdered(a[1..], b[1..], c[1..]); }
  }

  lemma {:induction false} NamesAreComparable(a: string, b: string)
    requires a != b
    ensures NameBefore(a, b) || NameBefore(b, a)
  {
    if a != [] && b != [] && a[0] == b[0] {
      assert a == [a[0]] + a[1..] && b == [b[0]] + b[1..];
      NamesAreComparable(a[1..], b[1..]);
    }
  }

  lemma {:induction false} NamesAreDistinct(m: nat, n: nat)
    requires Name(m) == Name(n)
    ensures m == n
  {
    NameIsLong(m);
    NameIsLong(n);
    if m >= 10 && n >= 10 {
      var k := |Name(m)| - 1;
      assert Name(m)[..k] == Name(m / 10) && Name(n)[..k] == Name(n / 10);
      assert Name(m)[k] == Digit(m % 10) && Name(n)[k] == Digit(n % 10);
      NamesAreDistinct(m / 10, n / 10);
    } else if m < 10 && n < 10 {
      assert Name(m)[0] == Digit(m) && Name(n)[0] == Digit(n);
    }
  }

  lemma {:induction false} NameIsLong(n: nat)
    ensures |Name(n)| >= 1 && (n >= 10 <==> |Name(n)| >= 2)
  {
    if n >= 10 { NameIsLong(n / 10); }
  }

  function InsertByName(id: nat, r: seq<nat>): (r': seq<nat>)
    ensures multiset(r') == multiset(r) + multiset{id}
  {
    if r == [] || NameBefore(Name(id), Name(r[0])) then [id] + r
    else assert r == [r[0]] + r[1..]; [r[0]] + InsertByName(id, r[1..])
  }

  function SortByName(r: seq<nat>): (r': seq<nat>)
    ensures multiset(r') == multiset(r)
  {
    if r == [] then []
    else assert r == [r[0]] + r[1..]; InsertByName(r[0], SortByName(r[1..]))
  }

  lemma InsertedElements(id: nat, r: seq<nat>, x: nat)
    ensures x in InsertByName(id, r) <==> x in r || x == id
  {
    assert x in InsertByName(id, r) <==> x in multiset(InsertByName(id, r));
    assert x in r <==> x in multiset(r);
  }

  lemma PrependByName(x: nat, r: seq<nat>)
    requires ByName(r) && forall y :: y in r ==> NameBefore(Name(x), Name(y))
    ensures ByName([x] + r)
  {
    var s := [x] + r;
    forall i, j | 0 <= i < j < |s| ensures NameBefore(Name(s[i]), Name(s[j])) {
      assert s[j] == r[j - 1] && r[j - 1] in r;
    }
  }

  lemma {:induction false} InsertKeepsOrder(id: nat, r: seq<nat>)
    requires ByName(r) && id !in r
    ensures ByName(InsertByName(id, r))
  {
    if r != [] {
      if NameBefore(Name(id), Name(r[0])) {
        forall y | y in r ensures NameBefore(Name(id), Name(y)) {
          if y != r[0] { NamesAreOrdered(Name(id), Name(r[0]), Name(y)); }
        }
        PrependByName(id, r);
      } else {
        var rest := InsertByName(id, r[1..]);
        InsertKeepsOrder(id, r[1..]);
        if Name(id) == Name(r[0]) { NamesAreDistinct(id, r[0]); }
        NamesAreComparable(Name(id), Name(r[0]));
        forall y | y in rest ensures NameBefore(Name(r[0]), Name(y)) {
          InsertedElements(id, r[1..], y);
        }
        PrependByName(r[0], rest);
      }
    }
  }

  lemma {:induction false} SortOrders(r: seq<nat>)
    requires Increasing(r)
    ensures ByName(SortByName(r))
  {
    if r != [] {
      SortOrders(r[1..]);
      var sorted := SortByName(r[1..]);
      assert r[0] in sorted <==> r[0] in multiset(sorted);
      assert r[0] in r[1..] <==> r[0] in multiset(r[1..]);
      InsertKeepsOrder(r[0], sorted);
    }
  }

  lemma SameElementsList(r: seq<nat>, r': seq<nat>, ids: set<nat>)
    requires Lists(r, ids) && multiset(r) == multiset(r')
    ensures Lists(r', ids) && |r'| == |r|
  {
    assert |multiset(r)| == |multiset(r')|;
    forall x ensures x in r' <==> x in ids {
      assert x in r' <==> x in multiset(r');
      assert x in r <==> x in multiset(r);
    }
    forall i, j | 0 <= i < j < |r'| ensures r'[i] != r'[j] {
      if r'[i] == r'[j] {
        TwiceInMultiset(r', i, j);
        OnceInMultiset(r, r'[i]);
      }
    }
  }

  lemma TwiceInMultiset(r: seq<nat>, i: nat, j: nat)
    requires i < j < |r| && r[i] == r[j]
    ensures multiset(r)[r[i]] >= 2
  {
    assert r == r[..i] + [r[i]] + r[i + 1..j] + [r[j]] + r[j + 1..];
  }

  lemma {:induction false} OnceInMultiset(r: seq<nat>, x: nat)
    requires forall i, j :: 0 <= i < j < |r| ==> r[i] != r[j]
    ensures multiset(r)[x] <= 1
  {
    if r != [] {
      assert r == [r[0]] + r[1..];
      OnceInMultiset(r[1..], x);
      assert r[0] !in r[1..];
      assert multiset(r[1..])[r[0]] == 0;
    }
  }

  /** The snapshot directories in the order ReadDir reports them: by name, so 10 comes before 9. */
  function Listing(ids: set<nat>): (r: seq<nat>)
    ensures Lists(r, ids) && ByName(r) && |r| == |ids|
  {
    var r := SortByName(Ascending(ids));
    SortOrders(Ascending(ids));
    SameElementsList(Ascending(ids), r, ids);
    r
  }

  /** Snapshot 10 is listed before snapshot 9. */
  lemma TenBeforeNine()
    ensures Listing({9, 10}) == [10, 9]
  {
    assert Name(10) == Name(1) + [Digit(0)] && Name(1)[0] == Digit(1) && Name(9)[0] == Digit(9);
    assert !NameBefore(Name(9), Name(10));
    TwoByName(Listing({9, 10}), 10, 9);
  }

  lemma TwoByName(r: seq<nat>, a: nat, b: nat)
    requires |r| == 2 && a != b && ByName(r) && !NameBefore(Name(b), Name(a))
    requires (forall x :: x in r <==> x == a || x == b) && r[0] != r[1]
    ensures r == [a, b]
  {
    assert r[0] in r && r[1] in r;
  }

  /** The number handed to a new snapshot: one above the largest on disk. */
  function NextId(ids: set<nat>): (id: nat)
    ensures id >= 1 && id !in ids
    ensures forall d :: d in ids ==> d < id
    ensures id == 1 || id - 1 in ids
  {
    var r := Ascending(ids);
    if r == [] then 1 else
      assert forall d :: d in ids ==> exists i :: 0 <= i < |r| && r[i] == d;
      r[|r| - 1] + 1
  }

  ghost function NewerSet(ids: set<nat>, id: nat): set<nat>
  {
    set x | x in ids && x > id
  }

  /** How many of `ids` are newer than `id`. */
  ghost function Newer(ids: set<nat>, id: nat): nat
  {
    |NewerSet(ids, id)|
  }

  /** The IDs retention wants gone: those with at least `max - 1` newer passive snapshots. */
  ghost function Victims(ids: set<nat>, max: int): set<nat>
  {
    set x | x in ids && Newer(ids, x) >= max - 1
  }

  function Elements(r: seq<nat>): set<nat>
  {
    set x | x in r
  }

  lemma ElementsOfCons(x: nat, rest: seq<nat>)
    ensures Elements([x] + rest) == {x} + Elements(rest)
  {
    forall y ensures y in [x] + rest <==> y == x || y in rest {
    }
  }

  lemma {:induction false} ElementCount(r: seq<nat>)
    requires Increasing(r)
    ensures |Elements(r)| == |r|
  {
    if r != [] {
      var rest := r[1..];
      ElementCount(rest);
      ElementsOfCons(r[0], rest);
      assert r == [r[0]] + rest;
      assert r[0] !in Elements(rest);
    }
  }

  lemma NewerAt(ids: set<nat>, r: seq<nat>, i: nat)
    requires Lists(r, ids) && Increasing(r) && i < |r|
    ensures Newer(ids, r[i]) == |r| - 1 - i
  {
    var tail := r[i + 1..];
    var newer := NewerSet(ids, r[i]);
    forall x ensures x in newer <==> x in tail {
      if x in newer {
        var k :| 0 <= k < |r| && r[k] == x;
        assert k > i;
        assert tail[k - i - 1] == x;
      }
    }
    assert newer == Elements(tail);
    ElementCount(tail);
  }

  /** Deleting from the front of the sorted list until at most `max - 1` remain
      deletes exactly the victims. */
  lemma PrefixIsVictims(ids: set<nat>, max: int, k: nat)
    requires k <= |ids|
    requires k == |ids| || |ids| - k <= max - 1
    requires k == 0 || |ids| - (k - 1) > max - 1
    ensures Elements(Ascending(ids)[..k]) == Victims(ids, max)
  {
    var r := Ascending(ids);
    forall x ensures x in r[..k] <==> x in Victims(ids, max) {
      if x in ids {
        var i :| 0 <= i < |r| && r[i] == x;
        NewerAt(ids, r, i);
        if i < k { assert r[..k][i] == x; }
      }
    }
  }

  lemma SuffixIsRest(r: seq<nat>, ids: set<nat>, k: nat)
    requires Lists(r, ids) && k <= |r|
    ensures Elements(r[k..]) == ids - Elements(r[..k])
  {
    forall x ensures x in r[k..] <==> x in ids && x !in r[..k] {
      if x in r[k..] {
        var i :| 0 <= i < |r[k..]| && r[k..][i] == x;
        assert r[k + i] == x;
      }
      assert r == r[..k] + r[k..];
    }
  }

  /** What retention leaves alone is the `max - 1` largest IDs, or all of them. */
  lemma KeptCount(ids: set<nat>, max: int)
    requires max >= 1
    ensures |ids - Victims(ids, max)| == if |ids| <= max - 1 then |ids| else max - 1
    ensures forall v, k :: v in Victims(ids, max) && k in ids - Victims(ids, max) ==> v < k
  {
    var r := Ascending(ids);
    var k := if |ids| <= max - 1 then 0 else |ids| - (max - 1);
    PrefixIsVictims(ids, max, k);
    SuffixIsRest(r, ids, k);
    ElementCount(r[k..]);
  }
}

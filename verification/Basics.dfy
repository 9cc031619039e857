/** Definitions shared by the models. */
module Basics {

  datatype Option<+T> = None | Some(value: T)

  type byte = x: int | 0 <= x < 256

  function Rev<T>(s: seq<T>): seq<T>
  {
    if s == [] then [] else [s[|s| - 1]] + Rev(s[..|s| - 1])
  }

  lemma RevOnto<T>(s: seq<T>, x: T)
    ensures Rev(s + [x]) == [x] + Rev(s)
  {
    assert (s + [x])[..|s|] == s;
  }

  lemma {:induction false} RevFront<T>(x: T, s: seq<T>)
    ensures Rev([x] + s) == Rev(s) + [x]
  {
    if s != [] {
      var n := |s| - 1;
      assert [x] + s == ([x] + s[..n]) + [s[n]];
      RevOnto([x] + s[..n], s[n]);
      RevFront(x, s[..n]);
    }
  }

  lemma {:induction false} RevAt<T>(s: seq<T>, i: nat)
    requires i < |s|
    ensures |Rev(s)| == |s| && Rev(s)[i] == s[|s| - 1 - i]
  {
    if |s| > 1 { RevAt(s[..|s| - 1], if i > 0 then i - 1 else 0); }
  }

  /** Reversing twice gives back the sequence. */
  lemma {:induction false} RevTwice<T>(s: seq<T>)
    ensures Rev(Rev(s)) == s
  {
    if s != [] {
      RevFront(s[|s| - 1], Rev(s[..|s| - 1]));
      RevTwice(s[..|s| - 1]);
    }
  }
}

/** The `Vec` operations of Rust's standard library that the core relies on, as functions
    on sequences: `iter().position`, `swap_remove` and `reverse`. */
module Vecs {
  import opened Errors

  /** No element occurs twice. */
  ghost predicate Distinct<T>(s: seq<T>) {
    forall i, j :: 0 <= i < j < |s| ==> s[i] != s[j]
  }

  /** `iter().position(|&x| x == e)`: the index of the first `e`, if any. */
  function Position<T(==)>(s: seq<T>, e: T): (r: Option<nat>)
    ensures r.None? <==> e !in s
    ensures r.Some? ==> r.value < |s| && s[r.value] == e && e !in s[..r.value]
  {
    if |s| == 0 then None
    else if s[0] == e then Some(0)
    else match Position(s[1..], e)
      case None => None
      case Some(i) =>
        assert s[..i + 1] == [s[0]] + s[1..][..i];
        Some(i + 1)
  }

  /** `swap_remove(i)`: the last element takes the place of the removed one. */
  function SwapRemove<T>(s: seq<T>, i: nat): (r: seq<T>)
    requires i < |s|
    ensures |r| == |s| - 1
    ensures i < |s| - 1 ==> r[i] == s[|s| - 1]
    ensures forall k :: 0 <= k < |r| && k != i ==> r[k] == s[k]
    ensures multiset(r) == multiset(s) - multiset{s[i]}
  {
    var r := s[i := s[|s| - 1]][..|s| - 1];
    if i == |s| - 1 then
      assert s == r + [s[i]];
      r
    else
      assert s == s[..i] + [s[i]] + s[i + 1..|s| - 1] + [s[|s| - 1]];
      assert r == s[..i] + [s[|s| - 1]] + s[i + 1..|s| - 1];
      r
  }

  /** Removing an element from a list without repeats leaves no copy of it behind. */
  lemma SwapRemoveDistinct<T>(s: seq<T>, i: nat)
    requires i < |s| && Distinct(s)
    ensures Distinct(SwapRemove(s, i))
    ensures s[i] !in SwapRemove(s, i)
  {
    var r := SwapRemove(s, i);
    forall a, b | 0 <= a < b < |r| ensures r[a] != r[b] {
      var a' := if a == i then |s| - 1 else a;
      var b' := if b == i then |s| - 1 else b;
      assert r[a] == s[a'] && r[b] == s[b'];
    }
  }

  /** `reverse()`. */
  function Reversed<T>(s: seq<T>): (r: seq<T>)
    ensures |r| == |s|
    ensures forall k :: 0 <= k < |s| ==> r[k] == s[|s| - 1 - k]
  {
    if |s| == 0 then [] else [s[|s| - 1]] + Reversed(s[..|s| - 1])
  }
}

/** The flood-id rule shared by every flood requester: the first request carries id 0 and
    each later one the last recorded id plus one, and every id is recorded. Flood ids are
    `u64` in the source; they are unbounded here. */
module FloodIds {
  import opened Vecs

  /** The id of the next request: 0 on an empty history, otherwise the last id plus one. */
  function NextId(ids: seq<nat>): nat {
    if |ids| == 0 then 0 else ids[|ids| - 1] + 1
  }

  /** The history holds `0, 1, …, n-1` in order. */
  ghost predicate Counting(ids: seq<nat>) {
    forall i :: 0 <= i < |ids| ==> ids[i] == i
  }

  /** Every id is larger than all ids recorded before it. */
  ghost predicate Increasing(ids: seq<nat>) {
    forall i, j :: 0 <= i < j < |ids| ==> ids[i] < ids[j]
  }

  /** The history after `n` requests from an empty one. */
  function Issued(n: nat): seq<nat> {
    if n == 0 then [] else Issued(n - 1) + [NextId(Issued(n - 1))]
  }

  /** On a counting history the next id is its length, never issued before, and
      recording it keeps the history counting. */
  lemma NextFresh(ids: seq<nat>)
    requires Counting(ids)
    ensures NextId(ids) == |ids| && NextId(ids) !in ids
    ensures Counting(ids + [NextId(ids)])
  {
    assert forall i :: 0 <= i < |ids| ==> ids[i] < |ids|;
  }

  /** After `n` requests the history is exactly `0, …, n-1`. */
  lemma {:induction false} IssuedCounts(n: nat)
    ensures |Issued(n)| == n && Counting(Issued(n))
  {
    if n > 0 {
      IssuedCounts(n - 1);
      NextFresh(Issued(n - 1));
    }
  }

  /** A counting history is strictly increasing, so no id repeats. */
  lemma CountingIncreasing(ids: seq<nat>)
    requires Counting(ids)
    ensures Increasing(ids) && Distinct(ids)
  {
  }
}

/**
 * Helpers shared by the in-memory stores: every table is a `map<nat, T>`
 * whose keys are drawn from an increasing id counter, so "the rows of a query"
 * are the matching keys in increasing order, and offset/limit pagination is a
 * window into that sequence.
 */
module Rows {

  function Min(a: int, b: int): int { if a <= b then a else b }

  /** The set of keys below `bound` whose rows satisfy `p`. */
  ghost function Matching<T>(m: map<nat, T>, bound: nat, p: (nat, T) -> bool): set<nat>
  {
    set k | k in m && k < bound && p(k, m[k])
  }

  /** The keys below `bound` whose rows satisfy `p`, in increasing order. */
  function IdsWhere<T>(m: map<nat, T>, bound: nat, p: (nat, T) -> bool): (ids: seq<nat>)
    ensures forall i :: 0 <= i < |ids| ==> ids[i] in m && ids[i] < bound && p(ids[i], m[ids[i]])
    ensures forall k :: k in m && k < bound && p(k, m[k]) ==> k in ids
    ensures forall i, j :: 0 <= i < j < |ids| ==> ids[i] < ids[j]
  {
    if bound == 0 then []
    else
      var k := bound - 1;
      IdsWhere(m, k, p) + (if k in m && p(k, m[k]) then [k] else [])
  }

  /** Every key of `m` below `bound`, in increasing order. */
  function AllIds<T>(m: map<nat, T>, bound: nat): (ids: seq<nat>)
  {
    IdsWhere(m, bound, (k: nat, v: T) => true)
  }

  /** The rows with the given ids, each paired with its id. */
  function RowsAt<T>(m: map<nat, T>, ids: seq<nat>): (rows: seq<(nat, T)>)
    requires forall i :: 0 <= i < |ids| ==> ids[i] in m
    ensures |rows| == |ids|
    ensures forall i :: 0 <= i < |ids| ==> rows[i].0 == ids[i] && rows[i].1 == m[ids[i]]
  {
    seq(|ids|, i requires 0 <= i < |ids| => (ids[i], m[ids[i]]))
  }

  /** SQL `OFFSET skip LIMIT limit` over a query result `s`. */
  function Page<T>(s: seq<T>, skip: nat, limit: nat): (p: seq<T>)
    ensures |p| == if skip < |s| then Min(limit, |s| - skip) else 0
    ensures |p| <= limit
    ensures forall i :: 0 <= i < |p| ==> skip + i < |s| && p[i] == s[skip + i]
  {
    if skip < |s| then s[skip .. skip + Min(limit, |s| - skip)] else []
  }

  /** Raising the bound by one adds at most the key `k` to the matching set. */
  lemma MatchingStep<T>(m: map<nat, T>, k: nat, p: (nat, T) -> bool)
    ensures k in m && p(k, m[k]) ==>
              k !in Matching(m, k, p) && Matching(m, k + 1, p) == Matching(m, k, p) + {k}
    ensures !(k in m && p(k, m[k])) ==> Matching(m, k + 1, p) == Matching(m, k, p)
  {
    if k in m && p(k, m[k]) {
      assert Matching(m, k + 1, p) == Matching(m, k, p) + {k};
    } else {
      assert Matching(m, k + 1, p) == Matching(m, k, p);
    }
  }

  /** The query result is exactly as long as the number of matching rows. */
  lemma {:induction false} IdsWhereCount<T>(m: map<nat, T>, bound: nat, p: (nat, T) -> bool)
    ensures |IdsWhere(m, bound, p)| == |Matching(m, bound, p)|
  {
    if bound == 0 {
      assert Matching(m, 0, p) == {};
    } else {
      var k := bound - 1;
      IdsWhereCount(m, k, p);
      MatchingStep(m, k, p);
      if k in m && p(k, m[k]) {
        assert IdsWhere(m, bound, p) == IdsWhere(m, k, p) + [k];
      } else {
        assert IdsWhere(m, bound, p) == IdsWhere(m, k, p);
      }
    }
  }

  /** When every key lies below `bound`, listing all ids yields one entry per row. */
  lemma AllIdsCount<T>(m: map<nat, T>, bound: nat)
    ensures (forall k :: k in m ==> k < bound) ==> |AllIds(m, bound)| == |m|
  {
    var p := (k: nat, v: T) => true;
    IdsWhereCount(m, bound, p);
    if forall k :: k in m ==> k < bound {
      assert Matching(m, bound, p) == m.Keys;
    }
  }

  /** Updating a union is updating its right operand. */
  lemma UnionUpdate<K, V>(m: map<K, V>, a: map<K, V>, k: K, v: V)
    ensures (m + a)[k := v] == m + a[k := v]
  {
  }
}

/**
 * The in-memory vector store: a list of ids and a matrix with one row per
 * id, every row of the store's dimension and L2-normalized on the way in,
 * searched by inner product (the numpy path, without a FAISS index).
 */
module VectorStore {
  import opened Wrappers
  import opened Seqs

  // ---------------------------------------------------------------------
  // Vectors
  // ---------------------------------------------------------------------

  /** The inner product of two vectors of the same length: the sum of their element-wise products. */
  function Dot(a: seq<real>, b: seq<real>): real
    requires |a| == |b|
  {
    Sum(Products(a, b))
  }

  function Products(a: seq<real>, b: seq<real>): (r: seq<real>)
    requires |a| == |b|
    ensures |r| == |a|
  {
    seq(|a|, i requires 0 <= i < |a| => a[i] * b[i])
  }

  function Sum(s: seq<real>): real {
    if s == [] then 0.0 else s[0] + Sum(s[1..])
  }

  /** `v / n`, element by element. */
  function Divide(v: seq<real>, n: real): (r: seq<real>)
    requires n != 0.0
    ensures |r| == |v|
  {
    seq(|v|, i requires 0 <= i < |v| => v[i] / n)
  }

  /** Every entry is zero. */
  predicate IsZero(v: seq<real>) {
    forall i :: 0 <= i < |v| ==> v[i] == 0.0
  }

  /**
   * What this model needs of `np.linalg.norm(v)`, which the caller supplies:
   * it is not negative, and zero exactly for the zero vector.
   */
  predicate IsNormOf(n: real, v: seq<real>) {
    n >= 0.0 && (n == 0.0 <==> IsZero(v))
  }

  /**
   * `l2_normalize`: the vector divided by its length, element by element,
   * so every entry keeps its sign and ratio to the others; the zero vector
   * comes back as it is.
   */
  function L2Normalize(v: seq<real>, norm: real): (r: seq<real>)
    requires IsNormOf(norm, v)
    ensures |r| == |v|
    ensures IsZero(v) ==> r == v
  {
    if norm == 0.0 then v else Divide(v, norm)
  }

  /** Away from the zero vector, every normalized entry times the norm gives back the input entry. */
  lemma NormalizeScales(v: seq<real>, norm: real)
    requires IsNormOf(norm, v) && !IsZero(v)
    ensures norm > 0.0
    ensures forall i :: 0 <= i < |v| ==> L2Normalize(v, norm)[i] * norm == v[i]
  {
    var r := L2Normalize(v, norm);
    forall i | 0 <= i < |v| ensures r[i] * norm == v[i] {
      assert r[i] == v[i] / norm;
    }
  }

  // ---------------------------------------------------------------------
  // Ranking by score
  // ---------------------------------------------------------------------

  /**
   * Row `i` is listed before row `j`: a higher score, or the same score and
   * a lower row (`np.argsort` leaves the order of ties unspecified; this
   * model fixes it).
   */
  predicate Before(sims: seq<real>, i: nat, j: nat)
    requires i < |sims| && j < |sims|
  {
    sims[i] > sims[j] || (sims[i] == sims[j] && i < j)
  }

  predicate InRange(sims: seq<real>, ord: seq<nat>) {
    forall k :: 0 <= k < |ord| ==> ord[k] < |sims|
  }

  /** `ord` lists rows in `Before` order. */
  predicate Ordered(sims: seq<real>, ord: seq<nat>)
    requires InRange(sims, ord)
  {
    forall k, l :: 0 <= k < l < |ord| ==> Before(sims, ord[k], ord[l])
  }

  /** `ord` with row `i` inserted at its place. */
  function InsertRow(sims: seq<real>, i: nat, ord: seq<nat>): (r: seq<nat>)
    requires i < |sims| && InRange(sims, ord)
    ensures |r| == |ord| + 1 && InRange(sims, r)
    ensures forall x :: x in r <==> x == i || x in ord
  {
    if ord == [] then [i]
    else if Before(sims, i, ord[0]) then [i] + ord
    else [ord[0]] + InsertRow(sims, i, ord[1..])
  }

  /** Rows `0 .. n-1` in `Before` order. */
  function RankUpTo(sims: seq<real>, n: nat): (r: seq<nat>)
    requires n <= |sims|
    ensures |r| == n && InRange(sims, r)
    ensures forall x: nat :: x in r <==> x < n
  {
    if n == 0 then []
    else
      var r := InsertRow(sims, n - 1, RankUpTo(sims, n - 1));
      assert forall x: nat :: x in r <==> x < n;
      r
  }

  /** `np.argsort(-sims)`, ties broken by row. */
  function Rank(sims: seq<real>): (r: seq<nat>)
    ensures |r| == |sims| && InRange(sims, r)
    ensures forall x: nat :: x in r <==> x < |sims|
  {
    RankUpTo(sims, |sims|)
  }

  lemma {:induction false} InsertRowOrdered(sims: seq<real>, i: nat, ord: seq<nat>)
    requires i < |sims| && InRange(sims, ord) && Ordered(sims, ord) && i !in ord
    ensures Ordered(sims, InsertRow(sims, i, ord))
  {
    if ord != [] && !Before(sims, i, ord[0]) {
      var rest := ord[1..];
      assert forall k :: 0 <= k < |rest| ==> rest[k] == ord[k + 1];
      InsertRowOrdered(sims, i, rest);
      var r := InsertRow(sims, i, rest);
      assert Before(sims, ord[0], i);
      forall x | x in r ensures Before(sims, ord[0], x) {
        if x != i {
          var k :| 0 <= k < |rest| && rest[k] == x;
        }
      }
      assert forall l :: 0 <= l < |r| ==> Before(sims, ord[0], r[l]);
    } else if ord != [] {
      forall l | 0 < l < |ord| + 1 ensures Before(sims, i, ([i] + ord)[l]) {
        assert Before(sims, ord[0], ord[l - 1]) || l == 1;
      }
    }
  }

  lemma {:induction false} RankUpToOrdered(sims: seq<real>, n: nat)
    requires n <= |sims|
    ensures Ordered(sims, RankUpTo(sims, n))
  {
    if n > 0 {
      RankUpToOrdered(sims, n - 1);
      InsertRowOrdered(sims, n - 1, RankUpTo(sims, n - 1));
    }
  }

  /**
   * The ranking lists every row exactly once, by non-increasing score, rows
   * of equal score in row order.
   */
  lemma RankFacts(sims: seq<real>)
    ensures var r := Rank(sims);
      && |r| == |sims|
      && (forall x: nat :: x in r <==> x < |sims|)
      && NoDup(r)
      && (forall k, l :: 0 <= k < l < |r| ==> sims[r[k]] >= sims[r[l]])
      && (forall k, l :: 0 <= k < l < |r| && sims[r[k]] == sims[r[l]] ==> r[k] < r[l])
  {
    RankUpToOrdered(sims, |sims|);
    var r := Rank(sims);
    assert forall k, l :: 0 <= k < l < |r| ==> Before(sims, r[k], r[l]);
  }

  // ---------------------------------------------------------------------
  // VectorStore
  // ---------------------------------------------------------------------

  datatype StoreError = DimMismatch(expected: int, got: nat)

  /** One search result: `{"id": ..., "score": ...}`. */
  datatype Hit = Hit(id: string, score: real)

  /** `self._vecs @ q`. */
  function Scores(rows: seq<seq<real>>, q: seq<real>): (r: seq<real>)
    requires forall k :: 0 <= k < |rows| ==> |rows[k]| == |q|
    ensures |r| == |rows|
    ensures forall k :: 0 <= k < |rows| ==> r[k] == Dot(rows[k], q)
  {
    seq(|rows|, k requires 0 <= k < |rows| => Dot(rows[k], q))
  }

  class Store {
    const dim: int
    /** `_ids`. */
    var ids: seq<string>
    /** `_vecs`, one row per id; no rows stands for `None`. */
    var vecs: seq<seq<real>>

    /** One row per id, no id twice, every row of the store's dimension. */
    ghost predicate Valid()
      reads this
    {
      && |ids| == |vecs|
      && NoDup(ids)
      && forall k :: 0 <= k < |vecs| ==> |vecs[k]| == dim
    }

    /** A store with nothing loaded. */
    constructor (dim: int)
      ensures Valid() && this.dim == dim && ids == [] && vecs == []
    {
      this.dim := dim;
      ids := [];
      vecs := [];
    }

    /**
     * `add`: a vector of the wrong dimension raises and changes nothing; an
     * id already present has its row overwritten in place; a new id and its
     * row are appended.
     */
    method Add(itemId: string, vec: seq<real>, norm: real) returns (r: Result<(), StoreError>)
      requires Valid() && IsNormOf(norm, vec)
      modifies this
      ensures Valid()
      ensures |vec| != dim ==> r == Failure(DimMismatch(dim, |vec|)) && ids == old(ids) && vecs == old(vecs)
      ensures |vec| == dim ==> r == Success(())
      ensures |vec| == dim ==> itemId in ids && vecs[IndexOf(ids, itemId)] == L2Normalize(vec, norm)
      ensures |vec| == dim && itemId in old(ids) ==>
        && ids == old(ids)
        && vecs == old(vecs)[IndexOf(old(ids), itemId) := L2Normalize(vec, norm)]
      ensures |vec| == dim && itemId !in old(ids) ==>
        && ids == old(ids) + [itemId]
        && vecs == old(vecs) + [L2Normalize(vec, norm)]
    {
      var v := L2Normalize(vec, norm);
      if |v| != dim {
        return Failure(DimMismatch(dim, |v|));
      }
      if itemId in ids {
        var idx := IndexOf(ids, itemId);
        vecs := vecs[idx := v];
      } else {
        ids := ids + [itemId];
        vecs := vecs + [v];
        assert forall k :: 0 <= k < |old(ids)| ==> ids[k] == old(ids)[k];
        IndexOfNoDup(ids, |ids| - 1);
      }
      r := Success(());
    }

    /** The rows of the numpy fallback, best first, cut to `top_k`. */
    function Top(q: seq<real>, topK: int): (top: seq<nat>)
      requires Valid() && |q| == dim
      reads this
      ensures forall t :: 0 <= t < |top| ==> top[t] < |vecs|
    {
      Take(Rank(Scores(vecs, q)), topK)
    }

    /**
     * `search`: an empty store answers `[]` before looking at the query;
     * otherwise a query of the wrong dimension raises, and the answer lists
     * the best rows by inner product with the normalized query.
     */
    function Search(query: seq<real>, norm: real, topK: int): (r: Result<seq<Hit>, StoreError>)
      requires Valid() && IsNormOf(norm, query)
      reads this
      ensures ids == [] ==> r == Success([])
      ensures ids != [] && |query| != dim ==> r == Failure(DimMismatch(dim, |query|))
      ensures ids != [] && |query| == dim ==> r.Success?
      ensures r.Success? ==> forall t :: 0 <= t < |r.value| ==> r.value[t].id in ids
    {
      if vecs == [] || ids == [] then Success([])
      else
        var q := L2Normalize(query, norm);
        if |q| != dim then Failure(DimMismatch(dim, |q|))
        else
          Success(HitsOf(ids, Scores(vecs, q), Top(q, topK)))
    }

    /**
     * A successful search returns `min(top_k, n)` hits for a `top_k` that
     * is not negative, no id twice, each with its row's inner product with
     * the normalized query, scores not increasing; no row left out scores
     * above the last hit.
     */
    lemma SearchFacts(query: seq<real>, norm: real, topK: int)
      requires Valid() && IsNormOf(norm, query) && ids != [] && |query| == dim
      ensures Search(query, norm, topK).Success?
      ensures var hits := Search(query, norm, topK).value;
        var q := L2Normalize(query, norm);
        && (topK >= 0 ==> |hits| == if topK < |ids| then topK else |ids|)
        && (forall s, t :: 0 <= s < t < |hits| ==> hits[s].id != hits[t].id)
        && (forall t :: 0 <= t < |hits| ==> hits[t].score == Dot(vecs[IndexOf(ids, hits[t].id)], q))
        && (forall s, t :: 0 <= s < t < |hits| ==> hits[s].score >= hits[t].score)
        && (hits != [] ==> forall k :: 0 <= k < |ids| && ids[k] !in HitIds(hits) ==>
              Dot(vecs[k], q) <= hits[|hits| - 1].score)
    {
      var q := L2Normalize(query, norm);
      assert Search(query, norm, topK) == Success(HitsOf(ids, Scores(vecs, q), Top(q, topK)));
      RankedHitsFacts(ids, vecs, q, topK);
    }
  }

  /** The hits of a search over the rows `vecs`, whose ids are `ids`, for the normalized query `q`. */
  lemma RankedHitsFacts(ids: seq<string>, vecs: seq<seq<real>>, q: seq<real>, topK: int)
    requires |ids| == |vecs| && NoDup(ids)
    requires forall k :: 0 <= k < |vecs| ==> |vecs[k]| == |q|
    ensures var sims := Scores(vecs, q);
      var hits := HitsOf(ids, sims, Take(Rank(sims), topK));
      && (topK >= 0 ==> |hits| == if topK < |ids| then topK else |ids|)
      && (forall s, t :: 0 <= s < t < |hits| ==> hits[s].id != hits[t].id)
      && (forall t :: 0 <= t < |hits| ==> hits[t].score == Dot(vecs[IndexOf(ids, hits[t].id)], q))
      && (forall s, t :: 0 <= s < t < |hits| ==> hits[s].score >= hits[t].score)
      && (hits != [] ==> forall k :: 0 <= k < |ids| && ids[k] !in HitIds(hits) ==>
            Dot(vecs[k], q) <= hits[|hits| - 1].score)
  {
    var sims := Scores(vecs, q);
    var top := Take(Rank(sims), topK);
    var hits := HitsOf(ids, sims, top);
    TopFacts(sims, topK);
    HitsOfFacts(ids, sims, top);
    RankedScores(ids, vecs, q, sims, top, hits);
    RankedBest(ids, sims, top, hits);
    forall s, t | 0 <= s < t < |hits| ensures hits[s].score >= hits[t].score {
      assert hits[s].score == sims[top[s]] && hits[t].score == sims[top[t]];
    }
    if hits != [] {
      forall k | 0 <= k < |ids| && ids[k] !in HitIds(hits) ensures Dot(vecs[k], q) <= hits[|hits| - 1].score {
        assert sims[k] <= hits[|hits| - 1].score;
      }
    }
  }

  /** Each hit carries its own row's inner product with the query. */
  lemma RankedScores(ids: seq<string>, vecs: seq<seq<real>>, q: seq<real>, sims: seq<real>, top: seq<nat>, hits: seq<Hit>)
    requires |ids| == |vecs| == |sims| && NoDup(ids) && NoDup(top)
    requires forall k :: 0 <= k < |vecs| ==> |vecs[k]| == |q| && sims[k] == Dot(vecs[k], q)
    requires forall t :: 0 <= t < |top| ==> top[t] < |sims|
    requires hits == HitsOf(ids, sims, top)
    ensures forall t :: 0 <= t < |hits| ==> hits[t].score == Dot(vecs[IndexOf(ids, hits[t].id)], q)
  {
    HitsOfFacts(ids, sims, top);
    forall t | 0 <= t < |hits| ensures hits[t].score == Dot(vecs[IndexOf(ids, hits[t].id)], q) {
      assert IndexOf(ids, hits[t].id) == top[t];
    }
  }

  /** No row left out scores above the last hit. */
  lemma RankedBest(ids: seq<string>, sims: seq<real>, top: seq<nat>, hits: seq<Hit>)
    requires |ids| == |sims| && NoDup(ids) && NoDup(top)
    requires forall t :: 0 <= t < |top| ==> top[t] < |sims|
    requires top != [] ==> forall k: nat :: k < |sims| && k !in top ==> sims[k] <= sims[top[|top| - 1]]
    requires hits == HitsOf(ids, sims, top)
    ensures hits != [] ==> forall k :: 0 <= k < |ids| && ids[k] !in HitIds(hits) ==> sims[k] <= hits[|hits| - 1].score
  {
    HitsOfFacts(ids, sims, top);
  }

  /**
   * Hits built from distinct rows with distinct ids: distinct ids, each
   * with its own row's score; a row whose id is not among them is not
   * among the rows.
   */
  lemma HitsOfFacts(ids: seq<string>, sims: seq<real>, top: seq<nat>)
    requires |ids| == |sims| && NoDup(ids) && NoDup(top)
    requires forall t :: 0 <= t < |top| ==> top[t] < |sims|
    ensures var hits := HitsOf(ids, sims, top);
      && (forall s, t :: 0 <= s < t < |hits| ==> hits[s].id != hits[t].id)
      && (forall t :: 0 <= t < |hits| ==> IndexOf(ids, hits[t].id) == top[t] && hits[t].score == sims[top[t]])
      && (forall k :: 0 <= k < |ids| && ids[k] !in HitIds(hits) ==> k !in top)
  {
    var hits := HitsOf(ids, sims, top);
    forall t | 0 <= t < |hits| ensures IndexOf(ids, hits[t].id) == top[t] {
      IndexOfNoDup(ids, top[t]);
    }
    assert forall t :: 0 <= t < |top| ==> ids[top[t]] == HitIds(hits)[t];
  }

  /**
   * The first `top_k` rows of the ranking: `min(top_k, n)` distinct rows for
   * a `top_k` that is not negative, by non-increasing score, and no other
   * row scores above the last of them.
   */
  lemma TopFacts(sims: seq<real>, topK: int)
    ensures var top := Take(Rank(sims), topK);
      && (topK >= 0 ==> |top| == if topK < |sims| then topK else |sims|)
      && NoDup(top)
      && (forall s, t :: 0 <= s < t < |top| ==> sims[top[s]] >= sims[top[t]])
      && (top != [] ==> forall k: nat :: k < |sims| && k !in top ==> sims[k] <= sims[top[|top| - 1]])
  {
    var ord := Rank(sims);
    RankFacts(sims);
    var top := Take(ord, topK);
    assert forall t :: 0 <= t < |top| ==> top[t] == ord[t];
    if top != [] {
      forall k: nat | k < |sims| && k !in top ensures sims[k] <= sims[top[|top| - 1]] {
        assert k in ord;
        var p :| 0 <= p < |ord| && ord[p] == k;
        assert p >= |top|;
      }
    }
  }

  /** One hit per ranked row: its id and its score. */
  function HitsOf(ids: seq<string>, sims: seq<real>, top: seq<nat>): (hits: seq<Hit>)
    requires |ids| == |sims| && forall t :: 0 <= t < |top| ==> top[t] < |sims|
    ensures |hits| == |top|
    ensures forall t :: 0 <= t < |top| ==> hits[t] == Hit(ids[top[t]], sims[top[t]])
  {
    seq(|top|, t requires 0 <= t < |top| => Hit(ids[top[t]], sims[top[t]]))
  }

  /** The ids of a list of hits. */
  function HitIds(hits: seq<Hit>): (r: seq<string>)
    ensures |r| == |hits|
    ensures forall t :: 0 <= t < |hits| ==> r[t] == hits[t].id
  {
    seq(|hits|, t requires 0 <= t < |hits| => hits[t].id)
  }

  /** In a list without repetitions, the position of an element is its index. */
  lemma IndexOfNoDup<T>(s: seq<T>, k: nat)
    requires NoDup(s) && k < |s|
    ensures IndexOf(s, s[k]) == k
  {
  }
}

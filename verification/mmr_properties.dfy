/** What the MMR selection guarantees about its result as a whole: every pick
    is the best remaining candidate at its step, and with `weight = 1` the
    result is the plain top-k by relevance. */
module MmrProperties {
  import opened Vectors
  import opened Chunks
  import opened ArgMax
  import opened Mmr

  /** `pick` is a candidate of `pool` whose marginal relevance, given the
      chunks already `taken`, is at least that of every candidate in `pool`. */
  predicate IsMmrMaximal(sim: Similarity, weight: real, pick: Chunk, taken: seq<Chunk>, pool: multiset<Chunk>)
  {
    && |taken| > 0 && pick.score.Some? && pick in pool
    && forall d :: d in pool ==> d.score.Some? && MmrScore(sim, weight, d, taken) <= MmrScore(sim, weight, pick, taken)
  }

  /** From position `from` on, each chunk of `r` is maximal among the chunks
      of `all` not already in front of it. */
  predicate PicksMaximal(sim: Similarity, weight: real, r: seq<Chunk>, from: nat, all: multiset<Chunk>)
  {
    forall j :: from <= j < |r| ==> IsMmrMaximal(sim, weight, r[j], r[..j], all - multiset(r[..j]))
  }

  /** The first maximum of the marginal relevance scores of the pool is a maximal candidate. */
  lemma FirstMaxIsMaximal(sim: Similarity, weight: real, remaining: seq<Chunk>, selected: seq<Chunk>, i: int)
    requires |selected| > 0 && Scored(remaining)
    requires IsFirstMax(MmrScores(sim, weight, remaining, selected), i)
    ensures IsMmrMaximal(sim, weight, remaining[i], selected, multiset(remaining))
  {
    forall d | d in multiset(remaining)
      ensures d.score.Some? && MmrScore(sim, weight, d, selected) <= MmrScore(sim, weight, remaining[i], selected)
    {
      var at :| 0 <= at < |remaining| && remaining[at] == d;
      MmrScoresAt(sim, weight, remaining, selected, at);
      MmrScoresAt(sim, weight, remaining, selected, i);
    }
  }

  /** A maximal pick at `from` in front of maximal picks from `from + 1` on. */
  lemma ExtendPicksMaximal(sim: Similarity, weight: real, r: seq<Chunk>, from: nat, all: multiset<Chunk>)
    requires from < |r|
    requires IsMmrMaximal(sim, weight, r[from], r[..from], all - multiset(r[..from]))
    requires PicksMaximal(sim, weight, r, from + 1, all)
    ensures PicksMaximal(sim, weight, r, from, all)
  {
  }

  /** If `r` continues `selected` with the first MMR maximum of `remaining`,
      and its later picks are maximal after that move, then its picks are
      maximal from the end of `selected` on. */
  lemma PickExtendsMaximal(sim: Similarity, weight: real, r: seq<Chunk>, selected: seq<Chunk>, remaining: seq<Chunk>, i: int)
    requires |selected| > 0 && Scored(remaining)
    requires IsFirstMax(MmrScores(sim, weight, remaining, selected), i)
    requires |selected| < |r| && r[..|selected|] == selected && r[|selected|] == remaining[i]
    requires PicksMaximal(sim, weight, r, |selected| + 1, multiset((selected + [remaining[i]]) + Remove(remaining, i)))
    ensures PicksMaximal(sim, weight, r, |selected|, multiset(selected + remaining))
  {
    var all := multiset(selected + remaining);
    MovePreservesContents(selected, remaining, i);
    FirstMaxIsMaximal(sim, weight, remaining, selected, i);
    assert all - multiset(selected) == multiset(remaining);
    ExtendPicksMaximal(sim, weight, r, |selected|, all);
  }

  /** Each chunk the loop takes is maximal among the candidates not yet taken. */
  lemma {:induction false} GreedyPicksMaximal(sim: Similarity, weight: real, k: int, selected: seq<Chunk>, remaining: seq<Chunk>)
    requires |selected| > 0 && Scored(remaining)
    ensures PicksMaximal(sim, weight, Greedy(sim, weight, k, selected, remaining).selected, |selected|, multiset(selected + remaining))
    decreases |remaining|
  {
    var r := Greedy(sim, weight, k, selected, remaining).selected;
    if |selected| < k && |remaining| > 0 {
      var i := FirstArgMax(MmrScores(sim, weight, remaining, selected));
      var selectedNext := selected + [remaining[i]];
      var remainingNext := Remove(remaining, i);
      assert r == Greedy(sim, weight, k, selectedNext, remainingNext).selected;
      GreedyPicksMaximal(sim, weight, k, selectedNext, remainingNext);
      GreedyNextPick(sim, weight, k, selected, remaining, i);
      PickExtendsMaximal(sim, weight, r, selected, remaining, i);
    } else {
      assert |r| == |selected|;
    }
  }

  /** Past the early returns, the first chunk returned has the highest
      relevance of all chunks, and every later one has the highest marginal
      relevance among the chunks not returned before it. */
  lemma RetrievePicksMaximal(sim: Similarity, q: Vec, docs: seq<Chunk>, k: int, weight: real)
    requires 0 < |docs| && k < |docs|
    ensures var r := Retrieve(sim, q, docs, k, weight);
      && (forall d :: d in ScoreAll(sim, q, docs) ==> Relevance(d) <= Relevance(r[0]))
      && PicksMaximal(sim, weight, r, 1, multiset(ScoreAll(sim, q, docs)))
  {
    var scored := ScoreAll(sim, q, docs);
    var first := FirstArgMax(Relevances(scored));
    var rest := Remove(scored, first);
    var r := Retrieve(sim, q, docs, k, weight);
    assert r == Greedy(sim, weight, k, [scored[first]], rest).selected;
    GreedyPicksMaximal(sim, weight, k, [scored[first]], rest);
    MovePreservesContents([], scored, first);
    assert [] + [scored[first]] == [scored[first]] && [] + scored == scored;
    assert multiset([scored[first]] + rest) == multiset(scored);
    RelevanceFirstMax(scored, first);
  }

  /** Whatever path it takes, the retriever returns only chunks of the input:
      each result has the id, text and embedding of some input chunk. */
  lemma RetrieveFromInput(sim: Similarity, q: Vec, docs: seq<Chunk>, k: int, weight: real)
    ensures forall c :: c in Retrieve(sim, q, docs, k, weight) ==>
      exists d :: d in docs && c.id == d.id && c.text == d.text && c.emb == d.emb
  {
    var r := Retrieve(sim, q, docs, k, weight);
    if 0 < |docs| && k < |docs| {
      var scored := ScoreAll(sim, q, docs);
      forall c | c in r ensures exists d :: d in docs && c.id == d.id && c.text == d.text && c.emb == d.emb {
        assert c in multiset(r);
        assert c in scored;
        var at :| 0 <= at < |scored| && scored[at] == c;
        assert docs[at] in docs;
      }
    }
  }

  /** Reference ranking with no diversity term: move the earliest chunk of
      highest relevance from `pool` to the end of `taken` until `k` chunks are
      taken or the pool is empty. */
  function RankByRelevance(taken: seq<Chunk>, pool: seq<Chunk>, k: int): (r: Pools)
    requires Scored(pool)
    ensures |r.selected| == if |taken| >= k then |taken| else Min(k, |taken| + |pool|)
    decreases |pool|
  {
    if |taken| >= k || |pool| == 0 then Pools(taken, pool)
    else
      var i := FirstArgMax(Relevances(pool));
      RankByRelevance(taken + [pool[i]], Remove(pool, i), k)
  }

  /** The reference ranking only appends to the chunks already taken. */
  lemma {:induction false} RankByRelevanceExtends(taken: seq<Chunk>, pool: seq<Chunk>, k: int)
    requires Scored(pool)
    ensures var r := RankByRelevance(taken, pool, k);
      |taken| <= |r.selected| && r.selected[..|taken|] == taken
    decreases |pool|
  {
    if |taken| < k && |pool| > 0 {
      var i := FirstArgMax(Relevances(pool));
      var takenNext := taken + [pool[i]];
      var r := RankByRelevance(takenNext, Remove(pool, i), k);
      RankByRelevanceExtends(takenNext, Remove(pool, i), k);
      assert r.selected[..|taken|] == r.selected[..|takenNext|][..|taken|];
    }
  }

  /** `r` is scored and in descending relevance. */
  predicate Descending(r: seq<Chunk>)
  {
    && Scored(r)
    && forall i, j :: 0 <= i < j < |r| ==> Relevance(r[j]) <= Relevance(r[i])
  }

  /** No chunk of `left` is more relevant than any chunk of `r`. */
  predicate NoneMoreRelevant(left: seq<Chunk>, r: seq<Chunk>)
    requires Scored(r)
  {
    forall d :: d in left ==> d.score.Some? && forall i :: 0 <= i < |r| ==> Relevance(d) <= Relevance(r[i])
  }

  /** The chunk at a first maximum of the relevance scores is as relevant as any in the pool. */
  lemma RelevanceFirstMax(scored: seq<Chunk>, first: int)
    requires Scored(scored) && IsFirstMax(Relevances(scored), first)
    ensures forall d :: d in scored ==> Relevance(d) <= Relevance(scored[first])
  {
    forall d | d in scored ensures Relevance(d) <= Relevance(scored[first]) {
      var at :| 0 <= at < |scored| && scored[at] == d;
      assert Relevances(scored)[at] <= Relevances(scored)[first];
    }
  }

  /** Taking the most relevant chunk of the pool keeps the taken chunks in
      descending relevance above everything still in the pool. */
  lemma TakeMostRelevant(taken: seq<Chunk>, pool: seq<Chunk>, i: int)
    requires Scored(pool) && Descending(taken) && NoneMoreRelevant(pool, taken)
    requires IsFirstMax(Relevances(pool), i)
    ensures Descending(taken + [pool[i]]) && NoneMoreRelevant(Remove(pool, i), taken + [pool[i]])
  {
    var x := pool[i];
    var takenNext := taken + [x];
    RelevanceFirstMax(pool, i);
    assert x in pool;
    forall i1, j1 | 0 <= i1 < j1 < |takenNext| ensures Relevance(takenNext[j1]) <= Relevance(takenNext[i1]) {
      assert takenNext[i1] == taken[i1];
      if j1 < |taken| {
        assert takenNext[j1] == taken[j1];
      }
    }
    forall d | d in Remove(pool, i)
      ensures d.score.Some? && forall i1 :: 0 <= i1 < |takenNext| ==> Relevance(d) <= Relevance(takenNext[i1])
    {
      assert d in pool;
      forall i1 | 0 <= i1 < |taken| ensures Relevance(d) <= Relevance(takenNext[i1]) {
        assert takenNext[i1] == taken[i1];
      }
    }
  }

  /** The reference ranking keeps the taken chunks in descending relevance,
      none of those left in the pool more relevant than any taken. */
  lemma {:induction false} RankByRelevanceOrdered(taken: seq<Chunk>, pool: seq<Chunk>, k: int)
    requires Scored(pool) && Descending(taken) && NoneMoreRelevant(pool, taken)
    ensures var r := RankByRelevance(taken, pool, k);
      Descending(r.selected) && NoneMoreRelevant(r.remaining, r.selected)
    decreases |pool|
  {
    if |taken| < k && |pool| > 0 {
      var i := FirstArgMax(Relevances(pool));
      TakeMostRelevant(taken, pool, i);
      RankByRelevanceOrdered(taken + [pool[i]], Remove(pool, i), k);
    }
  }

  /** The reference ranking only moves chunks from the pool to the taken list. */
  lemma {:induction false} RankByRelevanceKeepsContents(taken: seq<Chunk>, pool: seq<Chunk>, k: int)
    requires Scored(pool)
    ensures var r := RankByRelevance(taken, pool, k);
      multiset(r.selected + r.remaining) == multiset(taken + pool)
    decreases |pool|
  {
    if |taken| < k && |pool| > 0 {
      var i := FirstArgMax(Relevances(pool));
      MovePreservesContents(taken, pool, i);
      RankByRelevanceKeepsContents(taken + [pool[i]], Remove(pool, i), k);
    }
  }

  /** Before anything is taken, the ranking invariant holds for any scored pool. */
  lemma NothingTakenYet(pool: seq<Chunk>)
    requires Scored(pool)
    ensures Descending([]) && NoneMoreRelevant(pool, [])
  {
  }

  /** Ranked from scratch, the reference ranking takes chunks in descending
      relevance and leaves none in the pool more relevant than any taken. */
  lemma RankByRelevanceIsTop(pool: seq<Chunk>, k: int)
    requires Scored(pool)
    ensures var r := RankByRelevance([], pool, k);
      Descending(r.selected) && NoneMoreRelevant(r.remaining, r.selected)
  {
    var none: seq<Chunk> := [];
    NothingTakenYet(pool);
    RankByRelevanceOrdered(none, pool, k);
  }

  /** Ranked from scratch, what is taken and what is left together are a
      permutation of the pool. */
  lemma RankByRelevanceSplitsPool(pool: seq<Chunk>, k: int)
    requires Scored(pool)
    ensures var r := RankByRelevance([], pool, k);
      multiset(r.selected + r.remaining) == multiset(pool)
  {
    var none: seq<Chunk> := [];
    assert none + pool == pool;
    var r := RankByRelevance(none, pool, k);
    RankByRelevanceKeepsContents(none, pool, k);
    assert multiset(r.selected + r.remaining) == multiset(none + pool);
  }

  /** With every score taken as `1 * relevance - 0 * similarity`, the marginal
      relevance is the relevance itself. */
  lemma PureRelevanceScores(sim: Similarity, pool: seq<Chunk>, selected: seq<Chunk>)
    requires |selected| > 0 && Scored(pool)
    ensures MmrScores(sim, 1.0, pool, selected) == Relevances(pool)
  {
    forall i | 0 <= i < |pool|
      ensures MmrScores(sim, 1.0, pool, selected)[i] == Relevances(pool)[i]
    {
      MmrScoresAt(sim, 1.0, pool, selected, i);
    }
  }

  /** With `weight = 1` the loop is the reference ranking. */
  lemma {:induction false} GreedyPureRelevance(sim: Similarity, k: int, selected: seq<Chunk>, remaining: seq<Chunk>)
    requires |selected| > 0 && Scored(remaining)
    ensures Greedy(sim, 1.0, k, selected, remaining) == RankByRelevance(selected, remaining, k)
    decreases |remaining|
  {
    if |selected| < k && |remaining| > 0 {
      PureRelevanceScores(sim, remaining, selected);
      var i := FirstArgMax(Relevances(remaining));
      GreedyPureRelevance(sim, k, selected + [remaining[i]], Remove(remaining, i));
    }
  }

  /** With `weight = 1` (pure relevance) the retriever returns the reference
      ranking of the scored input, cut at `k` (at one when `k < 1`). */
  lemma RetrievePureRelevance(sim: Similarity, q: Vec, docs: seq<Chunk>, k: int)
    requires 0 < |docs| && k < |docs|
    ensures Retrieve(sim, q, docs, k, 1.0) == RankByRelevance([], ScoreAll(sim, q, docs), if k < 1 then 1 else k).selected
  {
    var scored := ScoreAll(sim, q, docs);
    var first := FirstArgMax(Relevances(scored));
    var rest := Remove(scored, first);
    var m := if k < 1 then 1 else k;
    assert Retrieve(sim, q, docs, k, 1.0) == Greedy(sim, 1.0, k, [scored[first]], rest).selected;
    assert RankByRelevance([], scored, m) == RankByRelevance([] + [scored[first]], rest, m);
    assert [] + [scored[first]] == [scored[first]];
    GreedyPureRelevance(sim, k, [scored[first]], rest);
  }

  /** With `weight = 0` (pure diversity) each later pick is a candidate whose
      highest similarity to the chunks already taken is the lowest in the pool. */
  lemma GreedyPureDiversity(sim: Similarity, k: int, selected: seq<Chunk>, remaining: seq<Chunk>)
    requires |selected| > 0 && Scored(remaining)
    requires |selected| < k && |remaining| > 0
    ensures var p := Greedy(sim, 0.0, k, selected, remaining).selected[|selected|];
      && p in remaining
      && forall d :: d in remaining ==> MaxSimilarity(sim, p, selected) <= MaxSimilarity(sim, d, selected)
  {
    var scores := MmrScores(sim, 0.0, remaining, selected);
    var i := FirstArgMax(scores);
    GreedyNextPick(sim, 0.0, k, selected, remaining, i);
    forall d | d in remaining
      ensures MaxSimilarity(sim, remaining[i], selected) <= MaxSimilarity(sim, d, selected)
    {
      var at :| 0 <= at < |remaining| && remaining[at] == d;
      MmrScoresAt(sim, 0.0, remaining, selected, at);
      MmrScoresAt(sim, 0.0, remaining, selected, i);
    }
  }
}

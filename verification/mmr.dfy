/** Maximal Marginal Relevance selection over the chunks of one page
    (`retrieveWithMMR` in the dashboard). The most relevant chunk is taken
    first; every later pick maximises
      weight * relevance - (1 - weight) * (highest similarity to a chunk already taken),
    and each pick is spliced out of the candidate pool. The similarity is a
    parameter; the dashboard uses `Vectors.CosineSimilarity`. */
module Mmr {
  import opened Vectors
  import opened Chunks
  import opened ArgMax

  function Min(a: int, b: int): int
  {
    if a <= b then a else b
  }

  /** `Math.max(...selected.map(sel => cosine(doc.emb, sel.emb)))`: the
      similarity of `d` to the chunk already taken that it most resembles. */
  function MaxSimilarity(sim: Similarity, d: Chunk, selected: seq<Chunk>): (r: real)
    requires |selected| > 0
    ensures forall s :: s in selected ==> sim(d.emb, s.emb) <= r
    ensures exists s :: s in selected && sim(d.emb, s.emb) == r
    decreases |selected|
  {
    var c := sim(d.emb, selected[0].emb);
    if |selected| == 1 then c
    else
      var m := MaxSimilarity(sim, d, selected[1..]);
      assert forall s :: s in selected ==> s == selected[0] || s in selected[1..];
      if c >= m then c else m
  }

  /** The marginal relevance of candidate `d` given the chunks already taken. */
  function MmrScore(sim: Similarity, weight: real, d: Chunk, selected: seq<Chunk>): (r: real)
    requires d.score.Some? && |selected| > 0
    ensures weight == 1.0 ==> r == Relevance(d)
  {
    weight * Relevance(d) - (1.0 - weight) * MaxSimilarity(sim, d, selected)
  }

  /** With `weight <= 1` the penalty is the worst case over the chunks already
      taken: the score is at most what any single taken chunk would leave, and
      equals what one of them leaves. */
  lemma MmrScoreBound(sim: Similarity, weight: real, d: Chunk, selected: seq<Chunk>, s: Chunk)
    requires d.score.Some? && |selected| > 0
    requires weight <= 1.0 && s in selected
    ensures MmrScore(sim, weight, d, selected) <= weight * Relevance(d) - (1.0 - weight) * sim(d.emb, s.emb)
    ensures exists s2 :: s2 in selected && MmrScore(sim, weight, d, selected) == weight * Relevance(d) - (1.0 - weight) * sim(d.emb, s2.emb)
  {
  }

  /** The marginal relevance of every candidate in the pool, in pool order. */
  function MmrScores(sim: Similarity, weight: real, pool: seq<Chunk>, selected: seq<Chunk>): (r: seq<real>)
    requires |selected| > 0 && Scored(pool)
    ensures |r| == |pool|
  {
    if |pool| == 0 then []
    else [MmrScore(sim, weight, pool[0], selected)] + MmrScores(sim, weight, pool[1..], selected)
  }

  lemma {:induction false} MmrScoresAt(sim: Similarity, weight: real, pool: seq<Chunk>, selected: seq<Chunk>, i: int)
    requires |selected| > 0 && Scored(pool)
    requires 0 <= i < |pool|
    ensures MmrScores(sim, weight, pool, selected)[i] == MmrScore(sim, weight, pool[i], selected)
    decreases |pool|
  {
    if i > 0 {
      MmrScoresAt(sim, weight, pool[1..], selected, i - 1);
    }
  }

  /** The two lists the selection loop keeps: chunks taken, in order, and the candidate pool. */
  datatype Pools = Pools(selected: seq<Chunk>, remaining: seq<Chunk>)

  /** The selection loop from a given state: while fewer than `k` chunks are
      taken and candidates remain, move the first candidate of highest
      marginal relevance from the pool to the end of the taken list. */
  function Greedy(sim: Similarity, weight: real, k: int, selected: seq<Chunk>, remaining: seq<Chunk>): (r: Pools)
    requires |selected| > 0 && Scored(remaining)
    ensures |selected| <= |r.selected| && r.selected[..|selected|] == selected
    ensures |r.selected| == if |selected| >= k then |selected| else Min(k, |selected| + |remaining|)
    decreases |remaining|
  {
    if |selected| >= k || |remaining| == 0 then Pools(selected, remaining)
    else
      var i := FirstArgMax(MmrScores(sim, weight, remaining, selected));
      var selectedNext := selected + [remaining[i]];
      var remainingNext := Remove(remaining, i);
      var r := Greedy(sim, weight, k, selectedNext, remainingNext);
      PrefixOfExtension(r.selected, selected, remaining[i]);
      r
  }

  /** While fewer than `k` chunks are taken and candidates remain, the next
      chunk taken is the candidate at the first position of highest marginal
      relevance (strict `>` in the scan, so ties go to the earliest). */
  lemma GreedyNextPick(sim: Similarity, weight: real, k: int, selected: seq<Chunk>, remaining: seq<Chunk>, i: int)
    requires |selected| > 0 && Scored(remaining)
    requires |selected| < k && |remaining| > 0
    requires IsFirstMax(MmrScores(sim, weight, remaining, selected), i)
    ensures |Greedy(sim, weight, k, selected, remaining).selected| > |selected|
    ensures Greedy(sim, weight, k, selected, remaining).selected[|selected|] == remaining[i]
  {
    var scores := MmrScores(sim, weight, remaining, selected);
    FirstMaxUnique(scores, i, FirstArgMax(scores));
    var r := Greedy(sim, weight, k, selected + [remaining[i]], Remove(remaining, i));
    assert r.selected[|selected|] == r.selected[..|selected| + 1][|selected|];
  }

  /** At every step the chunks taken and the candidates left are together
      exactly the chunks the loop started from: each pick is moved, never copied
      or lost. */
  lemma {:induction false} GreedyKeepsContents(sim: Similarity, weight: real, k: int, selected: seq<Chunk>, remaining: seq<Chunk>)
    requires |selected| > 0 && Scored(remaining)
    ensures var r := Greedy(sim, weight, k, selected, remaining);
      multiset(r.selected + r.remaining) == multiset(selected + remaining)
    decreases |remaining|
  {
    if |selected| < k && |remaining| > 0 {
      var i := FirstArgMax(MmrScores(sim, weight, remaining, selected));
      MovePreservesContents(selected, remaining, i);
      GreedyKeepsContents(sim, weight, k, selected + [remaining[i]], Remove(remaining, i));
    }
  }

  /** `retrieveWithMMR`, with `weight` as its trade-off argument. An empty list
      gives an empty result; a list of at most `k` chunks comes back as it is
      stored, without added scores; otherwise the result holds `k` scored chunks
      (one when `k < 1`, since the most relevant chunk is taken before the
      loop tests the count), each at most as often as it occurs in the input,
      the first of them the earliest chunk of highest relevance. */
  function Retrieve(sim: Similarity, q: Vec, docs: seq<Chunk>, k: int, weight: real): (r: seq<Chunk>)
    ensures |docs| == 0 ==> r == []
    ensures |docs| <= k ==> r == docs
    ensures 0 < |docs| && k < |docs| ==> |r| == if k < 1 then 1 else k
    ensures 0 < |docs| && k < |docs| ==> multiset(r) <= multiset(ScoreAll(sim, q, docs))
    ensures 0 < |docs| && k < |docs| ==>
      exists i :: IsFirstMax(Relevances(ScoreAll(sim, q, docs)), i) && r[0] == ScoreAll(sim, q, docs)[i]
  {
    if |docs| == 0 then []
    else if |docs| <= k then docs
    else
      var scored := ScoreAll(sim, q, docs);
      var first := FirstArgMax(Relevances(scored));
      var p := Greedy(sim, weight, k, [scored[first]], Remove(scored, first));
      GreedyKeepsContents(sim, weight, k, [scored[first]], Remove(scored, first));
      assert multiset(p.selected) <= multiset(p.selected + p.remaining);
      MovePreservesContents([], scored, first);
      assert [] + [scored[first]] == [scored[first]] && [] + scored == scored;
      assert p.selected[0] == p.selected[..1][0];
      p.selected
  }

  /** The candidate loop of one MMR round, over the marginal
      relevance scores in pool order: keeps the first candidate whose score beats
      the best so far. `next < 0` plays the role of the `-Infinity` starting
      score, which every real score beats. */
  method PickNext(scores: seq<real>) returns (next: int)
    requires |scores| > 0
    ensures IsFirstMax(scores, next)
  {
    var best := 0.0;
    next := -1;
    var i := 0;
    while i < |scores|
      invariant 0 <= i <= |scores|
      invariant next < 0 <==> i == 0
      invariant next >= 0 ==> next < i && best == scores[next]
      invariant forall j :: 0 <= j < i ==> scores[j] <= best
      invariant forall j :: 0 <= j < next ==> scores[j] < best
    {
      var mmrScore := scores[i];
      if next < 0 || mmrScore > best {
        best := mmrScore;
        next := i;
      }
      i := i + 1;
    }
  }

  /** The retrieval routine, statement by statement. */
  method RetrieveWithMMR(sim: Similarity, queryEmb: Vec, docEmbeddings: seq<Chunk>, k: int, weight: real)
    returns (selectedDocs: seq<Chunk>)
    ensures selectedDocs == Retrieve(sim, queryEmb, docEmbeddings, k, weight)
  {
    if |docEmbeddings| == 0 {
      return [];
    }
    if |docEmbeddings| <= k {
      return docEmbeddings;
    }
    var scoredDocs := ScoreAll(sim, queryEmb, docEmbeddings);
    selectedDocs := [];
    var remainingDocs := scoredDocs;
    var firstDocIndex := FirstArgMax(Relevances(remainingDocs));
    selectedDocs := selectedDocs + [remainingDocs[firstDocIndex]];
    remainingDocs := Remove(remainingDocs, firstDocIndex);
    assert selectedDocs == [scoredDocs[firstDocIndex]];
    ghost var goal := Greedy(sim, weight, k, selectedDocs, remainingDocs);
    assert goal.selected == Retrieve(sim, queryEmb, docEmbeddings, k, weight);
    while |selectedDocs| < k && |remainingDocs| > 0
      invariant |selectedDocs| > 0 && Scored(remainingDocs)
      invariant Greedy(sim, weight, k, selectedDocs, remainingDocs) == goal
      decreases |remainingDocs|
    {
      var mmrScores := MmrScores(sim, weight, remainingDocs, selectedDocs);
      var nextDocIndex := PickNext(mmrScores);
      FirstMaxUnique(mmrScores, nextDocIndex, FirstArgMax(mmrScores));
      selectedDocs := selectedDocs + [remainingDocs[nextDocIndex]];
      remainingDocs := Remove(remainingDocs, nextDocIndex);
    }
    assert Greedy(sim, weight, k, selectedDocs, remainingDocs) == Pools(selectedDocs, remainingDocs);
  }
}

/** The stored chunk records the retriever works on, and the two list
    operations it applies to them: scoring every chunk against the query and
    splicing one chunk out of the candidate pool. */
module Chunks {
  import opened Vectors

  datatype Option<T> = None | Some(value: T)

  /** One chunk of a captured page, `{id, text, emb}`. `score` is the query
      relevance the retriever attaches; stored chunks carry `None`. */
  datatype Chunk = Chunk(id: int, text: string, emb: Vec, score: Option<real>)

  /** Every chunk in `docs` carries a relevance score. */
  predicate Scored(docs: seq<Chunk>)
  {
    forall d :: d in docs ==> d.score.Some?
  }

  /** The relevance score attached by `ScoreAll`. */
  function Relevance(d: Chunk): real
    requires d.score.Some?
  {
    d.score.value
  }

  /** The relevance scores of `docs`, position by position. */
  function Relevances(docs: seq<Chunk>): (r: seq<real>)
    requires Scored(docs)
    ensures |r| == |docs|
    ensures forall i :: 0 <= i < |docs| ==> r[i] == Relevance(docs[i])
  {
    if |docs| == 0 then [] else [Relevance(docs[0])] + Relevances(docs[1..])
  }

  /** The chunk with its query relevance attached; id, text and embedding are kept. */
  function WithScore(sim: Similarity, q: Vec, d: Chunk): (r: Chunk)
    ensures r.id == d.id && r.text == d.text && r.emb == d.emb
    ensures r.score == Some(sim(q, d.emb))
  {
    d.(score := Some(sim(q, d.emb)))
  }

  /** Spreads each chunk into a copy carrying `score: sim(queryEmb, doc.emb)`:
      same order, same chunks, every one scored. */
  function ScoreAll(sim: Similarity, q: Vec, docs: seq<Chunk>): (r: seq<Chunk>)
    ensures |r| == |docs|
    ensures forall i :: 0 <= i < |docs| ==> r[i] == WithScore(sim, q, docs[i])
    ensures Scored(r)
  {
    if |docs| == 0 then []
    else [WithScore(sim, q, docs[0])] + ScoreAll(sim, q, docs[1..])
  }

  /** `s.splice(i, 1)`: the element at `i` leaves, the others keep their order. */
  function Remove<T>(s: seq<T>, i: nat): (r: seq<T>)
    requires i < |s|
    ensures |r| == |s| - 1
    ensures forall j :: 0 <= j < i ==> r[j] == s[j]
    ensures forall j :: i <= j < |r| ==> r[j] == s[j + 1]
    ensures multiset(r) + multiset{s[i]} == multiset(s)
    ensures forall x :: x in r ==> x in s
  {
    assert s == s[..i] + [s[i]] + s[i + 1..];
    s[..i] + s[i + 1..]
  }

  /** A sequence that starts with `s + [x]` starts with `s`. */
  lemma PrefixOfExtension<T>(r: seq<T>, s: seq<T>, x: T)
    requires |s| < |r| && r[..|s| + 1] == s + [x]
    ensures r[..|s|] == s
  {
    assert r[..|s|] == r[..|s| + 1][..|s|];
  }

  /** Moving the element at `i` from `pool` to the end of `taken` keeps the
      combined contents of the two lists. */
  lemma MovePreservesContents<T>(taken: seq<T>, pool: seq<T>, i: nat)
    requires i < |pool|
    ensures multiset((taken + [pool[i]]) + Remove(pool, i)) == multiset(taken + pool)
  {
    var rest := Remove(pool, i);
    calc {
      multiset((taken + [pool[i]]) + rest);
      multiset(taken) + multiset{pool[i]} + multiset(rest);
      multiset(taken) + multiset(pool);
      multiset(taken + pool);
    }
  }
}

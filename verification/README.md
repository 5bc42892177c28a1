# MMR retrieval for the page-summariser dashboard

This project models the retrieval core of a browser extension. The extension
summarises web pages and answers questions about them. When a question is
asked, the dashboard embeds it and picks a few of the page's stored chunks
(`{id, text, emb}`) as context. It picks them by Maximal Marginal Relevance
(MMR): first the chunk most similar to the question, then repeatedly the
candidate with the best trade-off between its relevance and how close it is
to the chunks already taken:

    lambda * relevance - (1 - lambda) * (highest cosine similarity to a chunk already taken)

The chosen chunks are written into the prompt as `[id] text` lines.

The model has six modules:

- `Vectors` covers `cosine`: dot product, squared magnitudes, and the zero-denominator fallback.
- `Chunks` covers the chunk records, the scoring spread `{...doc, score}`, and `splice(i, 1)`.
- `ArgMax` covers the "first strict maximum" scan that both selection steps use.
- `Mmr` covers `retrieveWithMMR`. It is written twice: as a recursive function (`Retrieve`, built on `Greedy`) and as a statement-by-statement transcription (`RetrieveWithMMR`, `PickNext`). The two are proved equal.
- `MmrProperties` covers what the selection guarantees as a whole: every pick is maximal, and `lambda = 1` and `lambda = 0` behave as special cases. This includes an independent reference ranking by relevance.
- `Context` covers the context block of the question prompt, together with a parser for its lines, so the round trip can be stated.

Scores are exact reals. The similarity the selection uses is a function
parameter; the dashboard's instance is `Vectors.CosineSimilarity(sqrt)`, where
`sqrt` stands for `Math.sqrt`.
The trade-off argument `lambda` of `retrieveWithMMR` is the parameter `weight`
in the Dafny code.

## Model

| member | source | states |
|---|---|---|
| Vectors.Dot | src/dashboard.js:30-31 | The `dot` accumulation over two vectors of the same dimension. A vector whose components are all zero has dot product 0 with every vector. |
| Vectors.SquaredNorm | src/dashboard.js:32-33 | The `magA`/`magB` accumulation of squares is never negative. |
| Vectors.SquaredNormIsDot | src/dashboard.js:31-33 | The squared magnitude a vector accumulates equals its dot product with itself. |
| Vectors.Cosine | src/dashboard.js:28-36 | `cosine` for two vectors of the same dimension. If either vector has zero magnitude, the `\|\| 1` fallback makes the similarity 0 rather than a division by zero, whatever the square root returns. |
| Vectors.CosineSimilarity | src/dashboard.js:28-36 | The similarity the retriever is given is symmetric in its two embeddings. It is 0 when either embedding has zero magnitude, and it equals `cosine` whenever the dimensions agree. |
| Vectors.DotSymmetric | src/dashboard.js:30-32 | The accumulated `dot` does not depend on the order of the two vectors. |
| Vectors.ZeroNormIffZeroVector | src/dashboard.js:33-35 | A squared magnitude is zero exactly when every component is zero (both directions). |
| Vectors.ZeroNormDot | src/dashboard.js:30-35 | A vector of zero magnitude has zero dot product with any vector of its dimension. |
| Vectors.CosineSymmetric | src/dashboard.js:28-36 | `cosine(a, b) == cosine(b, a)`. |
| Vectors.CosineSelf | src/dashboard.js:28-36 | A non-zero vector has similarity 1 with itself when the square root is exact at its squared magnitude. |
| Chunks.Relevances | src/dashboard.js:52 | The scores the first-pick reduce compares, one per chunk and in chunk order. |
| Chunks.WithScore | src/dashboard.js:43-46 | The spread copy keeps `id`, `text` and `emb`. Its `score` is the similarity of the query to the chunk's embedding. |
| Chunks.ScoreAll | src/dashboard.js:43-46 | Scoring keeps the list's length and order. Position `i` is the scored copy of input chunk `i`, and every result is scored. |
| Chunks.Remove | src/dashboard.js:54 | `splice(i, 1)` shortens the list by one. It keeps the elements before `i` in place and shifts those after it down by one. As multisets, what is left plus the removed element is the original list. |
| Chunks.MovePreservesContents | src/dashboard.js:53-54 | Pushing `remaining[i]` onto the selected list and splicing it out of the pool keeps the combined contents of the two lists. |
| ArgMax.FirstMaxUnique | src/dashboard.js:52 | At most one position is the first maximum of a score list. So any scan that finds it agrees with the reduce. |
| ArgMax.ReduceMax | src/dashboard.js:52 | The reduce with a strict `>` ends on the first position of the highest score. |
| ArgMax.FirstArgMax | src/dashboard.js:52 | On a non-empty list, the reduce started at index 0 returns the first position of the highest score. |
| Mmr.MaxSimilarity | src/dashboard.js:64 | `Math.max(...)` over the selected chunks is at least the similarity to each selected chunk, and equals the similarity to one of them. |
| Mmr.MmrScore | src/dashboard.js:64-65 | With `lambda = 1` the marginal relevance of a candidate is its relevance. |
| Mmr.MmrScoreBound | src/dashboard.js:64-65 | With `lambda <= 1` the score is at most what the candidate would get if any single selected chunk were the only one taken. It also equals what one selected chunk would leave, so the penalty is the one for the most similar selected chunk. |
| Mmr.MmrScores | src/dashboard.js:61-65 | One score per pool candidate. |
| Mmr.MmrScoresAt | src/dashboard.js:61-65 | The score computed for candidate `i` is `lambda * relevance - (1 - lambda) * maxSimilarityToSelected` for that candidate. |
| Mmr.Greedy | src/dashboard.js:57-75 | The loop keeps the chunks already selected as a prefix of its result. It stops after `k` chunks, or earlier when the pool runs out. |
| Mmr.GreedyNextPick | src/dashboard.js:57-74 | While the loop runs, the next chunk taken is the candidate at the first position of highest MMR score. |
| Mmr.GreedyKeepsContents | src/dashboard.js:48-75 | At every step, selected plus remaining is a permutation of the scored chunks. |
| Mmr.Retrieve | src/dashboard.js:39-78 | An empty input gives `[]`. An input of at most `k` chunks comes back unchanged, without added scores. Otherwise the result has `k` chunks, or one when `k < 1`. No chunk appears more often than in the scored input, and the first chunk is at the first position of highest relevance. |
| Mmr.PickNext | src/dashboard.js:58-71 | Starting from the `-Infinity` sentinel and replacing only on a strictly greater score, the candidate loop ends on the first position of the highest score. |
| Mmr.RetrieveWithMMR | src/dashboard.js:39-78 | Written statement by statement, the method returns exactly what `Retrieve` specifies. |
| MmrProperties.FirstMaxIsMaximal | src/dashboard.js:61-71 | The candidate the loop picks has an MMR score at least that of every candidate in the pool. |
| MmrProperties.GreedyPicksMaximal | src/dashboard.js:57-75 | Each chunk the loop adds is MMR-maximal among the chunks not yet selected, given the chunks before it. |
| MmrProperties.RetrievePicksMaximal | src/dashboard.js:51-75 | When MMR runs, the first result is at least as relevant as every scored chunk. Every later result is MMR-maximal among the chunks not in front of it. |
| MmrProperties.RelevanceFirstMax | src/dashboard.js:52 | The chunk the first-pick reduce chooses is at least as relevant as every chunk in the list. |
| MmrProperties.RetrieveFromInput | src/dashboard.js:39-78 | On every path, each returned chunk has the id, text and embedding of some input chunk. |
| MmrProperties.RankByRelevance | src/dashboard.js:52-54 | Reference ranking: repeatedly move the earliest most relevant chunk from the pool to the taken list. It stops with `k` chunks taken, or with the whole pool taken when the pool is smaller. |
| MmrProperties.RankByRelevanceExtends | src/dashboard.js:52-54 | The reference ranking keeps the chunks already taken as a prefix of its result. |
| MmrProperties.TakeMostRelevant | src/dashboard.js:52-54 | Taking the earliest most relevant chunk keeps the taken list descending and above everything still in the pool. |
| MmrProperties.RankByRelevanceOrdered | src/dashboard.js:52-54 | The reference ranking keeps the taken chunks in descending relevance, and nothing left in the pool is more relevant than any of them. |
| MmrProperties.RankByRelevanceKeepsContents | src/dashboard.js:52-54 | The reference ranking only moves chunks from the pool to the taken list. |
| MmrProperties.RankByRelevanceIsTop | src/dashboard.js:52-54 | Ranked from scratch, the taken chunks are in descending relevance, and no chunk left in the pool is more relevant than any taken. |
| MmrProperties.RankByRelevanceSplitsPool | src/dashboard.js:52-54 | Ranked from scratch, the taken chunks and the chunks left over are together a permutation of the pool. |
| MmrProperties.PureRelevanceScores | src/dashboard.js:65 | With `lambda = 1`, each MMR score is the chunk's relevance. |
| MmrProperties.GreedyPureRelevance | src/dashboard.js:57-75 | With `lambda = 1`, the MMR loop produces exactly the reference ranking by relevance. |
| MmrProperties.RetrievePureRelevance | src/dashboard.js:39-78 | With `lambda = 1` and more than `k` chunks, the result is the reference ranking of the scored input cut at `k` (at one when `k < 1`). That ranking is in descending relevance by `MmrProperties.RankByRelevanceIsTop`. Each step takes the earliest chunk of highest score (`Mmr.GreedyNextPick`), and with `lambda = 1` that score is the relevance (`MmrProperties.PureRelevanceScores`), so ties go to the earlier chunk. |
| MmrProperties.GreedyPureDiversity | src/dashboard.js:64-70 | With `lambda = 0`, the next pick is a pool candidate with the lowest similarity to the chunks already selected. |
| Context.DigitsRoundTrip | src/dashboard.js:87 | The decimal notation of a natural number reads back as that number. |
| Context.IntToString | src/dashboard.js:87 | `${c.id}` prints a non-empty string of digits, possibly with a minus sign. |
| Context.ParseInt | src/dashboard.js:87 | The dashboard only prints ids; this is the reader that `Context.IntRoundTrip` pairs with the printed form. It accepts exactly an optional minus sign followed by at least one digit. |
| Context.IntRoundTrip | src/dashboard.js:87 | Every integer id reads back from its printed form, so distinct ids print differently. |
| Context.ContextLine | src/dashboard.js:87 | The line for a chunk starts with `[` and ends with the chunk's text. |
| Context.ContextLines | src/dashboard.js:87 | The block has one line per chunk, in result order. |
| Context.Join | src/dashboard.js:87 | `.join("\n")` gives the empty string for no lines. Otherwise it starts with the first line, and its length is the lines' total length plus one separator between each pair of neighbours. |
| Context.ContextBlock | src/dashboard.js:87 | The context block is empty exactly when no chunk was retrieved. Otherwise it opens with the `[` of the first line. |
| Context.Split | src/dashboard.js:87 | Cutting at newlines gives at least one piece, and no piece holds a newline. |
| Context.SplitJoin | src/dashboard.js:87 | Splitting `lines.join("\n")` at newlines gives the lines back, when there is at least one line and none holds a newline. |
| Context.JoinSplit | src/dashboard.js:87 | Joining the pieces of any string's split with `"\n"` gives the string back. |
| Context.ParseContextLine | src/dashboard.js:87 | The dashboard only prints context lines; this is the reader that `Context.ContextLineRoundTrip` pairs with `Context.ContextLine`. A line it accepts starts with `[`. |
| Context.ContextLineRoundTrip | src/dashboard.js:87 | Every `[id] text` line reads back as its chunk's id and text, whatever the text holds. |
| Context.ContextBlockRoundTrip | src/dashboard.js:87 | When there is at least one chunk and no chunk text holds a newline, the block has exactly one line per chunk, and line `i` reads back as chunk `i`'s id and text. |

## Left out

- IEEE-754 arithmetic is not modelled: scores are exact reals, so NaN, infinities and rounding are absent. Because nothing is NaN, the `|| 1` fallback fires only on an exact zero denominator.
- The `-Infinity` starting score is the sentinel `next < 0` in `PickNext`, which every real score beats.
- `Math.sqrt` is the function parameter `sqrt`. No property of it is assumed, except where `Vectors.CosineSelf` states its own precondition.
- Vectors.CosineSimilarity: embeddings of different dimensions get similarity 0. The source reads past the shorter array and gets NaN, or ignores the extra components when the second vector is longer.
- Mmr.RetrieveWithMMR: it computes the round's MMR scores as a list and then runs the candidate loop over them. The source computes each score inside the loop; the values and the order of comparisons are the same.
- `k` is an integer. The default arguments (`k = 3`, `lambda = 0.5`) and the call site's arguments (`3`, `0.7`) are values of parameters, not separate behaviour.
- Mmr.MmrScores states only the length of the score list. The value at each position is stated by `Mmr.MmrScoresAt`.
- Context.ContextBlockRoundTrip needs at least one chunk and every chunk text to be free of newlines. The empty block (no chunk retrieved) is the empty string, which splits into one empty line, not zero lines. A text holding a newline spreads over several prompt lines, and the block no longer splits back one line per chunk.
- Context.IntToString prints every integer id in plain decimal. JavaScript prints a number of magnitude 1e21 or more in exponent form (`${1e21}` is `"1e+21"`), and integers above 2^53 are not exact as numbers. It also prints a fractional id with a decimal point. The model takes ids to be integers of ordinary size, and it does not model either of these forms.
- `embedText` (a remote embedding call), `askQuestion` (a chat-completion request), `getKey` and the rest of the prompt are network and storage I/O. They are not modelled.
- `loadHistory`, `showDetail` and the bootstrap code manipulate the DOM and extension storage. They are not modelled.
- `src/background.js`, `src/popup.js` and `src/options.js` capture pages, summarise them and manage settings through browser APIs. They are outside the retrieval core.
- The code that builds a page's stored chunk list (`e.embeddings`) is not part of this model; the retriever takes that list as given.

# Sentence-embedding service: a Dafny model of its bookkeeping

The service (a small Flask application in `backend.py`) takes sentences,
obtains vector embeddings for them from an embedding provider, compares them
by cosine similarity, and keeps saved sentences with their embeddings in a
JSON file for later similarity search. This project models the sequential
logic around the embeddings and proves what it promises:

- **Embedding fan-out** (`get_upstage_embeddings`), module `Embeddings`: a
  bare string is treated as a one-element list; the provider is asked once
  per text, in order; the first provider failure aborts the whole call.
- **Pair enumeration** (`compute_similarity`), module `Pairs` with the label
  format in module `Labels`: fewer than two texts are refused before the
  provider is asked anything; otherwise one record per pair `i < j`, in
  ascending `i` then ascending `j`, labelled `"{i+1} vs {j+1}"`.
- **Ranked search** (`search_similar`), modules `Store` and `Ranking`: an empty
  query is refused; an empty store gives not-found before the provider is
  asked anything; otherwise one scored entry per stored sentence, sorted in
  place by a stable descending sort on the similarity.
- **Sentence store** (`load_sentences_db`, `save_sentence`,
  `reset_sentences`, `get_all_sentences`), class `Store.SentenceStore`: an
  ordered list of `{text, embedding, timestamp}` records in a `seq` field;
  saving appends one record at the end; resetting, and loading when no file
  exists, give the empty list; listing projects each record to its text and
  timestamp, with `""` for a missing timestamp.

Modelling choices:

- The provider is a parameter `embedOne: Text -> Result<Embedding, string>`:
  an uninterpreted function from one text to its embedding or to the message
  of the error it raised. The texts actually sent to it are returned as the
  out-parameter `requested`, so that contracts say when it is not called and
  that it is called once per text.
- Cosine similarity is a parameter `sim: (Embedding, Embedding) -> real`
  standing for the value after `round(sim, 4)`. The search sorts on the
  rounded value, so ties are ties of rounded values. Nothing is proved about
  its numeric value.
- Request fields are `Option` values: `None` is a missing field. Python's
  `not x` test on a string field is "missing or empty" (`Given`). The `texts`
  field is a `TextInput`, either a bare string or a list, because the code
  accepts both: a bare string of two or more characters passes the
  `len(texts) < 2` check, is embedded as a single text, and gives an empty
  pair list (`Pairs.BareStringNoPairs`).
- The search checks the query before the store, so a missing or empty query
  is answered with 400 even when the store is empty; not-found applies to
  every given query.
- The JSON file is the `sentences` field of one `SentenceStore` object. The
  time of a save is the parameter `now`.
- Error responses are `Responses.Failure`: `BadRequest` (400), `NotFound`
  (404), `ServerError(message)` (500, here only for a provider error).
- Stability of the sort is stated with `Ranking.WithScore`: for every
  similarity value, the entries with that value appear in the same order
  after the sort as before (`SameTies`). Together with sortedness this fixes
  the result uniquely (`Ranking.StableSortUnique`) and makes it a permutation
  (`Ranking.TiesKeepMultiset`).
- The sort itself is an insertion sort on an `array`, standing for Python's
  `list.sort` with `reverse=True`. Python keeps equal elements in their
  original order under `reverse=True`, so the descending sort is stable.
- The pair loop is written as two methods, `SimilarityPairs` (outer loop)
  and `AppendRow` (inner loop). The code has them as two nested `for`
  loops in one function.

## Model

| member | source | states |
|---|---|---|
| Embeddings.FirstFailure | backend.py:51-56 | the index of the first text the provider fails on, or the number of texts: every earlier text succeeds and the text at that index fails |
| Embeddings.GetUpstageEmbeddings | backend.py:39-58 | a bare string is a one-element list; when no provider call fails, one embedding per text in input order and every text was sent once, in order; otherwise the first failure's error, with exactly the texts up to and including the failing one sent |
| Labels.NatToString | backend.py:84 | the decimal form of a number is a non-empty run of digits that starts with `0` exactly when the number is 0, so it has no leading zeros |
| Labels.DecimalRoundTrip | backend.py:84 | reading back the decimal form of a number gives the number |
| Labels.LabelRoundTrip | backend.py:84 | the label `"{a} vs {b}"` parses back to exactly `(a, b)` |
| Labels.LabelInjective | backend.py:84 | two pairs with the same label are the same pair |
| Pairs.RowShape | backend.py:82 | one run of the inner loop yields `(i, j)` for every `j` of its range, in ascending order |
| Pairs.PairsBelowCount | backend.py:81-82 | after `i` rounds of the outer loop over `n` texts, `i(2n-i-1)/2` pairs have been produced |
| Pairs.PairCount | backend.py:81-84 | `n` texts give `n(n-1)/2` pairs |
| Pairs.PairsBelowMembers | backend.py:81-82 | after `i` rounds, a pair has been produced exactly when its first index is below `i` and below its second index, which is below `n` |
| Pairs.AllPairsMembers | backend.py:81-82 | a pair `(i, j)` is produced exactly when `0 <= i < j < n` |
| Pairs.PairsBelowOrdered | backend.py:81-82 | the pairs produced so far are strictly ascending by first index, then second index |
| Pairs.PairsOrdered | backend.py:81-82 | all pairs come in strictly ascending lexicographic order, so none repeats |
| Pairs.PairwiseAt | backend.py:83-84 | record `k` of the result is the record of the `k`-th pair, whose indices are in range and ordered |
| Pairs.PairwiseShape | backend.py:79-84 | `n` embeddings give `n(n-1)/2` records; record `k` is labelled `"{i+1} vs {j+1}"` for the `k`-th pair `(i, j)` with `i < j`, and that label reads back to `(i+1, j+1)`; its similarity is that of embeddings `i` and `j` |
| Pairs.ThreeTexts | backend.py:79-84 | three texts give the records labelled "1 vs 2", "1 vs 3", "2 vs 3", in that order, with the matching similarities |
| Pairs.BareStringNoPairs | backend.py:47-48 | a single embedding, as a bare string of texts yields, gives no pair |
| Pairs.ComputeSimilarity | backend.py:66-86 | a missing field or fewer than two texts is refused with 400 and no provider call; a provider failure is a 500 with its message; otherwise the pair records of the embeddings, in loop order |
| Pairs.SimilarityPairs | backend.py:79-84 | the nested loops produce exactly the records of all pairs, in order |
| Pairs.AppendRow | backend.py:82-84 | the inner loop appends the records of `(i, i+1)` to `(i, n-1)`, in order, after what was there |
| Ranking.WithScoreAppend | backend.py:150 | the entries with a given similarity in a concatenation are those of each part, in order |
| Ranking.WithScoreMembers | backend.py:150 | an entry is among those with a given similarity exactly when it is in the list and has that similarity |
| Ranking.SwapKeepsTies | backend.py:150 | exchanging two neighbours with different similarities keeps the order among equal similarities, leaving the entries after it untouched |
| Ranking.CountThroughScore | backend.py:150 | the number of copies of an entry in a list equals that in the entries sharing its similarity |
| Ranking.TiesKeepMultiset | backend.py:139-150 | keeping the order within every similarity value makes the result a permutation of the input |
| Ranking.StableSortUnique | backend.py:150 | two lists sorted by descending similarity that agree on the order within every similarity value are equal: the stable sort has one result |
| Ranking.SortBySimilarity | backend.py:150 | the array ends sorted non-increasing by similarity, and entries with equal similarity keep their original order |
| Ranking.InsertIntoPrefix | backend.py:150 | moving one entry left past strictly lower similarities extends the sorted prefix by one and keeps the order among equal similarities, leaving the entries after it untouched |
| Store.SentenceStore.Load | backend.py:27-31 | the persisted list, or the empty list when no file exists |
| Store.SentenceStore.SaveSentence | backend.py:92-118 | a missing or empty sentence is refused with 400, no provider call and no change; a provider failure is a 500 and no change; otherwise exactly one record with the text, its embedding and the given time is appended at the end and all earlier records are unchanged |
| Store.SentenceStore.ResetSentences | backend.py:173-179 | the store becomes the empty list |
| Store.SentenceStore.GetAllSentences | backend.py:158-167 | one entry per stored record, in store order, with its text and its timestamp, or `""` when it has none; the entry type has no embedding |
| Store.SentenceStore.SearchSimilar | backend.py:121-152 | a missing or empty query is refused with 400; an empty store gives 404 with no provider call; a provider failure gives 500; otherwise one entry per stored record, sorted non-increasing by similarity, equal similarities in store order, and a permutation of the scored records |
| Store.SaveThenList | backend.py:97-113 | the store round trip: saving a sentence and then listing shows the earlier entries unchanged, then the new sentence with the time of the save |
| Store.ResetThenSearch | backend.py:126-132 | after a reset the listing is empty and a search for any non-empty query answers not-found |

## Left out

- HTTP routing, request JSON parsing, CORS, serving `index.html`, status-code plumbing and the `__main__` start-up: web glue.
- Request fields of other JSON types (numbers, objects, a list passed as `sentence` or `query`): the model types them as strings or, for `texts`, as a string or a list of strings.
- The provider client and its network call: replaced by the uninterpreted `embedOne`.
- Cosine similarity, numpy arrays and `round(sim, 4)`: floating point through foreign libraries; replaced by the uninterpreted `sim`, whose value is taken as already rounded. Zero vectors, NaN and mismatched dimensions are not modelled, so `sklearn` errors other than the provider's are not among the 500 responses.
- Exceptions other than a provider failure (file read or write errors, a malformed file), which the handlers turn into 500 responses.
- JSON file reads and writes and the existence check: the store is an in-memory `seq` field; `Load` takes the file's content, or `None` when it does not exist.
- `datetime.now()` and its format: the time is the parameter `now`.
- Environment and configuration globals, and the lost update between two concurrent writers: concurrency is out of scope.

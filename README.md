# Item-based book recommender, modelled in Dafny

This project models the recommendation engine of a small book recommender.
The engine has two phases.

- The **model builder** (`train.py`) checks the input columns, gives the distinct user and book ids dense indices in sorted order, and builds the dense user–item matrix of per-cell mean ratings. It then computes the item means, centres the matrix, and zeroes the diagonal of the item–item similarity matrix.
- The **scorer** exists twice: in the API (`app/main.py`) and in the Streamlit client's local mode (`cliente/bookrec_streamlit.py`). It ranks a similarity row for "similar" queries. For "recommend" it runs a fallback chain. Cold starts rank the item means. The warm path sums the similarity columns of the liked items, writes the sentinel -1e9 over every rated item, and takes the top k.

Modules, one per component:

- `Schema`: the `load_data` column check.
- `StringOrder`: Python's code-point string order.
- `Mappings`: `build_mappings`.
- `UserItemMatrix`: `build_user_item_matrix`.
- `ItemSimilarity`: means, centring and `fill_diagonal`.
- `Ranking`: `np.argsort(-v)[:k]`.
- `Scoring`: what both front ends share. This is the artifact bundle, ranked output, the warm-path aggregate, and the sentinel loop.
- `Histories`: the rated-items index.
- `Server`: `app/main.py`.
- `Client`: the client's local mode.
- `Ratings`, `Collections`, `Wrappers`: value types and small helpers.

Modelling choices:

- Ratings and scores are `real`.
- Rating rows, column lists and the bundle are in-memory inputs.
- A missing ratings file is the `None` of an `Option`.
- The rows loop of the matrix builder, the sentinel loop over the rated set, the `groupby` loop of `build_user_histories` and the column-check loops are loops with invariants.
- numpy's vectorised assignments (`np.where`, the broadcast subtraction, `centered[:, counts==0] = 0.0`, `fill_diagonal`) are Dafny `forall` statements over arrays.
- `similar`, the cold-start branches and the selection of the top k are functions.

Where the design description and the code disagree, the model follows the code:

- **Centring.** The code subtracts a rated column's mean from every cell of that column, the unrated zeros included (train.py:61). Only all-zero columns are forced to 0 (train.py:62). The description says only the nonzero entries are centred. `CenterItems` states the code's behaviour.
- **Similar items.** `similar` does not exclude the queried book; it is ranked by its own (zeroed) diagonal entry. For k at or above the catalogue size it is listed (`SimilarListsQueried`). The description says "the other items".
- **Ties.** The description calls for a stable sort with ties broken by ascending index. numpy's default `argsort` is not stable, so the code fixes no tie order. `TopK` promises only what the code promises. The model's own order, ties by ascending index, is stated separately in `TopKTieBreak`.
- **Client chain.** The client has no unknown-user branch: an unknown user gets the empty default history and the "cold-start-item-means" tag. An unknown book gives an empty list, not an error.

## Model

| member | source | states |
|---|---|---|
| Schema.CheckColumns | train.py:23-28 | Fails iff user_id, book_id or rating is missing from the ratings columns, or book_id or title from the books columns. The error names the first absent column in checking order, and a books error only comes once every ratings column is present. |
| Schema.MessageIdentifiesError | train.py:24-28 | The `ValueError` text ("ratings.csv must include column …" or "books.csv must include column …") determines the error: two errors have the same message iff they name the same table and column. |
| Mappings.SortedUnique | train.py:34-38 | `sorted(unique(ids))`: strictly ascending in code-point order, with exactly the elements of the input. |
| Mappings.SortedSetUnique | train.py:36-38 | Two strictly sorted sequences with the same elements are equal, so the sorted id list is determined by the id set. |
| Mappings.IndexMapProperties | train.py:36-39 | `enumerate` over a sorted list gives an injective map onto [0, n) whose inverse is exact in both directions, and indices follow string order. |
| Mappings.BuildMappings | train.py:33-40 | Each forward map is a bijection from the distinct ids onto [0, number of ids), its inverse map is its exact inverse, and a < b in string order implies idx(a) < idx(b). Holds for users and for books. |
| Mappings.BuildMappingsDependsOnlyOnIdSets | train.py:34-38 | Rows with the same user-id and book-id sets give identical maps, whatever the row order or repetition. |
| UserItemMatrix.BuildUserItemMatrix | train.py:42-54 | The matrix is a new n_users × n_items array. The loop keeps counts[u,i] equal to the number of rows in the processed prefix landing in (u,i), and mat[u,i] equal to the sum of their ratings. Each final cell is sum/count when count > 0, else 0.0. |
| UserItemMatrix.CellMeanIsPairMean | train.py:47-53 | With injective maps, the cell of (user, book) is the arithmetic mean of every rating given for that pair (not their sum), or 0.0 if there is none. |
| UserItemMatrix.PairRatingsEmpty | train.py:52-53 | A pair's rating list is empty exactly when no row carries that user and book. Together with `CellMeanIsPairMean`, these are the pairs left at 0.0 by the count-zero branch. |
| UserItemMatrix.MappingsFitMatrix | train.py:43-49 | The maps `build_mappings` returns cover every row (no KeyError), index below their own size and are injective, so the builder's preconditions hold for the same rows. |
| ItemSimilarity.CenterItems | train.py:58-62 | Both results are new arrays. means[i] is the column sum over the number of nonzero entries, or 0.0 for a column without any. Every cell of a rated column, zeros included, becomes M[u,i] - means[i], and every cell of an all-zero column becomes 0.0. |
| ItemSimilarity.ItemMeanIsMeanOfNonzero | train.py:58-60 | Zeros add nothing, so means[i] is the mean of the column's nonzero entries. An all-zero column has mean exactly 0.0. |
| ItemSimilarity.FillDiagonalZero | train.py:64 | Every sim[i,i] becomes 0.0 and every off-diagonal entry is unchanged. Symmetry and bounds in [-1, 1] are preserved. |
| Ranking.ArgSortDesc | app/main.py:53 | argsort of -v: a permutation of the indices in descending score order. |
| Ranking.TopK | app/main.py:53 | `argsort(-v)[:k]` returns min(k, n) distinct in-range indices with non-increasing scores, and every unselected index scores at most every selected one. |
| Ranking.TopKTieBreak | app/main.py:53 | The model's deterministic refinement: among equal scores the lower index is listed first. |
| Ranking.TopKAll | cliente/bookrec_streamlit.py:117-119 | With k ≥ n every index is ranked. |
| Ranking.TopKAvoidsSunk | app/main.py:82-85 | If sunk indices score at most a floor, all others score above it, and k ≤ the number of others, then top-k holds no sunk index. |
| Ranking.TopKReachesSunk | app/main.py:82-85 | Under the same separation, with k above the number of other indices, every other index is ranked and, when the sunk set is nonempty, some sunk index is ranked. |
| Ranking.TopKSunkAtTail | cliente/bookrec_streamlit.py:100-103 | Under the same separation, a ranked sunk index is followed only by sunk indices. |
| Scoring.LabelsDistinct | app/main.py:65-87 | The four strategy tags are distinct strings, so callers can tell the branches apart. |
| Scoring.Bundle.Ranked | app/main.py:53-54 | The output list has min(k, n) distinct books. Each score is the ranked vector's entry at that book's index, and scores do not increase. No listed book is beaten by an unlisted one. |
| Scoring.RankedAll | cliente/bookrec_streamlit.py:117-126 | With k ≥ the catalogue size every book of the index is listed. |
| Scoring.RowSumNoneLiked | app/main.py:81 | With no liked column the aggregate of a row is 0.0. |
| Scoring.RowSumSingleton | app/main.py:81 | With one liked column l the aggregate of row j is ITEM_SIM[j,l]. |
| Scoring.RowSumUnion | app/main.py:81 | Aggregates over disjoint liked sets add up. With the two rows above, the aggregate is the sum over the set of liked columns, independent of listing order. |
| Scoring.RowSumLowerBound | app/main.py:81 | When every similarity is ≥ -1, the aggregate over m columns is ≥ -m. |
| Scoring.SinkRated | app/main.py:82-84 | After the loop over the rated set, agg[idx(b)] = -1e9 for every rated indexed book b. Every other entry is unchanged, and only `agg` is modified; `RankWarm` passes it a new array. |
| Scoring.RankWarm | app/main.py:81-86 | The warm list is the top-k of the liked-column sums with every rated indexed entry overwritten by -1e9. It is shared by both front ends (cliente/bookrec_streamlit.py:99-111). |
| Scoring.WarmScoresSeparate | app/main.py:81-84 | With similarities ≥ -1 and fewer than 10^9 items, rated indexed entries are exactly the sentinel and every other warm score is above it. |
| Scoring.WarmExcludesRated | app/main.py:81-86 | Under those bounds and with k + (number of rated indexed items) ≤ n, the warm list contains no rated book. |
| Scoring.WarmSinksRated | cliente/bookrec_streamlit.py:99-103 | Rated items are sunk, not filtered. A listed rated book has score -1e9 and comes after every unrated one. Once k + (number of rated indexed items) > n, every unrated indexed book is listed and, if any rated book is indexed, a rated book appears. With k ≥ n every rated indexed book appears. |
| Scoring.WarmRatedReappear | app/main.py:82-85 | With k + (number of rated indexed items) > n, every unrated indexed book is in the warm list, and a rated book is in it whenever the user rated an indexed book. |
| Histories.HistoryOf | app/main.py:27-28 | One entry per user with at least one row, holding exactly the book ids on that user's rows, so every stored set is nonempty. |
| Histories.GetHistoryOf | app/main.py:67 | `user_rated.get(u, set())` contains b iff some row is (u, b). It is empty for users with no rows. |
| Server.BuildUserHistories | app/main.py:23-28 | The result is empty if the ratings file is missing. Otherwise the groupby loop fills exactly the history map of the rows. |
| Server.SimilarBooks | app/main.py:47-55 | An unknown book_id gives 404 "Unknown book_id" and nothing else. A known one gives the ranked similarity row of that book. |
| Server.SimilarListsQueried | app/main.py:51-54 | The queried book is not excluded. With k ≥ n it is listed with its own diagonal entry as score, which is 0.0 when the matrix has the zero diagonal the builder leaves. |
| Server.Recommend | app/main.py:57-87 | "cold-start-item-means" iff the user is unknown. "no-history-item-means" iff known with empty history. "no-liked-found" iff the history has no indexed book. All three rank ITEM_MEANS. Otherwise "item-sim-aggregate" ranks the sunk aggregate. |
| Client.LoadUserHist | cliente/bookrec_streamlit.py:60-65 | Empty when the ratings file is missing. Otherwise each user's looked-up set is exactly the books on their rows, and stored sets are nonempty. |
| Client.LocalRecommend | cliente/bookrec_streamlit.py:71-111 | Two cold-start tags only. "cold-start-item-means" iff the looked-up history is empty, unknown users included. "no-liked-found" iff no rated book is indexed. Both rank item_means. Otherwise the warm path. Never "no-history-item-means". |
| Client.LocalSimilar | cliente/bookrec_streamlit.py:113-126 | An unknown book gives an empty list. A known one gives the ranked whole similarity row. |
| Client.LocalSimilarMatchesServer | cliente/bookrec_streamlit.py:115-116 | Where the API answers 404 the client returns []. Otherwise both return the same list. |
| Client.LocalSimilarRanksWholeRow | cliente/bookrec_streamlit.py:117-119 | With k ≥ n all n books, the queried one included, are listed in non-increasing score order. |

## Left out

- File and table I/O (CSV, JSON, parquet, npy reading and writing, `save_artifacts`, `load_local_artifacts`): rows, column lists, histories and the bundle are inputs.
- sklearn's `cosine_similarity` (train.py:63): its square-root and float normalisation are not modelled. Its result is the array `FillDiagonalZero` works on. Symmetry and the [-1, 1] bound are stated as properties that the diagonal fill preserves. The scorer lemmas that need a bound take it as a precondition (`SimBoundedBelow`).
- float32 storage and rounding, NaN and infinity: all scores are exact `real`s, so the aggregate's summation order does not matter in the model.
- Negative k: Python slice semantics for k < 0 are not modelled; k is a `nat`.
- The order numpy's unstable argsort gives to ties: not fixed by the code. The model picks one order and proves only the code's guarantees about it in `TopK`.
- The HTTP layer (FastAPI routes, the pydantic request model, `/health`) and the client's `requests` helpers: transport only.
- The Streamlit UI: rendering only.
- `_book_meta`/`local_book_meta`: metadata decoration of the output. `search_books`/`local_search`: pandas regex substring search with no scoring content.
- KeyError paths: `build_user_item_matrix` is only called with maps that cover its rows (`MappingsFitMatrix`). A bundle whose maps and matrices come from different runs is excluded by `Bundle.Valid`.
- `build_user_histories` fills a module-level dict. The model returns that dict as the method's result instead of mutating a global.
- pandas conversions of the id columns (`astype(str)` before the grouping by user, and how a missing id is rendered as a string, which depends on the pandas version): ids are strings already in the model.

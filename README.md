# WBSFLIX recommendation core in Dafny

This project models the recommendation logic of the WBSFLIX film
recommendation page, which is written in Python with pandas. The input is the
merged rating table: one `Row(userId, movieId, title, tmdbId, rating)` for
each rating, already joined with the film's title and TMDB id. The model covers
four pieces of that logic and the search box:

- **Popularity ranking** (`top_n_movies`), in module `Popularity`. Each film's
  rating count and mean rating are joined onto the de-duplicated
  (movieId, title, tmdbId) rows. The rows are sorted stably by count, then
  mean, both descending, and the first n are kept.
- **Item-based recommendations** (`item_based_recommendations`), in module
  `ItemSimilarity`. The user × film pivot table takes the mean of duplicate
  ratings and fills unrated cells with 0. Each film's column is scored by a
  similarity function against the query film's column, the scores are ranked
  in descending order, positions 1..n are kept, and the film descriptions are
  joined on. An unknown film (pandas' `KeyError`) is the `UnknownMovie`
  outcome.
- **User-based recommendations** (`user_based_recommender`), in module
  `Personalized`:
  - The anti-testset is every (user, unrated film) pair, with users and films
    in order of first appearance. It is filtered to one user.
  - Each candidate is scored by the trained predictor. The n highest estimates
    are kept.
  - These are left-joined with every row's (movieId, title, tmdbId),
    de-duplicated on movieId and cut to n rows.
  - A user without candidates yields the `NlargestTypeError` outcome, because
    `nlargest` fails on the empty predictions frame (see "## Findings").
    `UserBasedRecommendations` is the corrected table, which is empty in that
    case.
- **Poster grid** (`display_movie_posters`), in module `PosterGrid`. An
  imperative method with the source's nested row and column loops places each
  film at row k / 4 and column k % 4.
- **Search fallback**, in module `Search`. The first film whose title contains
  the query, ignoring case, is used. An empty query, or one that no title
  contains, gives film 1.

`Ranking` holds the shared stable descending insertion sort and `head(n)`.
`Ratings` holds the row table, the groupings, means and first-occurrence
de-duplication. `WorkedCases` states the model's result on two small tables.

Three behaviours of the code that the model keeps:

- An unknown user gets no estimates at all. The anti-testset has no entries
  for that user, so the prediction list is empty and `nlargest` fails (see
  "## Findings").
- Tied estimates keep the anti-testset order, which is the order in which
  films first appear in the rating table.
- The item-based ranking drops whatever entry is at position 0, which need
  not be the query film (see "## Findings").

Similarity and the trained predictor are parameters (`sim`, `est`), so every
statement about them holds whatever they compute. Tie order is not fixed for
pandas' single-column `sort_values`, nor for `nlargest` when it returns every
row. Where that matters, the selection lemmas (`AttachedSelection`,
`AttachedTop`, `OthersSelection`, `RecommendFromRanking`, `RecommendFromKeepsBest`) hold for
every descending arrangement of the scores. The concrete functions use the
stable sort as one admissible arrangement.

## Model

| member | source | states |
|---|---|---|
| Ranking.SortDesc | application.py:89 | the sorted rows are a permutation of the input and no row is outranked by a later one |
| Ranking.SortDescStable | application.py:89 | rows with equal (count, mean) keep their input order (the two-column sort is stable) |
| Ranking.SortDescUniqueBy | application.py:89 | sorting never produces two rows with the same identity |
| Ranking.PermutationUniqueBy | application.py:105 | any rearrangement of rows with distinct identities still has distinct identities |
| Ranking.Take | application.py:89 | `head(n)` yields min(n, length) rows and they are a prefix of the input |
| Ratings.MovieRatingsCount | application.py:87 | a film's group has exactly as many ratings as rows carrying its movieId |
| Ratings.MovieRatingsNonEmpty | application.py:87 | a film's group is non-empty exactly when the film has a row |
| Ratings.MeanWithin | application.py:87 | the mean of ratings on a scale [lo, hi] lies on that scale |
| Ratings.MeanOfConstant | application.py:95-99 | averaging equal duplicate ratings gives back that rating |
| Ratings.PairRatingsEmpty | application.py:95-99 | a user's group for a film is empty exactly when no row pairs them |
| Ratings.Distinct | application.py:88 | `drop_duplicates` keeps every distinct value, only values of the input, each once, in the order of their first occurrences |
| Ratings.DistinctInfoIds | application.py:88 | in a table where movieId fixes title and TMDB id, the de-duplicated film rows carry each movieId once and every movieId of the table |
| Ratings.MatchingInfosSingle | application.py:107 | against descriptions with distinct movieIds, a present movieId matches exactly one description |
| Ratings.MatchingInfosPresent | application.py:128 | every film with a rating has at least one description to join with |
| Popularity.TopNMovies | application.py:86-89 | `top_n_movies` returns the first min(n, number of distinct film rows) rows of the table in popularity order |
| Popularity.TopNLength | application.py:86-89 | the output has min(n, number of distinct movieIds) rows |
| Popularity.TopNUniqueMovies | application.py:86-89 | no movieId appears twice in the output |
| Popularity.TopNAggregates | application.py:87-88 | each row's count is the number of the film's ratings (positive) and its mean is the mean of those ratings; its description is one of the table's |
| Popularity.TopNTotals | application.py:87-88 | without division: each row's mean times its count is the sum of the film's ratings |
| Popularity.SummaryFacts | application.py:87-88 | a statistics row holds the film's group size and group mean |
| Popularity.TopNAverageOnScale | application.py:87 | with all ratings on [lo, hi], every mean is on [lo, hi] |
| Popularity.TopNOrdered | application.py:89 | rows are ordered by count descending, then mean descending |
| Popularity.TopNPrefix | application.py:89 | the top n rows are a prefix of the top n + 1 rows |
| Popularity.TopNKeepsMostPopular | application.py:89 | a film left out ranks no higher by (count, mean) than any film kept |
| Popularity.RankedTiesKeepTableOrder | application.py:88-89 | films tied on count and mean keep their order of first appearance |
| ItemSimilarity.PivotTable | application.py:95-99 | the index and columns are the sorted distinct userIds and movieIds, and the matrix is fully shaped |
| ItemSimilarity.PivotCell | application.py:95-99 | an unrated cell is 0; a rated cell is the mean of that pair's ratings (duplicates are averaged) |
| ItemSimilarity.CellValueOnScale | application.py:95-99 | a cell value (`CellValue`) with ratings on [lo, hi], lo > 0, is 0 exactly when the user did not rate the film, and on [lo, hi] otherwise |
| ItemSimilarity.PivotZeroMeansUnrated | application.py:95-99 | with positive ratings, a cell is 0 exactly when the user did not rate the film; otherwise it is on the rating scale |
| ItemSimilarity.PivotDuplicatesAgree | application.py:95-99 | duplicate ratings of one value give that value in the cell |
| ItemSimilarity.QueryColumn | application.py:101-105 | the query column lists every film of the matrix in column order |
| ItemSimilarity.ScoresForShape | application.py:101-105 | the query column lists each film of the table exactly once |
| ItemSimilarity.SkipFirstSelection | application.py:105 | `SkipFirstTakeN` (`iloc[1:n+1]`) of any ranking keeps exactly positions 1..n, scores non-increasing, none above the dropped first entry, all from the column |
| ItemSimilarity.SkipFirstExcludesStrictTop | application.py:105 | when the query film strictly outscores every other film, skipping the first entry removes it |
| ItemSimilarity.AttachInfosOneToOne | application.py:107 | the inner merge `AttachInfos` against descriptions with distinct movieIds gives one row per selected film, in order, with its score and a description of that film |
| ItemSimilarity.AttachedSelection | application.py:105-107 | for any ranking, the output is positions 1..n, each with the film's description from the de-duplicated film rows, non-increasing, and the dropped entry is the column maximum |
| ItemSimilarity.ItemBasedAsWrittenSelection | application.py:92-109 | as written, for a known film the output has min(n, films - 1) rows, the ranked positions 1..n, each with the film's description from the de-duplicated film rows, and the dropped first entry is the column maximum |
| ItemSimilarity.ItemBasedAsWrittenOrdered | application.py:105 | as written, the output scores are non-increasing and none exceeds the dropped first entry |
| ItemSimilarity.ItemBasedAsWrittenExcludesStrictTop | application.py:105 | as written, the query film is excluded when its self-similarity is strictly the highest |
| ItemSimilarity.OtherMovies | application.py:105 | the column without the query film holds exactly the other films' entries |
| ItemSimilarity.OtherMoviesCount | application.py:105 | removing the query film removes exactly one entry |
| ItemSimilarity.AttachedTop | application.py:105-107 | for any ranking of the other films, the output has min(n, length) rows and row k carries the movieId and score of ranked entry k and a description of that film |
| ItemSimilarity.AttachedTopKeepsBest | application.py:105-107 | for any ranking, the output scores are non-increasing and no film left out scores above a film kept |
| ItemSimilarity.OthersSelection | application.py:105-107 | with the query film removed by movieId, any ranking of the other films yields min(n, column length - 1) rows, each another film's entry with a description from the film rows, non-increasing, and no other film left out scores higher |
| ItemSimilarity.ItemBasedSelection | application.py:92-109 | corrected: min(n, films - 1) rows, each another film's entry of the query column with its description from the de-duplicated film rows, non-increasing, and no other film left out scores higher |
| ItemSimilarity.ItemBasedScores | application.py:101-107 | corrected: each row's score is the similarity of its film's column to the query film's column |
| ItemSimilarity.ItemBasedExcludesQuery | application.py:105 | corrected: the query film is never recommended |
| ItemSimilarity.ItemBasedAsWritten | application.py:92-109 | the answer is the `UnknownMovie` outcome (pandas' KeyError) exactly when the film has no rating, and names that film |
| ItemSimilarity.ItemBased | application.py:92-109 | corrected: the same KeyError condition as written |
| WorkedCases.TopOneOfFiveRatings | application.py:86-89 | on five ratings of two films, the top film has count 3 and mean 14/3 |
| WorkedCases.ItemBasedAsWrittenReturnsQuery | application.py:105 | as written, with two tied films the query film 10 is recommended for itself, whatever the similarity function |
| WorkedCases.ItemBasedReturnsOtherFilm | application.py:105 | corrected, the same request returns the other film |
| Personalized.UnratedBy | application.py:121 | a block of the anti-testset holds exactly the user's unrated films of the list, with the global mean as placeholder |
| Personalized.ForUser | application.py:122 | filtering keeps exactly the entries of the given user |
| Personalized.CandidatesExact | application.py:121-122 | the filtered anti-testset is the user's block, in order of first appearance, or empty for an unknown user |
| Personalized.AntiTestset | application.py:121 | `build_anti_testset` holds exactly the (user, film) pairs of the table without a rating, each with the global mean as placeholder |
| Personalized.CandidatesAreUnratedPairs | application.py:121-122 | candidates are exactly the films of the table the user has not rated, each once |
| Personalized.DropDuplicatesKeepsFirst | application.py:128 | `DropDuplicateMovies` (`drop_duplicates(subset=['movieId'])`) keeps rows of the input with unseen movieIds, carrying distinct movieIds, keeps every unseen movieId of the input, and the row kept for a film is that film's first row in the input |
| Personalized.DropDuplicatesAppend | application.py:128 | de-duplicating a concatenation de-duplicates the second part against the first part's movieIds |
| Personalized.LeftJoinRows | application.py:128 | the left join `LeftJoin` has a row for every prediction (at least as many rows as predictions), every row carries one of the predictions, and every description it attaches is a film row of the prediction's film |
| Personalized.JoinDeduplicated | application.py:128 | for predictions with distinct films, joining and then de-duplicating gives one row per prediction, in order, with the film's first description |
| Personalized.RecommendFromRanking | application.py:126-128 | for any admissible order, the output is the first min(n, candidates) predictions, one row each with a description, distinct films |
| Personalized.RecommendFromKeepsBest | application.py:126 | for any admissible order, estimates are non-increasing and no prediction left out is estimated higher than one kept |
| Personalized.UserBasedSelection | application.py:120-130 | the corrected table `UserBasedRecommendations` has min(n, candidates) rows, distinct films, non-increasing estimates, and no candidate left out is estimated above a film returned |
| Personalized.UserBasedRows | application.py:120-130 | each row of the corrected table is a prediction (`Predict`, `algo.test`) for the user of a film they have not rated, with its estimate, the global mean placeholder and the film's description |
| Personalized.UserBasedRecommender | application.py:120-130 | as written, the answer is `NlargestTypeError` exactly when the user has no candidate |
| Personalized.UserBasedAsWritten | application.py:120-130 | as written, the function answers exactly when the user has a candidate, and then with the corrected table, so the selection and row lemmas hold for its answers |
| Personalized.UserBasedEmptyIff | application.py:164-166 | corrected: the table is empty exactly when the user has no candidate or n = 0 |
| Personalized.FirstInfoConsistent | application.py:128 | in a table where movieId fixes title and TMDB id, the kept description is the one every row of the film carries |
| Personalized.UserBasedUnknownUser | application.py:121-126 | a user with no ratings makes `nlargest` fail as written, and gets an empty corrected table |
| Personalized.UserBasedNothingLeft | application.py:121-126 | a user who rated every film makes `nlargest` fail as written, and gets an empty corrected table |
| PosterGrid.RowsNeeded | application.py:75 | the row count is the least number of rows of four that hold all films, and 0 only for no films |
| PosterGrid.DisplayMoviePosters | application.py:72-83 | every film is placed exactly once, in table order, at row k / 4 and column k % 4, with its poster and title |
| PosterGrid.CellsDistinct | application.py:76-80 | distinct films land in distinct cells inside the grid |
| Search.Fold | application.py:147 | case folding keeps the length, leaves no upper-case ASCII letter and keeps every other character |
| Search.FoldTwice | application.py:147 | folding is idempotent |
| Search.ContainsIffOccurs | application.py:147 | the containment scan holds exactly when the query occurs, ignoring case, at some position of the title |
| Search.ContainsFoldInvariant | application.py:147 | changing the letter case of title or query does not change the match |
| Search.ContainsItself | application.py:147 | a title always matches itself |
| Search.FirstMatch | application.py:147-148 | the result is the first row whose title matches, or none when no title matches |
| Search.SearchMovieId | application.py:145-150 | an empty or unmatched query gives film 1; otherwise the movieId of the first matching row |

## Left out

- Loading the CSV files, the movies/links/ratings joins and the Streamlit page. These are I/O and user interface; the model starts from the merged rating table.
- The poster lookup `get_poster_url` calls a web service. It is the parameter `posterUrl` of `PosterGrid.DisplayMoviePosters`.
- Cosine similarity (square roots, the zero-norm case) is the parameter `sim`.
- SVD training and prediction (`setup_svd`, `algo.test`, clipping to the rating scale) are the parameter `est` of the user-based recommender. The `details` column of the predictions is not modelled.
- Ratings are exact reals, not floating point. Means and similarity ties are therefore exact.
- Personalized.UserBasedRecommender: ranks with the stable sort. When `nlargest` selects every candidate, pandas' unstable sort may order ties differently. `RecommendFromRanking` and `RecommendFromKeepsBest` state the properties for any order.
- ItemSimilarity.ItemBasedAsWritten: ranks with the stable sort. pandas' single-column `sort_values` fixes no tie order. The selection lemmas state the properties for any descending order.
- Search.SearchMovieId: treats the query as literal text with ASCII case folding. The source's `str.contains` reads it as a regular expression and folds Unicode case. A missing title (NaN) is not modelled.
- Popularity and item-based results carry each movieId once only under `Consistent(rows)`, where every row of a film has the same title and TMDB id. If two rows of a film differed, `drop_duplicates` would keep both.

## Findings

| source | as written | input that shows it | evidently intended | confidence | as-written member | corrected member |
|---|---|---|---|---|---|---|
| application.py:105 | `iloc[1:n+1]` drops the first ranked entry and assumes it is the query film itself | one user rating films 5 and 10 with 4.0; query film 10, n = 1: the columns tie, film 5 ranks first and is dropped, and film 10 is recommended for itself | leave out the query film by movieId and rank the other films | not executed | WorkedCases.ItemBasedAsWrittenReturnsQuery | ItemSimilarity.ItemBasedExcludesQuery |
| application.py:125-126 | an empty prediction list becomes a frame whose columns have the `object` dtype, and `nlargest(n, 'est')` raises TypeError on it | a user id with no rating, or a user who rated every film: the filtered anti-testset is empty | return an empty table, which the caller at line 165 tests for before showing it | not executed | Personalized.UserBasedUnknownUser | Personalized.UserBasedEmptyIff |

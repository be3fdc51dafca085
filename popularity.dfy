/** `top_n_movies`: the rating count and mean rating of every film, the
    de-duplicated (movieId, title, tmdbId) rows joined with them, sorted by
    (count, mean) descending with a stable sort, and the first n kept. */
module Popularity {
  import opened Ratings
  import opened Ranking

  /** One output row: the film's columns, `average_rating` and `rating_count`. */
  datatype MovieStat = MovieStat(info: MovieInfo, averageRating: real, ratingCount: nat)

  /** `sort_values(by=['rating_count', 'average_rating'], ascending=[False, False])`. */
  function StatKey(s: MovieStat): Key {
    Key(s.ratingCount as real, s.averageRating)
  }

  function StatMovieId(s: MovieStat): int {
    s.info.movieId
  }

  /** The aggregate row of one film: the count and the mean of its group. */
  function StatOf(rows: seq<Row>, info: MovieInfo): MovieStat
    requires info.movieId in MovieIds(rows)
  {
    MovieRatingsNonEmpty(rows, info.movieId);
    var g := MovieRatings(rows, info.movieId);
    MovieStat(info, Mean(g), |g|)
  }

  /** `rating_summary` merged onto the de-duplicated film rows, before sorting. */
  function Summaries(rows: seq<Row>): seq<MovieStat> {
    var d := Distinct(Infos(rows));
    InfosHaveRows(rows);
    seq(|d|, i requires 0 <= i < |d| => StatOf(rows, d[i]))
  }

  /** The whole table of film statistics in popularity order. */
  function RankedMovies(rows: seq<Row>): seq<MovieStat> {
    SortDesc(Summaries(rows), StatKey)
  }

  /** `top_n_movies(n, merged_movies_ratings_df)`: the first n rows of the
      table in popularity order, or all of them when there are fewer. */
  function TopNMovies(rows: seq<Row>, n: nat): (r: seq<MovieStat>)
    ensures |r| == if n < |Summaries(rows)| then n else |Summaries(rows)|
    ensures r <= RankedMovies(rows)
  {
    Take(RankedMovies(rows), n)
  }

  // ---------------------------------------------------------------------------
  // Properties
  // ---------------------------------------------------------------------------

  /** The output has min(n, number of distinct movieIds) rows. */
  lemma TopNLength(rows: seq<Row>, n: nat)
    requires Consistent(rows)
    ensures var films := |set m | m in MovieIds(rows)|;
            |TopNMovies(rows, n)| == if n < films then n else films
  {
    DistinctInfoIds(rows);
    var ids := InfoIds(Distinct(Infos(rows)));
    NoDuplicatesCard(ids);
    assert (set m | m in ids) == (set m | m in MovieIds(rows));
  }

  /** Each movieId appears at most once in the output. */
  lemma TopNUniqueMovies(rows: seq<Row>, n: nat)
    requires Consistent(rows)
    ensures forall i, j :: 0 <= i < j < |TopNMovies(rows, n)|
              ==> TopNMovies(rows, n)[i].info.movieId != TopNMovies(rows, n)[j].info.movieId
  {
    DistinctInfoIds(rows);
    var s := Summaries(rows);
    assert UniqueBy(s, StatMovieId) by {
      forall i, j | 0 <= i < j < |s| ensures StatMovieId(s[i]) != StatMovieId(s[j]) {
        assert StatMovieId(s[i]) == InfoIds(Distinct(Infos(rows)))[i];
        assert StatMovieId(s[j]) == InfoIds(Distinct(Infos(rows)))[j];
      }
    }
    SortDescUniqueBy(s, StatKey, StatMovieId);
    var r := RankedMovies(rows);
    forall i, j | 0 <= i < j < |TopNMovies(rows, n)|
      ensures TopNMovies(rows, n)[i].info.movieId != TopNMovies(rows, n)[j].info.movieId
    {
      assert StatMovieId(r[i]) != StatMovieId(r[j]);
    }
  }

  /** An output row is the statistic of a film of the table. */
  lemma RankedFromSummaries(rows: seq<Row>, t: MovieStat)
    requires t in RankedMovies(rows)
    ensures t in Summaries(rows)
  {
    assert t in multiset(RankedMovies(rows));
  }

  /** What a row of the statistics table holds, read off its definition. */
  lemma SummaryFacts(rows: seq<Row>, t: MovieStat)
    requires t in Summaries(rows)
    ensures t.info in Infos(rows) && t.info.movieId in MovieIds(rows)
    ensures |MovieRatings(rows, t.info.movieId)| > 0
    ensures t.ratingCount == |MovieRatings(rows, t.info.movieId)|
    ensures t.averageRating == Mean(MovieRatings(rows, t.info.movieId))
  {
    var d := Distinct(Infos(rows));
    var i :| 0 <= i < |d| && Summaries(rows)[i] == t;
    assert d[i] in Infos(rows);
    InfosHaveRows(rows);
    MovieRatingsNonEmpty(rows, t.info.movieId);
  }

  /** `rating_count` is the number of rows with that movieId, and
      `average_rating` is the mean of their ratings. */
  lemma TopNAggregates(rows: seq<Row>, n: nat)
    ensures forall t :: t in TopNMovies(rows, n) ==>
              && t.info in Infos(rows)
              && t.ratingCount == multiset(MovieIds(rows))[t.info.movieId] > 0
              && |MovieRatings(rows, t.info.movieId)| > 0 && t.averageRating == Mean(MovieRatings(rows, t.info.movieId))
  {
    forall t | t in TopNMovies(rows, n)
      ensures t.info in Infos(rows)
      ensures t.ratingCount == multiset(MovieIds(rows))[t.info.movieId] > 0
      ensures |MovieRatings(rows, t.info.movieId)| > 0 && t.averageRating == Mean(MovieRatings(rows, t.info.movieId))
    {
      RankedFromSummaries(rows, t);
      StatAggregates(rows, t);
    }
  }

  /** The same aggregates without division: a film's mean times its count is
      the sum of its ratings. */
  lemma TopNTotals(rows: seq<Row>, n: nat)
    ensures forall t :: t in TopNMovies(rows, n) ==>
              t.averageRating * (t.ratingCount as real) == Sum(MovieRatings(rows, t.info.movieId))
  {
    forall t | t in TopNMovies(rows, n)
      ensures t.averageRating * (t.ratingCount as real) == Sum(MovieRatings(rows, t.info.movieId))
    {
      RankedFromSummaries(rows, t);
      StatTotal(rows, t);
    }
  }

  lemma StatTotal(rows: seq<Row>, t: MovieStat)
    requires t in Summaries(rows)
    ensures t.averageRating * (t.ratingCount as real) == Sum(MovieRatings(rows, t.info.movieId))
  {
    SummaryFacts(rows, t);
    StatTotalOf(t, MovieRatings(rows, t.info.movieId));
  }

  lemma StatTotalOf(t: MovieStat, xs: seq<real>)
    requires |xs| > 0 && t.ratingCount == |xs| && t.averageRating == Mean(xs)
    ensures t.averageRating * (t.ratingCount as real) == Sum(xs)
  {
    MeanTimesCount(xs);
  }

  lemma StatAggregates(rows: seq<Row>, t: MovieStat)
    requires t in Summaries(rows)
    ensures t.info in Infos(rows)
    ensures t.ratingCount == multiset(MovieIds(rows))[t.info.movieId] > 0
    ensures |MovieRatings(rows, t.info.movieId)| > 0 && t.averageRating == Mean(MovieRatings(rows, t.info.movieId))
  {
    SummaryFacts(rows, t);
    MovieRatingsCount(rows, t.info.movieId);
  }

  /** When every rating lies on the scale [lo, hi], so does every `average_rating`. */
  lemma TopNAverageOnScale(rows: seq<Row>, n: nat, lo: real, hi: real)
    requires forall i :: 0 <= i < |rows| ==> lo <= rows[i].rating <= hi
    ensures forall t :: t in TopNMovies(rows, n) ==> lo <= t.averageRating <= hi
  {
    forall t | t in TopNMovies(rows, n) ensures lo <= t.averageRating <= hi {
      RankedFromSummaries(rows, t);
      SummaryFacts(rows, t);
      MovieRatingsWithin(rows, t.info.movieId, lo, hi);
      MeanWithin(MovieRatings(rows, t.info.movieId), lo, hi);
    }
  }

  /** Rows are ordered by `rating_count` descending, ties by `average_rating` descending. */
  lemma TopNOrdered(rows: seq<Row>, n: nat)
    ensures forall i, j :: 0 <= i < j < |TopNMovies(rows, n)| ==>
              var a, b := TopNMovies(rows, n)[i], TopNMovies(rows, n)[j];
              a.ratingCount > b.ratingCount
              || (a.ratingCount == b.ratingCount && a.averageRating >= b.averageRating)
  {
    var r := RankedMovies(rows);
    forall i, j | 0 <= i < j < |TopNMovies(rows, n)|
      ensures r[i].ratingCount > r[j].ratingCount
              || (r[i].ratingCount == r[j].ratingCount && r[i].averageRating >= r[j].averageRating)
    {
      assert AtLeast(StatKey(r[i]), StatKey(r[j]));
    }
  }

  /** `top_n(n)` is a prefix of `top_n(n + 1)`. */
  lemma TopNPrefix(rows: seq<Row>, n: nat)
    ensures TopNMovies(rows, n) <= TopNMovies(rows, n + 1)
  {
  }

  /** A film left out of the output is no more popular than any film shown. */
  lemma TopNKeepsMostPopular(rows: seq<Row>, n: nat)
    ensures forall t, s :: t in TopNMovies(rows, n) && s in Summaries(rows) && s !in TopNMovies(rows, n)
              ==> t.ratingCount > s.ratingCount
                  || (t.ratingCount == s.ratingCount && t.averageRating >= s.averageRating)
  {
    var r := RankedMovies(rows);
    var top := TopNMovies(rows, n);
    forall t, s | t in top && s in Summaries(rows) && s !in top
      ensures t.ratingCount > s.ratingCount
              || (t.ratingCount == s.ratingCount && t.averageRating >= s.averageRating)
    {
      assert s in multiset(Summaries(rows));
      assert s in r;
      var k :| 0 <= k < |r| && r[k] == s;
      var i :| 0 <= i < |top| && top[i] == t;
      assert AtLeast(StatKey(r[i]), StatKey(r[k]));
    }
  }

  /** Films tied on both count and mean keep the order in which they first
      appear in the table (the multi-column sort is stable). */
  lemma RankedTiesKeepTableOrder(rows: seq<Row>, k: Key)
    ensures WithKey(RankedMovies(rows), StatKey, k) == WithKey(Summaries(rows), StatKey, k)
  {
    SortDescStable(Summaries(rows), StatKey, k);
  }
}

/** Small concrete tables worked through the model: a five-rating table
    through the popularity ranking, and a two-film table on
    which the item-based selection as written recommends the query film back. */
module WorkedCases {
  import opened Ratings
  import opened Ranking
  import opened Popularity
  import opened ItemSimilarity

  function Ten(): MovieInfo { MovieInfo(10, "Ten", None) }
  function Twenty(): MovieInfo { MovieInfo(20, "Twenty", None) }

  /** Three users; film 10 rated 5, 4, 5 and film 20 rated 1, 2. */
  function FiveRatings(): seq<Row> {
    [Row(1, 10, "Ten", None, 5.0), Row(1, 20, "Twenty", None, 1.0),
     Row(2, 10, "Ten", None, 4.0), Row(2, 20, "Twenty", None, 2.0),
     Row(3, 10, "Ten", None, 5.0)]
  }

  lemma FiveRatingsDistinct()
    ensures Distinct(Infos(FiveRatings())) == [Ten(), Twenty()]
  {
    var s := Infos(FiveRatings());
    assert s == [Ten(), Twenty(), Ten(), Twenty(), Ten()];
    assert s[1..][1..][1..][1..][1..] == [];
    assert {Ten()} + {Twenty()} == {Ten(), Twenty()};
    assert DistinctFrom(s[1..][1..][1..][1..], {Ten(), Twenty()}) == [];
    assert DistinctFrom(s[1..][1..][1..], {Ten(), Twenty()}) == [];
    assert DistinctFrom(s[1..][1..], {Ten(), Twenty()}) == [];
    assert DistinctFrom(s[1..], {Ten()}) == [Twenty()];
    assert {} + {Ten()} == {Ten()};
  }

  lemma FiveRatingsGroups()
    ensures MovieRatings(FiveRatings(), 10) == [5.0, 4.0, 5.0]
    ensures MovieRatings(FiveRatings(), 20) == [1.0, 2.0]
  {
    var r := FiveRatings();
    assert r[1..][1..][1..][1..][1..] == [];
  }

  /** Any table with these film rows and rating groups has these statistics. */
  lemma SummariesOfGroups(r: seq<Row>)
    requires Distinct(Infos(r)) == [Ten(), Twenty()]
    requires MovieRatings(r, 10) == [5.0, 4.0, 5.0] && MovieRatings(r, 20) == [1.0, 2.0]
    ensures Summaries(r) == [MovieStat(Ten(), 14.0 / 3.0, 3), MovieStat(Twenty(), 1.5, 2)]
  {
    assert Sum([5.0, 4.0, 5.0]) == 14.0;
    assert Sum([1.0, 2.0]) == 3.0;
    assert Summaries(r)[0] == MovieStat(Ten(), 14.0 / 3.0, 3);
    assert Summaries(r)[1] == MovieStat(Twenty(), 1.5, 2);
  }

  lemma FiveRatingsSummaries()
    ensures Summaries(FiveRatings()) == [MovieStat(Ten(), 14.0 / 3.0, 3), MovieStat(Twenty(), 1.5, 2)]
  {
    FiveRatingsDistinct();
    FiveRatingsGroups();
    SummariesOfGroups(FiveRatings());
  }

  /** `top_n_movies(1, ...)` on the five ratings: film 10, three ratings, mean 14/3. */
  lemma TopOneOfFiveRatings()
    ensures TopNMovies(FiveRatings(), 1) == [MovieStat(Ten(), 14.0 / 3.0, 3)]
  {
    FiveRatingsSummaries();
    var s := Summaries(FiveRatings());
    assert SortDesc(s[1..], StatKey) == [s[1]];
  }

  // ---------------------------------------------------------------------------
  // The query film returned by the item-based selection as written
  // ---------------------------------------------------------------------------

  function Five(): MovieInfo { MovieInfo(5, "Five", None) }

  /** One user who gave films 5 and 10 the same rating: their columns are equal. */
  function TiedRatings(): seq<Row> {
    [Row(1, 5, "Five", None, 4.0), Row(1, 10, "Ten", None, 4.0)]
  }

  lemma TiedKeys()
    ensures SortedKeys(UserIds(TiedRatings())) == [1]
    ensures SortedKeys(MovieIds(TiedRatings())) == [5, 10]
  {
    var r := TiedRatings();
    assert UserIds(r) == [1, 1];
    assert MovieIds(r) == [5, 10];
    assert UserIds(r)[1..][1..] == [] && MovieIds(r)[1..][1..] == [];
    assert SortedKeys(UserIds(r)[1..]) == [1];
    assert SortedKeys(MovieIds(r)[1..]) == [10];
  }

  lemma TiedCells()
    ensures CellValue(TiedRatings(), 1, 5) == 4.0 && CellValue(TiedRatings(), 1, 10) == 4.0
  {
    var r := TiedRatings();
    assert r[1..][1..] == [];
    assert PairRatings(r, 1, 5) == [4.0];
    assert PairRatings(r, 1, 10) == [4.0];
    assert Sum([4.0]) == 4.0;
  }

  /** Any table with the tie example's keys and cell values pivots to one
      user row holding 4.0 for films 5 and 10. */
  lemma TiedShapePivot(r: seq<Row>)
    requires SortedKeys(UserIds(r)) == [1] && SortedKeys(MovieIds(r)) == [5, 10]
    requires CellValue(r, 1, 5) == 4.0 && CellValue(r, 1, 10) == 4.0
    ensures PivotTable(r) == UserMovieMatrix([1], [5, 10], [[4.0, 4.0]])
  {
    var mx := PivotTable(r);
    assert mx.users == [1] && mx.movies == [5, 10];
    assert |mx.cells| == 1 && |mx.cells[0]| == 2;
    assert mx.cells[0][0] == CellValue(r, 1, 5);
    assert mx.cells[0][1] == CellValue(r, 1, 10);
    assert mx.cells[0] == [4.0, 4.0];
  }

  /** The tie example's table: one user row holding 4.0 for both films. */
  lemma TiedPivot()
    ensures PivotTable(TiedRatings()) == UserMovieMatrix([1], [5, 10], [[4.0, 4.0]])
  {
    TiedKeys();
    TiedCells();
    TiedShapePivot(TiedRatings());
  }

  /** The query column of any matrix with the tie example's shape and cells. */
  lemma TiedQueryColumn(mx: UserMovieMatrix, sim: (seq<real>, seq<real>) -> real)
    requires Shaped(mx) && mx.users == [1] && mx.movies == [5, 10]
    requires mx.cells[0][0] == 4.0 && mx.cells[0][1] == 4.0
    ensures IndexOf(mx.movies, 10) == 1
    ensures QueryColumn(mx, 1, sim) == [Scored(5, sim([4.0], [4.0])), Scored(10, sim([4.0], [4.0]))]
  {
    assert mx.movies[0] != 10;
    assert Column(mx, 0) == [4.0];
    assert Column(mx, 1) == [4.0];
  }

  lemma TiedColumn(sim: (seq<real>, seq<real>) -> real)
    ensures 10 in MovieIds(TiedRatings())
    ensures ScoresFor(TiedRatings(), 10, sim)
            == [Scored(5, sim([4.0], [4.0])), Scored(10, sim([4.0], [4.0]))]
  {
    assert MovieIds(TiedRatings()) == [5, 10];
    TiedPivot();
    TiedQueryColumn(UserMovieMatrix([1], [5, 10], [[4.0, 4.0]]), sim);
  }

  lemma TiedDistinct()
    ensures Distinct(Infos(TiedRatings())) == [Five(), Ten()]
  {
    var s := Infos(TiedRatings());
    assert s == [Five(), Ten()];
    assert {} + {Five()} == {Five()};
    assert DistinctFrom(s[1..], {Five()}) == [Ten()];
  }

  /** Two entries with equal scores keep their order under the stable sort. */
  lemma SortTwoTied(a: Scored, b: Scored)
    requires a.score == b.score
    ensures SortDesc([a, b], ScoreKey) == [a, b]
  {
    assert [a, b][1..] == [b] && [b][1..] == [];
    assert SortDesc([b], ScoreKey) == [b];
  }

  lemma TiedRanked(sim: (seq<real>, seq<real>) -> real)
    ensures 10 in MovieIds(TiedRatings())
    ensures SortDesc(ScoresFor(TiedRatings(), 10, sim), ScoreKey)
            == [Scored(5, sim([4.0], [4.0])), Scored(10, sim([4.0], [4.0]))]
  {
    TiedColumn(sim);
    SortTwoTied(Scored(5, sim([4.0], [4.0])), Scored(10, sim([4.0], [4.0])));
  }

  lemma AttachTen(s: real)
    ensures AttachInfos([Scored(10, s)], [Five(), Ten()]) == [SimilarMovie(s, Ten())]
  {
    var infos := [Five(), Ten()];
    assert infos[1..] == [Ten()] && infos[1..][1..] == [];
    assert MatchingInfos(infos[1..][1..], 10) == [];
    assert MatchingInfos(infos[1..], 10) == [Ten()];
    assert MatchingInfos(infos, 10) == [Ten()];
    assert WithScore(s, [Ten()]) == [SimilarMovie(s, Ten())];
    assert [Scored(10, s)][1..] == [];
    assert AttachInfos([Scored(10, s)][1..], infos) == [];
  }

  /** As written, asking for one film similar to film 10 returns film 10 itself:
      the two films tie, the stable order puts film 5 first, and `iloc[1:2]`
      drops film 5 instead of the query film. Whatever the similarity function. */
  lemma ItemBasedAsWrittenReturnsQuery(sim: (seq<real>, seq<real>) -> real)
    ensures ItemBasedAsWritten(TiedRatings(), 10, 1, sim)
            == Recommended([SimilarMovie(sim([4.0], [4.0]), Ten())])
  {
    TiedRanked(sim);
    TiedDistinct();
    var s := sim([4.0], [4.0]);
    assert SkipFirstTakeN([Scored(5, s), Scored(10, s)], 1) == [Scored(10, s)];
    AttachTen(s);
  }

  lemma TiedOthers(sim: (seq<real>, seq<real>) -> real)
    ensures 10 in MovieIds(TiedRatings())
    ensures RankedOthers(TiedRatings(), 10, sim) == [Scored(5, sim([4.0], [4.0]))]
  {
    TiedColumn(sim);
    var col := ScoresFor(TiedRatings(), 10, sim);
    assert col[1..][1..] == [];
    assert OtherMovies(col[1..][1..], 10) == [];
    assert OtherMovies(col[1..], 10) == [];
    assert OtherMovies(col, 10) == [col[0]];
  }

  lemma AttachFive(s: real)
    ensures AttachInfos([Scored(5, s)], [Five(), Ten()]) == [SimilarMovie(s, Five())]
  {
    var infos := [Five(), Ten()];
    assert infos[1..] == [Ten()] && infos[1..][1..] == [];
    assert MatchingInfos(infos[1..][1..], 5) == [];
    assert MatchingInfos(infos[1..], 5) == [];
    assert MatchingInfos(infos, 5) == [Five()];
    assert WithScore(s, [Five()]) == [SimilarMovie(s, Five())];
    assert [Scored(5, s)][1..] == [];
    assert AttachInfos([Scored(5, s)][1..], infos) == [];
  }

  /** The corrected selection answers the same request with film 5. */
  lemma ItemBasedReturnsOtherFilm(sim: (seq<real>, seq<real>) -> real)
    ensures ItemBased(TiedRatings(), 10, 1, sim)
            == Recommended([SimilarMovie(sim([4.0], [4.0]), Five())])
  {
    TiedOthers(sim);
    TiedDistinct();
    AttachFive(sim([4.0], [4.0]));
  }
}

/** `item_based_recommendations`: a user x film pivot table of mean ratings
    with 0 for missing cells, a similarity score between the query film's
    column and every film's column, the query column sorted in descending
    order, entries 1..n kept and joined with the film descriptions.

    The similarity function (cosine similarity from a numerical library) is a
    parameter `sim`; only its numerator, the dot product, is defined here. */
module ItemSimilarity {
  import opened Ratings
  import opened Ranking

  // ---------------------------------------------------------------------------
  // The pivot table
  // ---------------------------------------------------------------------------

  predicate StrictlyIncreasing(s: seq<int>) {
    forall i, j :: 0 <= i < j < |s| ==> s[i] < s[j]
  }

  function InsertSorted(x: int, s: seq<int>): (r: seq<int>)
    requires StrictlyIncreasing(s)
    ensures StrictlyIncreasing(r)
    ensures forall y :: y in r ==> y == x || y in s
    ensures x in r && forall y :: y in s ==> y in r
  {
    if s == [] then [x]
    else if x < s[0] then [x] + s
    else if x == s[0] then s
    else
      var rest := InsertSorted(x, s[1..]);
      forall y | y in rest ensures s[0] < y {
        if y != x {
          var k :| 0 <= k < |s[1..]| && s[1..][k] == y;
          assert s[k + 1] == y;
        }
      }
      PrependIncreasing(s[0], rest);
      [s[0]] + rest
  }

  lemma PrependIncreasing(a: int, r: seq<int>)
    requires StrictlyIncreasing(r)
    requires forall y :: y in r ==> a < y
    ensures StrictlyIncreasing([a] + r)
  {
    forall i, j | 0 <= i < j < |[a] + r| ensures ([a] + r)[i] < ([a] + r)[j] {
      assert ([a] + r)[j] == r[j - 1] && r[j - 1] in r;
      if i > 0 {
        assert ([a] + r)[i] == r[i - 1];
      }
    }
  }

  /** The sorted distinct values of `xs`: a pivot table's index or columns. */
  function SortedKeys(xs: seq<int>): (r: seq<int>)
    ensures StrictlyIncreasing(r)
    ensures forall y :: y in r ==> y in xs
    ensures forall y :: y in xs ==> y in r
  {
    if xs == [] then [] else InsertSorted(xs[0], SortedKeys(xs[1..]))
  }

  /** Row labels (userIds), column labels (movieIds) and the cells, row by row. */
  datatype UserMovieMatrix = UserMovieMatrix(users: seq<int>, movies: seq<int>, cells: seq<seq<real>>)

  predicate Shaped(mx: UserMovieMatrix) {
    |mx.cells| == |mx.users| && forall i :: 0 <= i < |mx.cells| ==> |mx.cells[i]| == |mx.movies|
  }

  /** One cell: the mean of the pair's ratings (`aggfunc='mean'`), or the
      fill value 0 when the user never rated the film. */
  function CellValue(rows: seq<Row>, u: int, m: int): real {
    var g := PairRatings(rows, u, m);
    if g == [] then 0.0 else Mean(g)
  }

  /** `pd.pivot_table(values='rating', index='userId', columns='movieId', fill_value=0)`. */
  function PivotTable(rows: seq<Row>): (mx: UserMovieMatrix)
    ensures Shaped(mx)
    ensures StrictlyIncreasing(mx.users) && StrictlyIncreasing(mx.movies)
    ensures forall u :: u in mx.users <==> u in UserIds(rows)
    ensures forall m :: m in mx.movies <==> m in MovieIds(rows)
  {
    var us := SortedKeys(UserIds(rows));
    var ms := SortedKeys(MovieIds(rows));
    UserMovieMatrix(us, ms,
      seq(|us|, i requires 0 <= i < |us| =>
        seq(|ms|, j requires 0 <= j < |ms| => CellValue(rows, us[i], ms[j]))))
  }

  /** Cell (i, j) of the table is the cell value of user i and film j. */
  lemma PivotCellIs(rows: seq<Row>, i: nat, j: nat)
    requires i < |PivotTable(rows).users| && j < |PivotTable(rows).movies|
    ensures PivotTable(rows).cells[i][j]
            == CellValue(rows, PivotTable(rows).users[i], PivotTable(rows).movies[j])
  {
  }

  /** A cell is 0 when its user never rated its film; otherwise it is the
      mean of that pair's ratings (duplicate rows are averaged). */
  lemma PivotCell(rows: seq<Row>, i: nat, j: nat)
    requires i < |PivotTable(rows).users| && j < |PivotTable(rows).movies|
    ensures var mx := PivotTable(rows);
            var u, m := mx.users[i], mx.movies[j];
            && ((forall k :: 0 <= k < |rows| ==> !(rows[k].userId == u && rows[k].movieId == m))
                ==> mx.cells[i][j] == 0.0)
            && ((exists k :: 0 <= k < |rows| && rows[k].userId == u && rows[k].movieId == m)
                ==> |PairRatings(rows, u, m)| > 0 && mx.cells[i][j] == Mean(PairRatings(rows, u, m)))
  {
    var mx := PivotTable(rows);
    PivotCellIs(rows, i, j);
    PairRatingsEmpty(rows, mx.users[i], mx.movies[j]);
  }

  /** With every rating on a scale [lo, hi] with lo > 0, a cell is 0 exactly
      when its user never rated its film, and a rated cell lies on the scale. */
  lemma PivotZeroMeansUnrated(rows: seq<Row>, i: nat, j: nat, lo: real, hi: real)
    requires 0.0 < lo
    requires forall k :: 0 <= k < |rows| ==> lo <= rows[k].rating <= hi
    requires i < |PivotTable(rows).users| && j < |PivotTable(rows).movies|
    ensures var mx := PivotTable(rows);
            var u, m := mx.users[i], mx.movies[j];
            && (mx.cells[i][j] == 0.0
                <==> forall k :: 0 <= k < |rows| ==> !(rows[k].userId == u && rows[k].movieId == m))
            && (mx.cells[i][j] != 0.0 ==> lo <= mx.cells[i][j] <= hi)
  {
    PivotCellIs(rows, i, j);
    CellValueOnScale(rows, PivotTable(rows).users[i], PivotTable(rows).movies[j], lo, hi);
  }

  lemma CellValueOnScale(rows: seq<Row>, u: int, m: int, lo: real, hi: real)
    requires 0.0 < lo
    requires forall k :: 0 <= k < |rows| ==> lo <= rows[k].rating <= hi
    ensures CellValue(rows, u, m) == 0.0
            <==> forall k :: 0 <= k < |rows| ==> !(rows[k].userId == u && rows[k].movieId == m)
    ensures CellValue(rows, u, m) != 0.0 ==> lo <= CellValue(rows, u, m) <= hi
  {
    PairRatingsEmpty(rows, u, m);
    var g := PairRatings(rows, u, m);
    if g != [] {
      PairRatingsWithin(rows, u, m, lo, hi);
      MeanWithin(g, lo, hi);
    }
  }

  /** When all of a pair's duplicate rows carry the same rating x, the cell is x. */
  lemma PivotDuplicatesAgree(rows: seq<Row>, i: nat, j: nat, x: real)
    requires i < |PivotTable(rows).users| && j < |PivotTable(rows).movies|
    requires var u, m := PivotTable(rows).users[i], PivotTable(rows).movies[j];
             && (exists k :: 0 <= k < |rows| && rows[k].userId == u && rows[k].movieId == m)
             && (forall k :: 0 <= k < |rows| && rows[k].userId == u && rows[k].movieId == m
                   ==> rows[k].rating == x)
    ensures PivotTable(rows).cells[i][j] == x
  {
    var mx := PivotTable(rows);
    var u, m := mx.users[i], mx.movies[j];
    PivotCellIs(rows, i, j);
    PairRatingsEmpty(rows, u, m);
    PairRatingsWithin(rows, u, m, x, x);
    MeanOfConstant(PairRatings(rows, u, m), x);
  }

  // ---------------------------------------------------------------------------
  // Similarity scores
  // ---------------------------------------------------------------------------

  /** The column of film number `j`: every user's cell for that film. */
  function Column(mx: UserMovieMatrix, j: nat): seq<real>
    requires Shaped(mx) && j < |mx.movies|
  {
    seq(|mx.users|, i requires 0 <= i < |mx.users| => mx.cells[i][j])
  }

  /** A film's score against the query film. */
  datatype Scored = Scored(movieId: int, score: real)

  /** `sort_values(by=given_movieId, ascending=False)`. */
  function ScoreKey(s: Scored): Key {
    Key(s.score, 0.0)
  }

  function ScoredId(s: Scored): int {
    s.movieId
  }

  function IndexOf(s: seq<int>, x: int): (k: nat)
    requires x in s
    ensures k < |s| && s[k] == x
  {
    if s[0] == x then 0 else 1 + IndexOf(s[1..], x)
  }

  /** `movies_cosines_matrix[[given_movieId]]`: every film paired with the
      similarity between its column and the query film's column `q`. */
  function QueryColumn(mx: UserMovieMatrix, q: nat, sim: (seq<real>, seq<real>) -> real): (col: seq<Scored>)
    requires Shaped(mx) && q < |mx.movies|
    ensures |col| == |mx.movies|
    ensures forall j :: 0 <= j < |col| ==> col[j].movieId == mx.movies[j]
  {
    seq(|mx.movies|, j requires 0 <= j < |mx.movies| =>
      Scored(mx.movies[j], sim(Column(mx, j), Column(mx, q))))
  }

  // ---------------------------------------------------------------------------
  // Selection and the final join
  // ---------------------------------------------------------------------------

  /** `iloc[1:n+1]`: drop the first entry, keep the next n. */
  function SkipFirstTakeN<T>(ranked: seq<T>, n: nat): seq<T> {
    if |ranked| <= 1 then [] else Take(ranked[1..], n)
  }

  /** One output row: the similarity score and the film's columns. */
  datatype SimilarMovie = SimilarMovie(score: real, info: MovieInfo)

  /** The function either answers or fails with pandas' KeyError, modelled as a value. */
  datatype Outcome = Recommended(movies: seq<SimilarMovie>) | UnknownMovie(movieId: int)

  /** Inner merge of the selected scores with the film descriptions on movieId. */
  function AttachInfos(picked: seq<Scored>, infos: seq<MovieInfo>): seq<SimilarMovie> {
    if picked == [] then []
    else
      WithScore(picked[0].score, MatchingInfos(infos, picked[0].movieId)) + AttachInfos(picked[1..], infos)
  }

  function WithScore(score: real, matches: seq<MovieInfo>): seq<SimilarMovie> {
    seq(|matches|, k requires 0 <= k < |matches| => SimilarMovie(score, matches[k]))
  }

  /** Against descriptions carrying each movieId once, and with every picked
      film present, the merge pairs each picked score with its film's single
      description, in order. */
  lemma {:induction false} AttachInfosOneToOne(picked: seq<Scored>, infos: seq<MovieInfo>)
    requires NoDuplicates(InfoIds(infos))
    requires forall p :: p in picked ==> p.movieId in InfoIds(infos)
    ensures |AttachInfos(picked, infos)| == |picked|
    ensures forall k :: 0 <= k < |picked| ==>
              && AttachInfos(picked, infos)[k].score == picked[k].score
              && AttachInfos(picked, infos)[k].info.movieId == picked[k].movieId
              && AttachInfos(picked, infos)[k].info in infos
  {
    if picked != [] {
      var p := picked[0];
      assert p in picked;
      MatchingInfosSingle(infos, p.movieId);
      var matches := MatchingInfos(infos, p.movieId);
      assert matches == [matches[0]];
      assert matches[0] in matches;
      var head := WithScore(p.score, matches);
      assert head == [SimilarMovie(p.score, matches[0])];
      var rest := AttachInfos(picked[1..], infos);
      assert forall x :: x in picked[1..] ==> x in picked;
      AttachInfosOneToOne(picked[1..], infos);
      var out := AttachInfos(picked, infos);
      assert out == head + rest;
      forall k | 0 <= k < |picked|
        ensures out[k].score == picked[k].score && out[k].info.movieId == picked[k].movieId && out[k].info in infos
      {
        if k > 0 {
          assert out[k] == rest[k - 1] && picked[k] == picked[1..][k - 1];
        }
      }
    }
  }

  /** The query film's similarity column, films in pivot-table order. */
  function ScoresFor(rows: seq<Row>, q: int, sim: (seq<real>, seq<real>) -> real): seq<Scored>
    requires q in MovieIds(rows)
  {
    var mx := PivotTable(rows);
    QueryColumn(mx, IndexOf(mx.movies, q), sim)
  }

  /** The source's selection, as written: the whole query column ranked, its
      first entry dropped, the next n kept. */
  function ItemBasedAsWritten(rows: seq<Row>, q: int, n: nat, sim: (seq<real>, seq<real>) -> real): (r: Outcome)
    ensures r.UnknownMovie? <==> q !in MovieIds(rows)
    ensures r.UnknownMovie? ==> r.movieId == q
  {
    if q !in MovieIds(rows) then UnknownMovie(q)
    else
      var ranked := SortDesc(ScoresFor(rows, q, sim), ScoreKey);
      Recommended(AttachInfos(SkipFirstTakeN(ranked, n), Distinct(Infos(rows))))
  }

  /** The query column without the query film itself. */
  function OtherMovies(col: seq<Scored>, q: int): (r: seq<Scored>)
    ensures forall p :: p in r ==> p in col && p.movieId != q
    ensures forall p :: p in col && p.movieId != q ==> p in r
  {
    if col == [] then []
    else (if col[0].movieId != q then [col[0]] else []) + OtherMovies(col[1..], q)
  }

  /** The other films of the query column, most similar first. */
  function RankedOthers(rows: seq<Row>, q: int, sim: (seq<real>, seq<real>) -> real): seq<Scored>
    requires q in MovieIds(rows)
  {
    SortDesc(OtherMovies(ScoresFor(rows, q, sim), q), ScoreKey)
  }

  /** The corrected selection: the query film removed by movieId, the other
      films ranked, the first n kept. */
  function ItemBased(rows: seq<Row>, q: int, n: nat, sim: (seq<real>, seq<real>) -> real): (r: Outcome)
    ensures r.UnknownMovie? <==> q !in MovieIds(rows)
    ensures r.UnknownMovie? ==> r.movieId == q
  {
    if q !in MovieIds(rows) then UnknownMovie(q)
    else Recommended(AttachInfos(Take(RankedOthers(rows, q, sim), n), Distinct(Infos(rows))))
  }

  // ---------------------------------------------------------------------------
  // Properties of the selection as written
  // ---------------------------------------------------------------------------

  /** `ranked` is an admissible result of sorting `col` by score, descending.
      pandas' default single-column sort fixes no order among equal scores, so
      the lemmas below hold for every such arrangement. */
  predicate IsRankingOf(ranked: seq<Scored>, col: seq<Scored>) {
    multiset(ranked) == multiset(col) && Descending(ranked, ScoreKey)
  }

  /** `iloc[1:n+1]` of any ranking: at most n entries, exactly positions 1..n,
      scores non-increasing, none above the dropped first entry. */
  lemma SkipFirstSelection(ranked: seq<Scored>, col: seq<Scored>, n: nat)
    requires IsRankingOf(ranked, col)
    ensures var picked := SkipFirstTakeN(ranked, n);
            && |picked| == (if |col| <= 1 then 0 else if n < |col| - 1 then n else |col| - 1)
            && (forall k :: 0 <= k < |picked| ==> picked[k] == ranked[k + 1])
            && (forall i, j :: 0 <= i < j < |picked| ==> picked[i].score >= picked[j].score)
            && (forall k :: 0 <= k < |picked| ==> picked[k].score <= ranked[0].score)
            && (forall p :: p in picked ==> p in col)
  {
    assert |ranked| == |multiset(ranked)| == |col|;
    var picked := SkipFirstTakeN(ranked, n);
    forall p | p in picked ensures p in col {
      assert p in ranked;
      assert p in multiset(col);
    }
    forall i, j | 0 <= i < j < |picked| ensures picked[i].score >= picked[j].score {
      assert AtLeast(ScoreKey(ranked[i + 1]), ScoreKey(ranked[j + 1]));
    }
    forall k | 0 <= k < |picked| ensures picked[k].score <= ranked[0].score {
      assert AtLeast(ScoreKey(ranked[0]), ScoreKey(ranked[k + 1]));
    }
  }

  /** When the query film's entry scores strictly above every other film's,
      every ranking puts it first and skipping position 0 excludes it. */
  lemma SkipFirstExcludesStrictTop(ranked: seq<Scored>, col: seq<Scored>, n: nat, q: int)
    requires IsRankingOf(ranked, col)
    requires UniqueBy(col, ScoredId)
    requires forall a, b :: a in col && b in col && a.movieId == q && b.movieId != q ==> a.score > b.score
    ensures forall p :: p in SkipFirstTakeN(ranked, n) ==> p.movieId != q
  {
    PermutationUniqueBy(col, ranked, ScoredId);
    var picked := SkipFirstTakeN(ranked, n);
    forall k | 1 <= k < |ranked| ensures ranked[k].movieId != q {
      assert AtLeast(ScoreKey(ranked[0]), ScoreKey(ranked[k]));
      assert ranked[0] in multiset(col) && ranked[k] in multiset(col);
      assert ScoredId(ranked[0]) != ScoredId(ranked[k]);
    }
  }

  lemma StrictlyIncreasingUnique(s: seq<int>)
    requires StrictlyIncreasing(s)
    ensures NoDuplicates(s)
  {
  }

  /** The query column lists every film of the table exactly once. */
  lemma ScoresForShape(rows: seq<Row>, q: int, sim: (seq<real>, seq<real>) -> real)
    requires q in MovieIds(rows)
    ensures var col := ScoresFor(rows, q, sim);
            && UniqueBy(col, ScoredId)
            && |set m | m in MovieIds(rows)| == |col|
            && (forall p :: p in col ==> p.movieId in MovieIds(rows))
  {
    var mx := PivotTable(rows);
    var col := ScoresFor(rows, q, sim);
    assert col == QueryColumn(mx, IndexOf(mx.movies, q), sim);
    forall i, j | 0 <= i < j < |col| ensures ScoredId(col[i]) != ScoredId(col[j]) {
      assert col[i].movieId == mx.movies[i] && col[j].movieId == mx.movies[j];
    }
    StrictlyIncreasingUnique(mx.movies);
    NoDuplicatesCard(mx.movies);
    assert (set m | m in mx.movies) == (set m | m in MovieIds(rows));
  }

  /** Entry j of the query column is film j of the pivot table with the
      similarity of its column to the query film's column. */
  lemma ScoresForEntries(rows: seq<Row>, q: int, sim: (seq<real>, seq<real>) -> real)
    requires q in MovieIds(rows)
    ensures var mx := PivotTable(rows);
            var col := ScoresFor(rows, q, sim);
            && |col| == |mx.movies|
            && forall j :: 0 <= j < |col| ==>
                 col[j] == Scored(mx.movies[j], sim(Column(mx, j), Column(mx, IndexOf(mx.movies, q))))
  {
  }

  /** For a consistent table and a known film, the source's output is exactly
      positions 1..n of the ranked query column with each film's description:
      min(n, films - 1) rows, and the dropped first entry is the column's
      maximum. */
  lemma ItemBasedAsWrittenSelection(rows: seq<Row>, q: int, n: nat, sim: (seq<real>, seq<real>) -> real)
    requires Consistent(rows)
    requires q in MovieIds(rows)
    ensures var out := ItemBasedAsWritten(rows, q, n, sim);
            var ranked := SortDesc(ScoresFor(rows, q, sim), ScoreKey);
            var films := |set m | m in MovieIds(rows)|;
            && out.Recommended?
            && 0 < films == |ranked|
            && |out.movies| == (if n < films - 1 then n else films - 1)
            && (forall k :: 0 <= k < |out.movies| ==>
                  out.movies[k].score == ranked[k + 1].score
                  && out.movies[k].info.movieId == ranked[k + 1].movieId
                  && out.movies[k].info in Distinct(Infos(rows)))
            && (forall p :: p in ScoresFor(rows, q, sim) ==> p.score <= ranked[0].score)
  {
    var col := ScoresFor(rows, q, sim);
    var ranked := SortDesc(col, ScoreKey);
    var d := Distinct(Infos(rows));
    assert ItemBasedAsWritten(rows, q, n, sim) == Recommended(AttachInfos(SkipFirstTakeN(ranked, n), d));
    ScoresForShape(rows, q, sim);
    assert col[IndexOf(PivotTable(rows).movies, q)] in col;
    DistinctInfoIds(rows);
    AttachedSelection(ranked, col, d, n);
  }

  /** As written, the output's scores are non-increasing and none exceeds the
      dropped first entry. */
  lemma ItemBasedAsWrittenOrdered(rows: seq<Row>, q: int, n: nat, sim: (seq<real>, seq<real>) -> real)
    requires Consistent(rows)
    requires q in MovieIds(rows)
    ensures var out := ItemBasedAsWritten(rows, q, n, sim);
            var ranked := SortDesc(ScoresFor(rows, q, sim), ScoreKey);
            && out.Recommended?
            && |ranked| > 0
            && (forall i, j :: 0 <= i < j < |out.movies| ==> out.movies[i].score >= out.movies[j].score)
            && (forall k :: 0 <= k < |out.movies| ==> out.movies[k].score <= ranked[0].score)
  {
    ItemBasedAsWrittenSelection(rows, q, n, sim);
    ShiftedScoresOrdered(ItemBasedAsWritten(rows, q, n, sim).movies, SortDesc(ScoresFor(rows, q, sim), ScoreKey));
  }

  /** Rows that copy the scores of positions 1.. of a descending ranking are
      non-increasing and bounded by position 0. */
  lemma ShiftedScoresOrdered(out: seq<SimilarMovie>, ranked: seq<Scored>)
    requires Descending(ranked, ScoreKey)
    requires |out| < |ranked|
    requires forall k :: 0 <= k < |out| ==> out[k].score == ranked[k + 1].score
    ensures forall i, j :: 0 <= i < j < |out| ==> out[i].score >= out[j].score
    ensures forall k :: 0 <= k < |out| ==> out[k].score <= ranked[0].score
  {
    forall i, j | 0 <= i < j < |out| ensures out[i].score >= out[j].score {
      assert AtLeast(ScoreKey(ranked[i + 1]), ScoreKey(ranked[j + 1]));
    }
    forall k | 0 <= k < |out| ensures out[k].score <= ranked[0].score {
      assert AtLeast(ScoreKey(ranked[0]), ScoreKey(ranked[k + 1]));
    }
  }

  /** `iloc[1:n+1]` of a ranking, merged with descriptions that carry every
      film of the column exactly once. */
  lemma AttachedSelection(ranked: seq<Scored>, col: seq<Scored>, d: seq<MovieInfo>, n: nat)
    requires IsRankingOf(ranked, col)
    requires NoDuplicates(InfoIds(d))
    requires forall p :: p in col ==> p.movieId in InfoIds(d)
    ensures var out := AttachInfos(SkipFirstTakeN(ranked, n), d);
            && |ranked| == |col|
            && |out| == (if |col| <= 1 then 0 else if n < |col| - 1 then n else |col| - 1)
            && (forall k :: 0 <= k < |out| ==>
                  out[k].score == ranked[k + 1].score && out[k].info.movieId == ranked[k + 1].movieId
                  && out[k].info in d)
            && (forall i, j :: 0 <= i < j < |out| ==> out[i].score >= out[j].score)
            && (forall k :: 0 <= k < |out| ==> out[k].score <= ranked[0].score)
            && (forall p :: p in col ==> p.score <= ranked[0].score)
  {
    assert |ranked| == |multiset(ranked)| == |col|;
    var picked := SkipFirstTakeN(ranked, n);
    SkipFirstSelection(ranked, col, n);
    AttachInfosOneToOne(picked, d);
    RankedTopIsMaximum(ranked, col);
  }

  /** The first entry of a ranking scores at least as high as every entry. */
  lemma RankedTopIsMaximum(ranked: seq<Scored>, col: seq<Scored>)
    requires IsRankingOf(ranked, col)
    ensures forall p :: p in col ==> p.score <= ranked[0].score
  {
    forall p | p in col ensures p.score <= ranked[0].score {
      assert p in multiset(ranked);
      var k :| 0 <= k < |ranked| && ranked[k] == p;
      assert AtLeast(ScoreKey(ranked[0]), ScoreKey(ranked[k]));
    }
  }

  /** When the query film's self-similarity is strictly the highest score of
      its column, the source's output never contains it. */
  lemma ItemBasedAsWrittenExcludesStrictTop(rows: seq<Row>, q: int, n: nat, sim: (seq<real>, seq<real>) -> real)
    requires q in MovieIds(rows)
    requires var mx := PivotTable(rows);
             var iq := IndexOf(mx.movies, q);
             forall j :: 0 <= j < |mx.movies| && j != iq
               ==> sim(Column(mx, j), Column(mx, iq)) < sim(Column(mx, iq), Column(mx, iq))
    ensures ItemBasedAsWritten(rows, q, n, sim).Recommended?
    ensures forall x :: x in ItemBasedAsWritten(rows, q, n, sim).movies ==> x.info.movieId != q
  {
    var mx := PivotTable(rows);
    var col := ScoresFor(rows, q, sim);
    ScoresForShape(rows, q, sim);
    ScoresForEntries(rows, q, sim);
    var iq := IndexOf(mx.movies, q);
    forall a, b | a in col && b in col && a.movieId == q && b.movieId != q ensures a.score > b.score {
      var i :| 0 <= i < |col| && col[i] == a;
      var j :| 0 <= j < |col| && col[j] == b;
      StrictlyIncreasingUnique(mx.movies);
      assert i == iq;
    }
    var ranked := SortDesc(col, ScoreKey);
    SkipFirstExcludesStrictTop(ranked, col, n, q);
    AttachInfosAvoids(SkipFirstTakeN(ranked, n), Distinct(Infos(rows)), q);
  }

  /** The merge only attaches descriptions of the picked films. */
  lemma {:induction false} AttachInfosAvoids(picked: seq<Scored>, infos: seq<MovieInfo>, q: int)
    requires forall p :: p in picked ==> p.movieId != q
    ensures forall x :: x in AttachInfos(picked, infos) ==> x.info.movieId != q
  {
    if picked != [] {
      AttachInfosAvoids(picked[1..], infos, q);
      var head := WithScore(picked[0].score, MatchingInfos(infos, picked[0].movieId));
      assert forall x :: x in head ==> x.info in MatchingInfos(infos, picked[0].movieId);
    }
  }

  // ---------------------------------------------------------------------------
  // Properties of the corrected selection
  // ---------------------------------------------------------------------------

  /** The corrected selection never returns the query film, whatever the scores. */
  lemma ItemBasedExcludesQuery(rows: seq<Row>, q: int, n: nat, sim: (seq<real>, seq<real>) -> real)
    ensures ItemBased(rows, q, n, sim).Recommended? ==>
              forall x :: x in ItemBased(rows, q, n, sim).movies ==> x.info.movieId != q
  {
    if q in MovieIds(rows) {
      var ranked := RankedOthers(rows, q, sim);
      var others := OtherMovies(ScoresFor(rows, q, sim), q);
      forall p | p in Take(ranked, n) ensures p.movieId != q {
        assert p in multiset(others);
      }
      AttachInfosAvoids(Take(ranked, n), Distinct(Infos(rows)), q);
    }
  }

  function ScoredIds(col: seq<Scored>): seq<int> {
    seq(|col|, i requires 0 <= i < |col| => col[i].movieId)
  }

  /** Removing the query film from a column that lists it once removes one entry. */
  lemma {:induction false} OtherMoviesCount(col: seq<Scored>, q: int)
    requires UniqueBy(col, ScoredId)
    ensures |OtherMovies(col, q)| == |col| - (if q in ScoredIds(col) then 1 else 0)
  {
    if col != [] {
      assert ScoredIds(col) == [col[0].movieId] + ScoredIds(col[1..]);
      OtherMoviesCount(col[1..], q);
      if col[0].movieId == q {
        forall k | 0 <= k < |col[1..]| ensures ScoredIds(col[1..])[k] != q {
          assert ScoredId(col[0]) != ScoredId(col[k + 1]);
        }
      }
    }
  }

  /** The first n of a ranking, merged with descriptions that carry every film
      exactly once: n rows at most, each the ranked entry at the same position. */
  lemma AttachedTop(ranked: seq<Scored>, others: seq<Scored>, d: seq<MovieInfo>, n: nat)
    requires IsRankingOf(ranked, others)
    requires NoDuplicates(InfoIds(d))
    requires forall p :: p in others ==> p.movieId in InfoIds(d)
    ensures var out := AttachInfos(Take(ranked, n), d);
            && |ranked| == |others|
            && |out| == (if n < |others| then n else |others|)
            && (forall k :: 0 <= k < |out| ==> Scored(out[k].info.movieId, out[k].score) == ranked[k] && out[k].info in d)
  {
    assert |ranked| == |multiset(ranked)| == |others|;
    var top := Take(ranked, n);
    forall p | p in top ensures p.movieId in InfoIds(d) {
      assert p in multiset(others);
    }
    AttachInfosOneToOne(top, d);
  }

  /** The first n of a ranking with their descriptions: scores non-increasing,
      and no film left out scores above a film kept. */
  lemma AttachedTopKeepsBest(ranked: seq<Scored>, others: seq<Scored>, d: seq<MovieInfo>, n: nat)
    requires IsRankingOf(ranked, others)
    requires NoDuplicates(InfoIds(d))
    requires forall p :: p in others ==> p.movieId in InfoIds(d)
    ensures var out := AttachInfos(Take(ranked, n), d);
            && (forall i, j :: 0 <= i < j < |out| ==> out[i].score >= out[j].score)
            && (forall p :: p in others && (forall k :: 0 <= k < |out| ==> out[k].info.movieId != p.movieId)
                  ==> forall k :: 0 <= k < |out| ==> p.score <= out[k].score)
  {
    AttachedTop(ranked, others, d, n);
    var out := AttachInfos(Take(ranked, n), d);
    forall i, j | 0 <= i < j < |out| ensures out[i].score >= out[j].score {
      assert AtLeast(ScoreKey(ranked[i]), ScoreKey(ranked[j]));
    }
    forall p | p in others && (forall k :: 0 <= k < |out| ==> out[k].info.movieId != p.movieId)
      ensures forall k :: 0 <= k < |out| ==> p.score <= out[k].score
    {
      assert p in multiset(ranked);
      var t :| 0 <= t < |ranked| && ranked[t] == p;
      assert forall k :: 0 <= k < |out| ==> ranked[k] != p;
      assert |out| <= t;
      forall k | 0 <= k < |out| ensures p.score <= out[k].score {
        assert AtLeast(ScoreKey(ranked[k]), ScoreKey(ranked[t]));
      }
    }
  }

  /** For a consistent table and a known film, the corrected output has
      min(n, films - 1) rows; each is an entry of the query column other than
      the query film; scores are non-increasing; and every other film left
      out scores no higher than any film returned. */
  lemma ItemBasedSelection(rows: seq<Row>, q: int, n: nat, sim: (seq<real>, seq<real>) -> real)
    requires Consistent(rows)
    requires q in MovieIds(rows)
    ensures var out := ItemBased(rows, q, n, sim);
            var col := ScoresFor(rows, q, sim);
            var films := |set m | m in MovieIds(rows)|;
            && out.Recommended?
            && |out.movies| == (if n < films - 1 then n else films - 1)
            && (forall k :: 0 <= k < |out.movies| ==>
                  out.movies[k].info.movieId != q && Scored(out.movies[k].info.movieId, out.movies[k].score) in col
                  && out.movies[k].info in Distinct(Infos(rows)))
            && (forall i, j :: 0 <= i < j < |out.movies| ==> out.movies[i].score >= out.movies[j].score)
            && (forall p :: p in col && p.movieId != q
                  && (forall k :: 0 <= k < |out.movies| ==> out.movies[k].info.movieId != p.movieId)
                  ==> forall k :: 0 <= k < |out.movies| ==> p.score <= out.movies[k].score)
  {
    var col := ScoresFor(rows, q, sim);
    var d := Distinct(Infos(rows));
    assert ItemBased(rows, q, n, sim)
           == Recommended(AttachInfos(Take(SortDesc(OtherMovies(col, q), ScoreKey), n), d));
    QueryColumnFacts(rows, q, sim);
    OthersSelection(col, q, SortDesc(OtherMovies(col, q), ScoreKey), d, n);
  }

  /** The query column lists every film of a consistent table once, the
      query film among them, and every film has a description. */
  lemma QueryColumnFacts(rows: seq<Row>, q: int, sim: (seq<real>, seq<real>) -> real)
    requires Consistent(rows)
    requires q in MovieIds(rows)
    ensures var col := ScoresFor(rows, q, sim);
            var d := Distinct(Infos(rows));
            && UniqueBy(col, ScoredId) && q in ScoredIds(col)
            && |set m | m in MovieIds(rows)| == |col|
            && NoDuplicates(InfoIds(d))
            && (forall p :: p in col ==> p.movieId in InfoIds(d))
  {
    var col := ScoresFor(rows, q, sim);
    ScoresForShape(rows, q, sim);
    ScoresForEntries(rows, q, sim);
    DistinctInfoIds(rows);
    var mx := PivotTable(rows);
    assert ScoredIds(col)[IndexOf(mx.movies, q)] == q;
  }

  /** The corrected selection on any column listing each film once and any
      ranking of its other films. */
  lemma OthersSelection(col: seq<Scored>, q: int, ranked: seq<Scored>, d: seq<MovieInfo>, n: nat)
    requires UniqueBy(col, ScoredId) && q in ScoredIds(col)
    requires IsRankingOf(ranked, OtherMovies(col, q))
    requires NoDuplicates(InfoIds(d))
    requires forall p :: p in col ==> p.movieId in InfoIds(d)
    ensures var out := AttachInfos(Take(ranked, n), d);
            && |out| == (if n < |col| - 1 then n else |col| - 1)
            && (forall k :: 0 <= k < |out| ==>
                  out[k].info.movieId != q && Scored(out[k].info.movieId, out[k].score) in col
                  && out[k].info in d)
            && (forall i, j :: 0 <= i < j < |out| ==> out[i].score >= out[j].score)
            && (forall p :: p in col && p.movieId != q
                  && (forall k :: 0 <= k < |out| ==> out[k].info.movieId != p.movieId)
                  ==> forall k :: 0 <= k < |out| ==> p.score <= out[k].score)
  {
    var others := OtherMovies(col, q);
    var out := AttachInfos(Take(ranked, n), d);
    OtherMoviesCount(col, q);
    AttachedTop(ranked, others, d, n);
    AttachedTopKeepsBest(ranked, others, d, n);
    forall k | 0 <= k < |out|
      ensures out[k].info.movieId != q && Scored(out[k].info.movieId, out[k].score) in col
    {
      assert ranked[k] in multiset(others);
    }
  }

  /** An entry of the query column for film j scores film j's similarity to the query film. */
  lemma ColumnEntryScore(rows: seq<Row>, q: int, sim: (seq<real>, seq<real>) -> real, p: Scored, j: nat)
    requires q in MovieIds(rows)
    requires p in ScoresFor(rows, q, sim)
    requires j < |PivotTable(rows).movies| && PivotTable(rows).movies[j] == p.movieId
    ensures var mx := PivotTable(rows);
            p.score == sim(Column(mx, j), Column(mx, IndexOf(mx.movies, q)))
  {
    var mx := PivotTable(rows);
    var col := ScoresFor(rows, q, sim);
    ScoresForEntries(rows, q, sim);
    EntryOfFilm(col, mx.movies, p, j);
  }

  /** In a column whose entries follow a strictly increasing list of films,
      the entry of film `movies[j]` is entry j. */
  lemma EntryOfFilm(col: seq<Scored>, movies: seq<int>, p: Scored, j: nat)
    requires StrictlyIncreasing(movies) && |col| == |movies|
    requires forall i :: 0 <= i < |col| ==> col[i].movieId == movies[i]
    requires p in col && j < |movies| && movies[j] == p.movieId
    ensures col[j] == p
  {
    var i :| 0 <= i < |col| && col[i] == p;
    assert movies[i] == movies[j];
  }

  /** Each corrected output row carries the similarity of its film's rating
      column to the query film's rating column. */
  lemma ItemBasedScores(rows: seq<Row>, q: int, n: nat, sim: (seq<real>, seq<real>) -> real)
    requires Consistent(rows)
    requires q in MovieIds(rows)
    ensures var out := ItemBased(rows, q, n, sim);
            var mx := PivotTable(rows);
            && out.Recommended?
            && forall k, j :: 0 <= k < |out.movies| && 0 <= j < |mx.movies| && mx.movies[j] == out.movies[k].info.movieId
                 ==> out.movies[k].score == sim(Column(mx, j), Column(mx, IndexOf(mx.movies, q)))
  {
    var out := ItemBased(rows, q, n, sim).movies;
    var mx := PivotTable(rows);
    ItemBasedSelection(rows, q, n, sim);
    forall k, j | 0 <= k < |out| && 0 <= j < |mx.movies| && mx.movies[j] == out[k].info.movieId
      ensures out[k].score == sim(Column(mx, j), Column(mx, IndexOf(mx.movies, q)))
    {
      ColumnEntryScore(rows, q, sim, Scored(out[k].info.movieId, out[k].score), j);
    }
  }
}

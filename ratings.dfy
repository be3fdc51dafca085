/** The merged table that every recommender reads: one row per rating,
    carrying the rated film's title and TMDB id (movies left-joined with
    links, then inner-joined with ratings), and the aggregates over it. */
module Ratings {

  datatype Option<T> = None | Some(value: T)

  /** A film's descriptive columns. `tmdbId` is absent when the links table
      has no entry for the film (the left join leaves it empty). */
  datatype MovieInfo = MovieInfo(movieId: int, title: string, tmdbId: Option<int>)

  /** One row of the merged table. */
  datatype Row = Row(userId: int, movieId: int, title: string, tmdbId: Option<int>, rating: real)
  {
    /** The row's (movieId, title, tmdbId) columns. */
    function Info(): MovieInfo {
      MovieInfo(movieId, title, tmdbId)
    }
  }

  /** The `movieId` column, in row order. */
  function MovieIds(rows: seq<Row>): seq<int> {
    seq(|rows|, i requires 0 <= i < |rows| => rows[i].movieId)
  }

  /** The `userId` column, in row order. */
  function UserIds(rows: seq<Row>): seq<int> {
    seq(|rows|, i requires 0 <= i < |rows| => rows[i].userId)
  }

  /** The (movieId, title, tmdbId) columns, in row order. */
  function Infos(rows: seq<Row>): seq<MovieInfo> {
    seq(|rows|, i requires 0 <= i < |rows| => rows[i].Info())
  }

  /** Every row of a film carries the same title and TMDB id, as it does when
      movieId is unique in the movies and links tables. */
  predicate Consistent(rows: seq<Row>) {
    forall i, j :: 0 <= i < |rows| && 0 <= j < |rows| && rows[i].movieId == rows[j].movieId
      ==> rows[i].Info() == rows[j].Info()
  }

  // ---------------------------------------------------------------------------
  // Grouped ratings and their aggregates
  // ---------------------------------------------------------------------------

  /** The ratings of film `m`, in row order (one `groupby('movieId')` group). */
  function MovieRatings(rows: seq<Row>, m: int): seq<real> {
    if rows == [] then []
    else (if rows[0].movieId == m then [rows[0].rating] else []) + MovieRatings(rows[1..], m)
  }

  /** The ratings user `u` gave film `m`, in row order (one pivot-table cell's group). */
  function PairRatings(rows: seq<Row>, u: int, m: int): seq<real> {
    if rows == [] then []
    else (if rows[0].userId == u && rows[0].movieId == m then [rows[0].rating] else [])
         + PairRatings(rows[1..], u, m)
  }

  function Sum(xs: seq<real>): real {
    if xs == [] then 0.0 else xs[0] + Sum(xs[1..])
  }

  /** Arithmetic mean, as pandas' `mean` aggregation (exact, not floating point). */
  function Mean(xs: seq<real>): real
    requires |xs| > 0
  {
    Sum(xs) / (|xs| as real)
  }

  lemma MeanTimesCount(xs: seq<real>)
    requires |xs| > 0
    ensures Mean(xs) * (|xs| as real) == Sum(xs)
  {
  }

  lemma {:induction false} SumWithin(xs: seq<real>, lo: real, hi: real)
    requires forall i :: 0 <= i < |xs| ==> lo <= xs[i] <= hi
    ensures (|xs| as real) * lo <= Sum(xs) <= (|xs| as real) * hi
  {
    if xs != [] {
      SumWithin(xs[1..], lo, hi);
    }
  }

  /** A mean of values on a scale stays on that scale. */
  lemma MeanWithin(xs: seq<real>, lo: real, hi: real)
    requires |xs| > 0
    requires forall i :: 0 <= i < |xs| ==> lo <= xs[i] <= hi
    ensures lo <= Mean(xs) <= hi
  {
    SumWithin(xs, lo, hi);
    var n := |xs| as real;
    var mu := Mean(xs);
    assert mu * n == Sum(xs);
    assert (mu - lo) * n >= 0.0 && (hi - mu) * n >= 0.0;
  }

  lemma {:induction false} SumOfConstant(xs: seq<real>, x: real)
    requires forall i :: 0 <= i < |xs| ==> xs[i] == x
    ensures Sum(xs) == (|xs| as real) * x
  {
    if xs != [] {
      SumOfConstant(xs[1..], x);
    }
  }

  /** Averaging identical duplicates gives back the shared value. */
  lemma MeanOfConstant(xs: seq<real>, x: real)
    requires |xs| > 0
    requires forall i :: 0 <= i < |xs| ==> xs[i] == x
    ensures Mean(xs) == x
  {
    SumOfConstant(xs, x);
  }

  /** The size of a film's group is the number of rows that carry its movieId. */
  lemma {:induction false} MovieRatingsCount(rows: seq<Row>, m: int)
    ensures |MovieRatings(rows, m)| == multiset(MovieIds(rows))[m]
  {
    if rows != [] {
      MovieRatingsCount(rows[1..], m);
      assert MovieIds(rows) == [rows[0].movieId] + MovieIds(rows[1..]);
    }
  }

  /** A film's group is non-empty exactly when some row carries its movieId. */
  lemma {:induction false} MovieRatingsNonEmpty(rows: seq<Row>, m: int)
    ensures |MovieRatings(rows, m)| > 0 <==> m in MovieIds(rows)
  {
    if rows != [] {
      MovieRatingsNonEmpty(rows[1..], m);
      assert MovieIds(rows) == [rows[0].movieId] + MovieIds(rows[1..]);
    }
  }

  /** A pivot cell's group is empty exactly when no row pairs user `u` with film `m`. */
  lemma {:induction false} PairRatingsEmpty(rows: seq<Row>, u: int, m: int)
    ensures PairRatings(rows, u, m) == []
            <==> forall i :: 0 <= i < |rows| ==> !(rows[i].userId == u && rows[i].movieId == m)
  {
    if rows != [] {
      PairRatingsEmpty(rows[1..], u, m);
      assert forall i :: 1 <= i < |rows| ==> rows[i] == rows[1..][i - 1];
    }
  }

  /** When every rating user `u` gave film `m` lies in [lo, hi], so does
      every value of the pair's group. */
  lemma {:induction false} PairRatingsWithin(rows: seq<Row>, u: int, m: int, lo: real, hi: real)
    requires forall i :: 0 <= i < |rows| && rows[i].userId == u && rows[i].movieId == m
               ==> lo <= rows[i].rating <= hi
    ensures forall k :: 0 <= k < |PairRatings(rows, u, m)| ==> lo <= PairRatings(rows, u, m)[k] <= hi
  {
    if rows != [] {
      assert forall i :: 1 <= i < |rows| ==> rows[i] == rows[1..][i - 1];
      PairRatingsWithin(rows[1..], u, m, lo, hi);
    }
  }

  /** When every rating of film `m` lies in [lo, hi], so does every value of its group. */
  lemma {:induction false} MovieRatingsWithin(rows: seq<Row>, m: int, lo: real, hi: real)
    requires forall i :: 0 <= i < |rows| && rows[i].movieId == m ==> lo <= rows[i].rating <= hi
    ensures forall k :: 0 <= k < |MovieRatings(rows, m)| ==> lo <= MovieRatings(rows, m)[k] <= hi
  {
    if rows != [] {
      assert forall i :: 1 <= i < |rows| ==> rows[i] == rows[1..][i - 1];
      MovieRatingsWithin(rows[1..], m, lo, hi);
    }
  }

  // ---------------------------------------------------------------------------
  // drop_duplicates: first occurrences, in order
  // ---------------------------------------------------------------------------

  predicate NoDuplicates<T(==)>(s: seq<T>) {
    forall i, j :: 0 <= i < j < |s| ==> s[i] != s[j]
  }

  /** The first occurrence of every element of `s` not in `seen`, in order. */
  function DistinctFrom<T(==)>(s: seq<T>, seen: set<T>): (r: seq<T>)
    ensures forall x :: x in r ==> x in s && x !in seen
    ensures forall x :: x in s && x !in seen ==> x in r
    ensures NoDuplicates(r)
  {
    if s == [] then []
    else if s[0] in seen then DistinctFrom(s[1..], seen)
    else [s[0]] + DistinctFrom(s[1..], seen + {s[0]})
  }

  /** `r` lists values of `s` in the order of their first occurrences: every
      value of `r` occurs in `s` before every occurrence of a later value. */
  predicate FirstOccurrenceOrder<T(==)>(r: seq<T>, s: seq<T>) {
    forall i, j, b :: 0 <= i < j < |r| && 0 <= b < |s| && s[b] == r[j] ==> r[i] in s[..b]
  }

  /** pandas `drop_duplicates()` on whole rows: keeps each first occurrence,
      in the order of the input. */
  function Distinct<T(==)>(s: seq<T>): (r: seq<T>)
    ensures forall x :: x in r ==> x in s
    ensures forall x :: x in s ==> x in r
    ensures NoDuplicates(r)
    ensures FirstOccurrenceOrder(r, s)
  {
    DistinctFromOrder(s, {});
    DistinctFrom(s, {})
  }

  lemma {:induction false} DistinctFromOrder<T>(s: seq<T>, seen: set<T>)
    ensures FirstOccurrenceOrder(DistinctFrom(s, seen), s)
  {
    if s != [] {
      if s[0] in seen {
        DistinctFromOrder(s[1..], seen);
        OrderTail(s, DistinctFrom(s[1..], seen));
      } else {
        DistinctFromOrder(s[1..], seen + {s[0]});
        OrderCons(s, DistinctFrom(s[1..], seen + {s[0]}));
      }
    }
  }

  /** An order of first occurrences in `s[1..]` that avoids `s[0]` is one in `s`. */
  lemma OrderTail<T>(s: seq<T>, r: seq<T>)
    requires s != [] && s[0] !in r
    requires FirstOccurrenceOrder(r, s[1..])
    ensures FirstOccurrenceOrder(r, s)
  {
    forall i, j, b | 0 <= i < j < |r| && 0 <= b < |s| && s[b] == r[j] ensures r[i] in s[..b] {
      assert r[j] in r;
      assert b > 0 && s[1..][b - 1] == r[j];
      assert r[i] in s[1..][..b - 1];
      assert s[1..][..b - 1] == s[..b][1..];
    }
  }

  /** ... and `s[0]` followed by it is one too. */
  lemma OrderCons<T>(s: seq<T>, r: seq<T>)
    requires s != [] && s[0] !in r
    requires FirstOccurrenceOrder(r, s[1..])
    ensures FirstOccurrenceOrder([s[0]] + r, s)
  {
    OrderTail(s, r);
    var r' := [s[0]] + r;
    forall i, j, b | 0 <= i < j < |r'| && 0 <= b < |s| && s[b] == r'[j] ensures r'[i] in s[..b] {
      assert r'[j] == r[j - 1] && r[j - 1] in r;
      assert b > 0;
      if i == 0 {
        assert s[..b][0] == s[0];
      } else {
        assert r'[i] == r[i - 1];
      }
    }
  }

  // ---------------------------------------------------------------------------
  // Film descriptions and joins on movieId
  // ---------------------------------------------------------------------------

  /** The movieIds of a sequence of film descriptions. */
  function InfoIds(infos: seq<MovieInfo>): seq<int> {
    seq(|infos|, i requires 0 <= i < |infos| => infos[i].movieId)
  }

  /** Every film description in the table belongs to a film that has a row. */
  lemma InfosHaveRows(rows: seq<Row>)
    ensures forall x :: x in Infos(rows) ==> x.movieId in MovieIds(rows)
  {
    forall x | x in Infos(rows) ensures x.movieId in MovieIds(rows) {
      var i :| 0 <= i < |rows| && Infos(rows)[i] == x;
      assert MovieIds(rows)[i] == x.movieId;
    }
  }

  /** With a consistent table, the de-duplicated film rows carry each movieId
      exactly once and carry every movieId of the table. */
  lemma DistinctInfoIds(rows: seq<Row>)
    requires Consistent(rows)
    ensures NoDuplicates(InfoIds(Distinct(Infos(rows))))
    ensures forall m :: m in InfoIds(Distinct(Infos(rows))) <==> m in MovieIds(rows)
  {
    var d := Distinct(Infos(rows));
    var ids := InfoIds(d);
    forall i, j | 0 <= i < j < |ids| ensures ids[i] != ids[j] {
      assert d[i] in Infos(rows) && d[j] in Infos(rows);
      var a :| 0 <= a < |rows| && Infos(rows)[a] == d[i];
      var b :| 0 <= b < |rows| && Infos(rows)[b] == d[j];
      assert rows[a].movieId == ids[i] && rows[b].movieId == ids[j];
      assert d[i] != d[j];
    }
    forall m ensures m in ids <==> m in MovieIds(rows) {
      if m in ids {
        var i :| 0 <= i < |ids| && ids[i] == m;
        InfosHaveRows(rows);
        assert d[i] in Infos(rows);
      }
      if m in MovieIds(rows) {
        var k :| 0 <= k < |rows| && MovieIds(rows)[k] == m;
        assert Infos(rows)[k] in d;
        var i :| 0 <= i < |d| && d[i] == Infos(rows)[k];
        assert ids[i] == m;
      }
    }
  }

  /** The film descriptions whose movieId is `m`, in order: the right-hand
      rows a merge on movieId pairs with a left-hand row carrying `m`. */
  function MatchingInfos(infos: seq<MovieInfo>, m: int): (r: seq<MovieInfo>)
    ensures forall x :: x in r ==> x in infos && x.movieId == m
  {
    if infos == [] then []
    else (if infos[0].movieId == m then [infos[0]] else []) + MatchingInfos(infos[1..], m)
  }

  /** A description list carrying each movieId once matches a present movieId exactly once. */
  lemma {:induction false} MatchingInfosSingle(infos: seq<MovieInfo>, m: int)
    requires NoDuplicates(InfoIds(infos))
    requires m in InfoIds(infos)
    ensures |MatchingInfos(infos, m)| == 1
  {
    var ids := InfoIds(infos);
    assert InfoIds(infos[1..]) == ids[1..];
    if infos[0].movieId == m {
      forall k | 1 <= k < |ids| ensures ids[k] != m {
        assert ids[0] != ids[k];
      }
      assert m !in ids[1..];
      MatchingInfosNone(infos[1..], m);
    } else {
      assert m in ids[1..];
      MatchingInfosSingle(infos[1..], m);
    }
  }

  lemma {:induction false} MatchingInfosNone(infos: seq<MovieInfo>, m: int)
    requires m !in InfoIds(infos)
    ensures MatchingInfos(infos, m) == []
  {
    if infos != [] {
      assert InfoIds(infos[1..]) == InfoIds(infos)[1..];
      assert InfoIds(infos)[0] == infos[0].movieId;
      MatchingInfosNone(infos[1..], m);
    }
  }

  /** A film with a row has at least one description among the table's rows. */
  lemma {:induction false} MatchingInfosPresent(rows: seq<Row>, m: int)
    requires m in MovieIds(rows)
    ensures MatchingInfos(Infos(rows), m) != []
  {
    if rows[0].movieId != m {
      assert MovieIds(rows[1..]) == MovieIds(rows)[1..];
      assert Infos(rows[1..]) == Infos(rows)[1..];
      MatchingInfosPresent(rows[1..], m);
    }
  }

  /** A sequence without duplicates has as many elements as its set. */
  lemma {:induction false} NoDuplicatesCard<T>(s: seq<T>)
    requires NoDuplicates(s)
    ensures |set x | x in s| == |s|
  {
    if s != [] {
      NoDuplicatesCard(s[1..]);
      assert (set x | x in s) == (set x | x in s[1..]) + {s[0]};
      assert s[0] !in s[1..];
    }
  }
}

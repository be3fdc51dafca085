/** `user_based_recommender`: the anti-testset of the training set (every
    (user, film) pair with no rating, users and films in order of first
    appearance), kept for one user, scored by a trained predictor, the n
    highest estimates kept, left-joined with every row's (movieId, title,
    tmdbId), de-duplicated on movieId and cut to n rows.
    The trained predictor is a parameter `est`: the model says nothing about
    how its estimates are computed. */
module Personalized {
  import opened Ratings
  import opened Ranking

  // ---------------------------------------------------------------------------
  // The anti-testset
  // ---------------------------------------------------------------------------

  /** One anti-testset entry: a user, a film the user has not rated, and the
      training set's global mean as the placeholder "true" rating. */
  datatype Candidate = Candidate(userId: int, movieId: int, fill: real)

  /** The `rating` column, in row order. */
  function AllRatings(rows: seq<Row>): seq<real> {
    seq(|rows|, i requires 0 <= i < |rows| => rows[i].rating)
  }

  /** The training set's mean rating (every row counts, duplicates included). */
  function GlobalMean(rows: seq<Row>): real {
    if rows == [] then 0.0 else Mean(AllRatings(rows))
  }

  /** User `u` has at least one rating of film `m`. */
  predicate Rated(rows: seq<Row>, u: int, m: int) {
    PairRatings(rows, u, m) != []
  }

  /** Users and films numbered in order of first appearance, as the training set does. */
  function UserOrder(rows: seq<Row>): seq<int> {
    Distinct(UserIds(rows))
  }

  function ItemOrder(rows: seq<Row>): seq<int> {
    Distinct(MovieIds(rows))
  }

  /** The films of `items` that user `u` has not rated, in order, as candidates. */
  function UnratedBy(rows: seq<Row>, u: int, items: seq<int>): (r: seq<Candidate>)
    ensures forall c :: c in r <==>
              c.userId == u && c.movieId in items && !Rated(rows, u, c.movieId) && c.fill == GlobalMean(rows)
  {
    if items == [] then []
    else
      var rest := UnratedBy(rows, u, items[1..]);
      assert forall m :: m in items <==> m == items[0] || m in items[1..];
      (if !Rated(rows, u, items[0]) then [Candidate(u, items[0], GlobalMean(rows))] else []) + rest
  }

  /** The anti-testset restricted to the users of `users`, user by user. */
  function UnratedByAll(rows: seq<Row>, users: seq<int>): (r: seq<Candidate>)
    ensures forall c :: c in r <==>
              c.userId in users && c.movieId in MovieIds(rows) && !Rated(rows, c.userId, c.movieId)
              && c.fill == GlobalMean(rows)
  {
    if users == [] then []
    else
      assert forall v :: v in users <==> v == users[0] || v in users[1..];
      UnratedBy(rows, users[0], ItemOrder(rows)) + UnratedByAll(rows, users[1..])
  }

  /** `trainset.build_anti_testset()`: exactly the (user, film) pairs of the
      table without a rating, each with the global mean as placeholder. */
  function AntiTestset(rows: seq<Row>): (r: seq<Candidate>)
    ensures forall c :: c in r <==>
              c.userId in UserIds(rows) && c.movieId in MovieIds(rows) && !Rated(rows, c.userId, c.movieId)
              && c.fill == GlobalMean(rows)
  {
    UnratedByAll(rows, UserOrder(rows))
  }

  /** `[x for x in testset if x[0] == userId]`. */
  function ForUser(cs: seq<Candidate>, u: int): (r: seq<Candidate>)
    ensures forall c :: c in r <==> c in cs && c.userId == u
  {
    if cs == [] then []
    else
      assert forall c :: c in cs <==> c == cs[0] || c in cs[1..];
      (if cs[0].userId == u then [cs[0]] else []) + ForUser(cs[1..], u)
  }

  /** The candidates scored for user `u`. */
  function Candidates(rows: seq<Row>, u: int): seq<Candidate> {
    ForUser(AntiTestset(rows), u)
  }

  lemma {:induction false} ForUserAppend(a: seq<Candidate>, b: seq<Candidate>, u: int)
    ensures ForUser(a + b, u) == ForUser(a, u) + ForUser(b, u)
  {
    if a == [] {
      assert a + b == b;
    } else {
      assert (a + b)[0] == a[0] && (a + b)[1..] == a[1..] + b;
      ForUserAppend(a[1..], b, u);
    }
  }

  /** Every candidate of a block belongs to the block's user. */
  lemma ForUserOfBlock(rows: seq<Row>, v: int, items: seq<int>, u: int)
    ensures ForUser(UnratedBy(rows, v, items), u) == if v == u then UnratedBy(rows, v, items) else []
  {
    var block := UnratedBy(rows, v, items);
    if v == u {
      ForUserKeepsAll(block, u);
    } else {
      ForUserDropsAll(block, u);
    }
  }

  lemma {:induction false} ForUserKeepsAll(cs: seq<Candidate>, u: int)
    requires forall c :: c in cs ==> c.userId == u
    ensures ForUser(cs, u) == cs
  {
    if cs != [] {
      ForUserKeepsAll(cs[1..], u);
    }
  }

  lemma {:induction false} ForUserDropsAll(cs: seq<Candidate>, u: int)
    requires forall c :: c in cs ==> c.userId != u
    ensures ForUser(cs, u) == []
  {
    if cs != [] {
      ForUserDropsAll(cs[1..], u);
    }
  }

  lemma {:induction false} ForUserOfUsers(rows: seq<Row>, users: seq<int>, u: int)
    requires NoDuplicates(users)
    ensures ForUser(UnratedByAll(rows, users), u)
            == if u in users then UnratedBy(rows, u, ItemOrder(rows)) else []
  {
    if users != [] {
      ForUserAppend(UnratedBy(rows, users[0], ItemOrder(rows)), UnratedByAll(rows, users[1..]), u);
      ForUserOfBlock(rows, users[0], ItemOrder(rows), u);
      ForUserOfUsers(rows, users[1..], u);
      if users[0] == u {
        forall k | 0 <= k < |users[1..]| ensures users[1..][k] != u {
          assert users[0] != users[k + 1];
        }
      }
    }
  }

  /** A known user's candidates are the films they have not rated, in order of
      first appearance; an unknown user has none. */
  lemma CandidatesExact(rows: seq<Row>, u: int)
    ensures Candidates(rows, u) == if u in UserIds(rows) then UnratedBy(rows, u, ItemOrder(rows)) else []
  {
    ForUserOfUsers(rows, UserOrder(rows), u);
  }

  function CandidateId(c: Candidate): int {
    c.movieId
  }

  lemma {:induction false} UnratedByUnique(rows: seq<Row>, u: int, items: seq<int>)
    requires NoDuplicates(items)
    ensures UniqueBy(UnratedBy(rows, u, items), CandidateId)
  {
    if items != [] {
      UnratedByUnique(rows, u, items[1..]);
      assert items[0] !in items[1..] by {
        forall k | 0 <= k < |items[1..]| ensures items[1..][k] != items[0] {
          assert items[0] != items[k + 1];
        }
      }
    }
  }

  /** The candidates of `u` are exactly the (u, m) pairs with m a film of the
      table that `u` has not rated, each film once; there are none when `u`
      has no rating at all. */
  lemma CandidatesAreUnratedPairs(rows: seq<Row>, u: int)
    ensures UniqueBy(Candidates(rows, u), CandidateId)
    ensures forall c :: c in Candidates(rows, u) <==>
              && u in UserIds(rows)
              && c == Candidate(u, c.movieId, GlobalMean(rows))
              && c.movieId in MovieIds(rows)
              && forall i :: 0 <= i < |rows| ==> !(rows[i].userId == u && rows[i].movieId == c.movieId)
  {
    CandidatesExact(rows, u);
    UnratedByUnique(rows, u, ItemOrder(rows));
    forall m {
      PairRatingsEmpty(rows, u, m);
    }
  }

  // ---------------------------------------------------------------------------
  // Scoring, nlargest and the join with the film descriptions
  // ---------------------------------------------------------------------------

  /** One row of `predictions_df`: user, film, the placeholder rating and the
      estimate (the `details` column is not modelled). */
  datatype Prediction = Prediction(userId: int, movieId: int, actual: real, est: real)

  /** `_algo.test(filtered_testset)`: one prediction per candidate, in order. */
  function Predict(cs: seq<Candidate>, est: (int, int) -> real): (r: seq<Prediction>)
    ensures |r| == |cs|
    ensures forall k :: 0 <= k < |r| ==>
              r[k] == Prediction(cs[k].userId, cs[k].movieId, cs[k].fill, est(cs[k].userId, cs[k].movieId))
  {
    seq(|cs|, k requires 0 <= k < |cs| =>
      Prediction(cs[k].userId, cs[k].movieId, cs[k].fill, est(cs[k].userId, cs[k].movieId)))
  }

  function EstKey(p: Prediction): Key {
    Key(p.est, 0.0)
  }

  function PredictionId(p: Prediction): int {
    p.movieId
  }

  /** `ranked` is an admissible order of `preds` by `est`, descending. pandas'
      `nlargest` keeps the first of equal estimates when it selects fewer rows
      than it has and sorts without a fixed tie order otherwise; the lemmas
      below hold for every such order. */
  predicate RanksPredictions(ranked: seq<Prediction>, preds: seq<Prediction>) {
    multiset(ranked) == multiset(preds) && Descending(ranked, EstKey)
  }

  /** One output row: the prediction and the film's (movieId, title, tmdbId),
      or None where the left join found no film row. */
  datatype Recommendation = Recommendation(prediction: Prediction, info: Option<MovieInfo>)

  function RecommendationId(r: Recommendation): int {
    r.prediction.movieId
  }

  /** The rows a left join produces for one prediction. */
  function JoinOne(p: Prediction, matches: seq<MovieInfo>): (r: seq<Recommendation>)
    ensures r != []
    ensures forall x :: x in r ==> x.prediction == p
  {
    if matches == [] then [Recommendation(p, None)]
    else seq(|matches|, k requires 0 <= k < |matches| => Recommendation(p, Some(matches[k])))
  }

  /** `pd.merge(predictions, rows[['movieId', 'title', 'tmdbId']], on='movieId', how='left')`:
      every prediction, in order, once per film row that carries its movieId. */
  function LeftJoin(preds: seq<Prediction>, infos: seq<MovieInfo>): seq<Recommendation> {
    if preds == [] then []
    else JoinOne(preds[0], MatchingInfos(infos, preds[0].movieId)) + LeftJoin(preds[1..], infos)
  }

  /** The left join loses no prediction, and every description it attaches is
      a film row of the prediction's film. */
  lemma {:induction false} LeftJoinRows(preds: seq<Prediction>, infos: seq<MovieInfo>)
    ensures |LeftJoin(preds, infos)| >= |preds|
    ensures forall p :: p in preds ==> exists x :: x in LeftJoin(preds, infos) && x.prediction == p
    ensures forall x :: x in LeftJoin(preds, infos) ==>
              x.prediction in preds
              && (x.info.Some? ==> x.info.value in infos && x.info.value.movieId == x.prediction.movieId)
  {
    if preds != [] {
      LeftJoinRows(preds[1..], infos);
      var head := JoinOne(preds[0], MatchingInfos(infos, preds[0].movieId));
      JoinOneInfos(preds[0], MatchingInfos(infos, preds[0].movieId));
      assert LeftJoin(preds, infos) == head + LeftJoin(preds[1..], infos);
      assert forall q :: q in preds[1..] ==> q in preds;
      assert forall q :: q in preds ==> q == preds[0] || q in preds[1..];
      assert head[0] in LeftJoin(preds, infos) && head[0].prediction == preds[0];
    }
  }

  lemma JoinOneInfos(p: Prediction, matches: seq<MovieInfo>)
    ensures forall x :: x in JoinOne(p, matches) && x.info.Some? ==> x.info.value in matches
  {
    forall x | x in JoinOne(p, matches) && x.info.Some? ensures x.info.value in matches {
      var k :| 0 <= k < |JoinOne(p, matches)| && JoinOne(p, matches)[k] == x;
    }
  }

  /** `drop_duplicates(subset=['movieId'])`: the first row of every movieId not in `seen`. */
  function DropDuplicateMovies(rs: seq<Recommendation>, seen: set<int>): (r: seq<Recommendation>)
  {
    if rs == [] then []
    else if rs[0].prediction.movieId in seen then DropDuplicateMovies(rs[1..], seen)
    else
      [rs[0]] + DropDuplicateMovies(rs[1..], seen + {rs[0].prediction.movieId})
  }

  /** The output for an already ranked prediction list. */
  function RecommendFrom(rows: seq<Row>, ranked: seq<Prediction>, n: nat): seq<Recommendation> {
    Take(DropDuplicateMovies(LeftJoin(Take(ranked, n), Infos(rows)), {}), n)
  }

  /** What `user_based_recommender` yields: the recommendation table, or the
      TypeError that `nlargest` raises on the predictions frame built from an
      empty prediction list (all its columns then have the `object` dtype). */
  datatype UserOutcome = UserRecs(recs: seq<Recommendation>) | NlargestTypeError

  /** `user_based_recommender(userId, n, ...)` as written, with `nlargest` as a
      stable sort: a user without candidates makes `nlargest` fail. */
  function UserBasedRecommender(rows: seq<Row>, u: int, n: nat, est: (int, int) -> real): (r: UserOutcome)
    ensures r.NlargestTypeError? <==> Candidates(rows, u) == []
  {
    var cs := Candidates(rows, u);
    if cs == [] then NlargestTypeError
    else UserRecs(RecommendFrom(rows, SortDesc(Predict(cs, est), EstKey), n))
  }

  /** The recommendation table the page expects: it tests the result for
      emptiness before showing it, so a user without candidates gets an empty
      table instead of an exception. */
  function UserBasedRecommendations(rows: seq<Row>, u: int, n: nat, est: (int, int) -> real): seq<Recommendation> {
    RecommendFrom(rows, SortDesc(Predict(Candidates(rows, u), est), EstKey), n)
  }

  /** The first film row of movieId `m`, the one `drop_duplicates` keeps. */
  function FirstInfo(infos: seq<MovieInfo>, m: int): Option<MovieInfo> {
    var ms := MatchingInfos(infos, m);
    if ms == [] then None else Some(ms[0])
  }

  /** Each picked prediction with its film's first description. */
  function Described(picked: seq<Prediction>, infos: seq<MovieInfo>): seq<Recommendation> {
    seq(|picked|, k requires 0 <= k < |picked| => Recommendation(picked[k], FirstInfo(infos, picked[k].movieId)))
  }

  function RecommendationIds(rs: seq<Recommendation>): set<int> {
    set x | x in rs :: x.prediction.movieId
  }

  lemma {:induction false} DropDuplicatesAppend(a: seq<Recommendation>, b: seq<Recommendation>, seen: set<int>)
    ensures DropDuplicateMovies(a + b, seen)
            == DropDuplicateMovies(a, seen) + DropDuplicateMovies(b, seen + RecommendationIds(a))
  {
    if a == [] {
      assert a + b == b;
      assert RecommendationIds(a) == {};
      assert seen + RecommendationIds(a) == seen;
    } else {
      var id := a[0].prediction.movieId;
      var ab := a + b;
      assert ab != [] && ab[0] == a[0] && ab[1..] == a[1..] + b;
      RecommendationIdsCons(a);
      if id in seen {
        assert DropDuplicateMovies(ab, seen) == DropDuplicateMovies(a[1..] + b, seen);
        assert DropDuplicateMovies(a, seen) == DropDuplicateMovies(a[1..], seen);
        DropDuplicatesAppend(a[1..], b, seen);
        assert seen + RecommendationIds(a) == seen + RecommendationIds(a[1..]);
      } else {
        var seen' := seen + {id};
        var x := DropDuplicateMovies(a[1..], seen');
        var y := DropDuplicateMovies(b, seen' + RecommendationIds(a[1..]));
        assert DropDuplicateMovies(ab, seen) == [a[0]] + DropDuplicateMovies(a[1..] + b, seen');
        assert DropDuplicateMovies(a, seen) == [a[0]] + x;
        DropDuplicatesAppend(a[1..], b, seen');
        assert seen + RecommendationIds(a) == seen' + RecommendationIds(a[1..]);
        assert [a[0]] + (x + y) == ([a[0]] + x) + y;
      }
    }
  }

  lemma RecommendationIdsCons(a: seq<Recommendation>)
    requires a != []
    ensures RecommendationIds(a) == {a[0].prediction.movieId} + RecommendationIds(a[1..])
  {
    assert forall x :: x in a <==> x == a[0] || x in a[1..];
  }

  /** `drop_duplicates` keeps only rows of its input whose movieId was not
      seen before, never two rows of one film, and a row for every film of the
      input not seen before; the row it keeps for a film is the film's first
      row in the input. */
  lemma {:induction false} DropDuplicatesKeepsFirst(rs: seq<Recommendation>, seen: set<int>)
    ensures forall x :: x in DropDuplicateMovies(rs, seen) ==> x in rs && x.prediction.movieId !in seen
    ensures UniqueBy(DropDuplicateMovies(rs, seen), RecommendationId)
    ensures forall x :: x in rs && x.prediction.movieId !in seen
              ==> x.prediction.movieId in RecommendationIds(DropDuplicateMovies(rs, seen))
    ensures FirstRowsKept(DropDuplicateMovies(rs, seen), rs)
  {
    if rs != [] {
      var id := rs[0].prediction.movieId;
      assert forall x :: x in rs <==> x == rs[0] || x in rs[1..];
      if id in seen {
        DropDuplicatesKeepsFirst(rs[1..], seen);
        DropFirstRowShift(rs, DropDuplicateMovies(rs[1..], seen), seen);
      } else {
        DropDuplicatesKeepsFirst(rs[1..], seen + {id});
        var rest := DropDuplicateMovies(rs[1..], seen + {id});
        var r := DropDuplicateMovies(rs, seen);
        assert r == [rs[0]] + rest;
        RecommendationIdsCons(r);
        assert r[1..] == rest;
        forall i, j | 0 <= i < j < |r| ensures RecommendationId(r[i]) != RecommendationId(r[j]) {
          assert r[j] == rest[j - 1] && rest[j - 1] in rest;
          if i > 0 {
            assert r[i] == rest[i - 1];
          }
        }
        DropFirstRowShift(rs, rest, seen + {id});
        KeptFirstCons(rs, rest);
      }
    }
  }

  /** Every row of `kept` is the first row of its film in `rs`: it occurs
      among the first b rows whenever row b - 1 has its movieId. */
  predicate FirstRowsKept(kept: seq<Recommendation>, rs: seq<Recommendation>) {
    forall i, b {:trigger kept[i], rs[..b]} ::
      0 <= i < |kept| && 0 < b <= |rs| && rs[b - 1].prediction.movieId == kept[i].prediction.movieId
      ==> kept[i] in rs[..b]
  }

  /** First rows in `rs[1..]` of films other than `rs[0]`'s are first rows in `rs`. */
  lemma DropFirstRowShift(rs: seq<Recommendation>, kept: seq<Recommendation>, seen: set<int>)
    requires rs != []
    requires forall x :: x in kept ==> x.prediction.movieId !in seen
    requires rs[0].prediction.movieId in seen
    requires FirstRowsKept(kept, rs[1..])
    ensures FirstRowsKept(kept, rs)
  {
    forall i, b | 0 <= i < |kept| && 0 < b <= |rs| && rs[b - 1].prediction.movieId == kept[i].prediction.movieId
      ensures kept[i] in rs[..b]
    {
      assert kept[i] in kept;
      assert b > 1;
      assert rs[b - 1] == rs[1..][b - 2];
      assert kept[i] in rs[1..][..b - 1];
      assert rs[1..][..b - 1] == rs[..b][1..];
    }
  }

  /** `rs[0]` is the first row of its film, so it may head the kept rows. */
  lemma KeptFirstCons(rs: seq<Recommendation>, kept: seq<Recommendation>)
    requires rs != []
    requires FirstRowsKept(kept, rs)
    ensures FirstRowsKept([rs[0]] + kept, rs)
  {
    var r := [rs[0]] + kept;
    forall i, b | 0 <= i < |r| && 0 < b <= |rs| && rs[b - 1].prediction.movieId == r[i].prediction.movieId
      ensures r[i] in rs[..b]
    {
      if i == 0 {
        assert r[i] == rs[..b][0];
      } else {
        assert r[i] == kept[i - 1];
        assert kept[i - 1] in rs[..b];
      }
    }
  }

  lemma {:induction false} DropDuplicatesAllSeen(rs: seq<Recommendation>, seen: set<int>)
    requires forall x :: x in rs ==> x.prediction.movieId in seen
    ensures DropDuplicateMovies(rs, seen) == []
  {
    if rs != [] {
      DropDuplicatesAllSeen(rs[1..], seen);
    }
  }

  /** The rows of one prediction collapse to the first one. */
  lemma JoinOneDeduplicated(p: Prediction, matches: seq<MovieInfo>, seen: set<int>)
    requires p.movieId !in seen
    ensures DropDuplicateMovies(JoinOne(p, matches), seen)
            == [Recommendation(p, if matches == [] then None else Some(matches[0]))]
    ensures RecommendationIds(JoinOne(p, matches)) == {p.movieId}
  {
    var js := JoinOne(p, matches);
    assert js[0] == Recommendation(p, if matches == [] then None else Some(matches[0]));
    DropDuplicatesAllSeen(js[1..], seen + {p.movieId});
    assert js[0] in js;
  }

  /** Joining predictions with distinct movieIds and removing repeated
      movieIds leaves one row per prediction, in order, carrying the film's
      first description. */
  lemma {:induction false} JoinDeduplicated(picked: seq<Prediction>, infos: seq<MovieInfo>, seen: set<int>)
    requires UniqueBy(picked, PredictionId)
    requires forall p :: p in picked ==> p.movieId !in seen
    ensures DropDuplicateMovies(LeftJoin(picked, infos), seen) == Described(picked, infos)
  {
    if picked != [] {
      var p := picked[0];
      var ms := MatchingInfos(infos, p.movieId);
      assert LeftJoin(picked, infos) == JoinOne(p, ms) + LeftJoin(picked[1..], infos);
      DropDuplicatesAppend(JoinOne(p, ms), LeftJoin(picked[1..], infos), seen);
      JoinOneDeduplicated(p, ms, seen);
      forall q | q in picked[1..] ensures q.movieId !in seen + {p.movieId} {
        var k :| 0 <= k < |picked[1..]| && picked[1..][k] == q;
        assert PredictionId(picked[0]) != PredictionId(picked[k + 1]);
      }
      JoinDeduplicated(picked[1..], infos, seen + {p.movieId});
      assert Described(picked, infos) == [Recommendation(p, FirstInfo(infos, p.movieId))] + Described(picked[1..], infos);
    }
  }

  // ---------------------------------------------------------------------------
  // Properties of the output
  // ---------------------------------------------------------------------------

  /** For any admissible order of predictions with distinct films, the output
      is the first min(n, |preds|) ranked predictions, one row each, with the
      film's first description, and no film repeats. */
  lemma RecommendFromRanking(rows: seq<Row>, ranked: seq<Prediction>, preds: seq<Prediction>, n: nat)
    requires RanksPredictions(ranked, preds)
    requires UniqueBy(preds, PredictionId)
    ensures var r := RecommendFrom(rows, ranked, n);
            && |ranked| == |preds|
            && |r| == (if n < |preds| then n else |preds|)
            && (forall k :: 0 <= k < |r| ==> r[k] == Recommendation(ranked[k], FirstInfo(Infos(rows), ranked[k].movieId)))
            && UniqueBy(r, RecommendationId)
  {
    assert |ranked| == |multiset(ranked)| == |preds|;
    PermutationUniqueBy(preds, ranked, PredictionId);
    RecommendFromDescribed(rows, ranked, n);
  }

  /** For any admissible order, estimates in the output are non-increasing and
      no prediction left out has a higher estimate than one kept. */
  lemma RecommendFromKeepsBest(rows: seq<Row>, ranked: seq<Prediction>, preds: seq<Prediction>, n: nat)
    requires RanksPredictions(ranked, preds)
    requires UniqueBy(preds, PredictionId)
    ensures var r := RecommendFrom(rows, ranked, n);
            && (forall i, j :: 0 <= i < j < |r| ==> r[i].prediction.est >= r[j].prediction.est)
            && (forall p :: p in preds && (forall k :: 0 <= k < |r| ==> r[k].prediction.movieId != p.movieId)
                  ==> forall k :: 0 <= k < |r| ==> p.est <= r[k].prediction.est)
  {
    RecommendFromRanking(rows, ranked, preds, n);
    var r := RecommendFrom(rows, ranked, n);
    forall i, j | 0 <= i < j < |r| ensures r[i].prediction.est >= r[j].prediction.est {
      assert AtLeast(EstKey(ranked[i]), EstKey(ranked[j]));
    }
    forall p | p in preds && (forall k :: 0 <= k < |r| ==> r[k].prediction.movieId != p.movieId)
      ensures forall k :: 0 <= k < |r| ==> p.est <= r[k].prediction.est
    {
      assert p in multiset(ranked);
      var t :| 0 <= t < |ranked| && ranked[t] == p;
      assert forall k :: 0 <= k < |r| ==> ranked[k] != p;
      assert |r| <= t;
      forall k | 0 <= k < |r| ensures p.est <= r[k].prediction.est {
        assert AtLeast(EstKey(ranked[k]), EstKey(ranked[t]));
      }
    }
  }

  /** With distinct films, the de-duplication removes nothing but the
      join's repeated rows: one row per kept prediction, in ranked order. */
  lemma RecommendFromDescribed(rows: seq<Row>, ranked: seq<Prediction>, n: nat)
    requires UniqueBy(ranked, PredictionId)
    ensures RecommendFrom(rows, ranked, n) == Described(Take(ranked, n), Infos(rows))
  {
    var picked := Take(ranked, n);
    assert UniqueBy(picked, PredictionId);
    JoinDeduplicated(picked, Infos(rows), {});
  }

  /** The predictions of one user's candidates carry distinct films. */
  lemma PredictionsUnique(rows: seq<Row>, u: int, est: (int, int) -> real)
    ensures UniqueBy(Predict(Candidates(rows, u), est), PredictionId)
  {
    var cs := Candidates(rows, u);
    CandidatesAreUnratedPairs(rows, u);
    var ps := Predict(cs, est);
    forall i, j | 0 <= i < j < |ps| ensures PredictionId(ps[i]) != PredictionId(ps[j]) {
      assert CandidateId(cs[i]) != CandidateId(cs[j]);
    }
  }

  /** The output has min(n, number of candidates) rows with distinct films,
      estimates non-increasing, and no candidate left out is estimated above
      a film returned. */
  lemma UserBasedSelection(rows: seq<Row>, u: int, n: nat, est: (int, int) -> real)
    ensures var r := UserBasedRecommendations(rows, u, n, est);
            var cs := Candidates(rows, u);
            && |r| == (if n < |cs| then n else |cs|)
            && UniqueBy(r, RecommendationId)
            && (forall i, j :: 0 <= i < j < |r| ==> r[i].prediction.est >= r[j].prediction.est)
            && (forall c :: c in cs && (forall k :: 0 <= k < |r| ==> r[k].prediction.movieId != c.movieId)
                  ==> forall k :: 0 <= k < |r| ==> est(u, c.movieId) <= r[k].prediction.est)
  {
    var cs := Candidates(rows, u);
    CandidatesAreUnratedPairs(rows, u);
    assert forall c :: c in cs ==> c.userId == u;
    CandidateSelection(rows, cs, u, n, est);
  }

  /** The selection for any candidate list of one user with distinct films. */
  lemma CandidateSelection(rows: seq<Row>, cs: seq<Candidate>, u: int, n: nat, est: (int, int) -> real)
    requires UniqueBy(cs, CandidateId)
    requires forall c :: c in cs ==> c.userId == u
    ensures var r := RecommendFrom(rows, SortDesc(Predict(cs, est), EstKey), n);
            && |r| == (if n < |cs| then n else |cs|)
            && UniqueBy(r, RecommendationId)
            && (forall i, j :: 0 <= i < j < |r| ==> r[i].prediction.est >= r[j].prediction.est)
            && (forall c :: c in cs && (forall k :: 0 <= k < |r| ==> r[k].prediction.movieId != c.movieId)
                  ==> forall k :: 0 <= k < |r| ==> est(u, c.movieId) <= r[k].prediction.est)
  {
    var ps := Predict(cs, est);
    forall i, j | 0 <= i < j < |ps| ensures PredictionId(ps[i]) != PredictionId(ps[j]) {
      assert CandidateId(cs[i]) != CandidateId(cs[j]);
    }
    RecommendFromRanking(rows, SortDesc(ps, EstKey), ps, n);
    RecommendFromKeepsBest(rows, SortDesc(ps, EstKey), ps, n);
    forall c | c in cs ensures Prediction(u, c.movieId, c.fill, est(u, c.movieId)) in ps {
      var k :| 0 <= k < |cs| && cs[k] == c;
      assert ps[k] == Prediction(u, c.movieId, c.fill, est(u, c.movieId));
    }
  }

  /** Every output row is a prediction for user `u` of a film of the table
      that `u` has not rated, with the trained estimate, the global mean as
      placeholder, and that film's first (movieId, title, tmdbId) row. */
  lemma UserBasedRows(rows: seq<Row>, u: int, n: nat, est: (int, int) -> real)
    ensures var r := UserBasedRecommendations(rows, u, n, est);
            forall k :: 0 <= k < |r| ==>
              var m := r[k].prediction.movieId;
              && r[k].prediction == Prediction(u, m, GlobalMean(rows), est(u, m))
              && m in MovieIds(rows)
              && (forall i :: 0 <= i < |rows| ==> !(rows[i].userId == u && rows[i].movieId == m))
              && r[k].info.Some? && r[k].info.value in Infos(rows) && r[k].info.value.movieId == m
  {
    var cs := Candidates(rows, u);
    var ps := Predict(cs, est);
    var ranked := SortDesc(ps, EstKey);
    var r := UserBasedRecommendations(rows, u, n, est);
    PredictionsUnique(rows, u, est);
    RecommendFromRanking(rows, ranked, ps, n);
    CandidatesAreUnratedPairs(rows, u);
    forall k | 0 <= k < |r|
      ensures var m := r[k].prediction.movieId;
              && r[k].prediction == Prediction(u, m, GlobalMean(rows), est(u, m))
              && m in MovieIds(rows)
              && (forall i :: 0 <= i < |rows| ==> !(rows[i].userId == u && rows[i].movieId == m))
              && r[k].info.Some? && r[k].info.value in Infos(rows) && r[k].info.value.movieId == m
    {
      assert ranked[k] in multiset(ps);
      var j :| 0 <= j < |ps| && ps[j] == ranked[k];
      assert cs[j] in cs;
      MatchingInfosPresent(rows, cs[j].movieId);
    }
  }

  /** In a consistent table the description kept for a film is the one every
      row of that film carries. */
  lemma {:induction false} FirstInfoConsistent(rows: seq<Row>, i: nat)
    requires Consistent(rows)
    requires i < |rows|
    ensures FirstInfo(Infos(rows), rows[i].movieId) == Some(rows[i].Info())
  {
    var m := rows[i].movieId;
    assert MovieIds(rows)[i] == m;
    MatchingInfosPresent(rows, m);
    var x := MatchingInfos(Infos(rows), m)[0];
    assert x in MatchingInfos(Infos(rows), m);
    var j :| 0 <= j < |rows| && Infos(rows)[j] == x;
    assert rows[j].movieId == m;
  }

  /** As written, the function answers exactly when the user has a candidate,
      and then with the same table as the corrected version; so every property
      of `UserBasedRecommendations` holds for its answers. */
  lemma UserBasedAsWritten(rows: seq<Row>, u: int, n: nat, est: (int, int) -> real)
    ensures var out := UserBasedRecommender(rows, u, n, est);
            && (out.UserRecs? <==> Candidates(rows, u) != [])
            && (out.UserRecs? ==> out.recs == UserBasedRecommendations(rows, u, n, est))
  {
  }

  /** The corrected table is empty exactly when there is nothing to recommend:
      no candidate, or n = 0. */
  lemma UserBasedEmptyIff(rows: seq<Row>, u: int, n: nat, est: (int, int) -> real)
    ensures UserBasedRecommendations(rows, u, n, est) == [] <==> Candidates(rows, u) == [] || n == 0
  {
    UserBasedSelection(rows, u, n, est);
  }

  /** A user with no rating in the table: as written `nlargest` fails; the
      corrected table is empty. */
  lemma UserBasedUnknownUser(rows: seq<Row>, u: int, n: nat, est: (int, int) -> real)
    requires u !in UserIds(rows)
    ensures UserBasedRecommender(rows, u, n, est) == NlargestTypeError
    ensures UserBasedRecommendations(rows, u, n, est) == []
  {
    CandidatesExact(rows, u);
    UserBasedEmptyIff(rows, u, n, est);
  }

  /** A user who has rated every film of the table: as written `nlargest`
      fails; the corrected table is empty. */
  lemma UserBasedNothingLeft(rows: seq<Row>, u: int, n: nat, est: (int, int) -> real)
    requires forall m :: m in MovieIds(rows) ==> Rated(rows, u, m)
    ensures UserBasedRecommender(rows, u, n, est) == NlargestTypeError
    ensures UserBasedRecommendations(rows, u, n, est) == []
  {
    var cs := Candidates(rows, u);
    CandidatesAreUnratedPairs(rows, u);
    assert cs == [] by {
      if cs != [] {
        PairRatingsEmpty(rows, u, cs[0].movieId);
      }
    }
    UserBasedEmptyIff(rows, u, n, est);
  }
}

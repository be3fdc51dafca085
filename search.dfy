/** The search box: the first film whose title contains the query, ignoring
    letter case, becomes the film the item-based recommendations start from;
    an empty query or a query no title contains falls back to film 1. */
module Search {
  import opened Ratings

  /** The film used when there is nothing to search for or nothing is found. */
  const DefaultMovieId: int := 1

  /** ASCII upper-case letters folded to lower case; every other character unchanged. */
  function FoldChar(c: char): (d: char)
    ensures 'A' <= c <= 'Z' ==> d as int == c as int + 32
    ensures !('A' <= c <= 'Z') ==> d == c
  {
    if 'A' <= c <= 'Z' then (c as int + 32) as char else c
  }

  /** The text in lower case: same length, no upper-case ASCII letter left,
      and every other character kept. */
  function Fold(s: string): (r: string)
    ensures |r| == |s|
    ensures forall i :: 0 <= i < |s| ==> r[i] == FoldChar(s[i])
    ensures forall i :: 0 <= i < |r| ==> !('A' <= r[i] <= 'Z')
    ensures forall i :: 0 <= i < |s| && !('A' <= s[i] <= 'Z') ==> r[i] == s[i]
  {
    seq(|s|, i requires 0 <= i < |s| => FoldChar(s[i]))
  }

  /** `q` occurs in `t` starting at position `i`, ignoring case. */
  predicate OccursAt(t: string, q: string, i: nat) {
    i + |q| <= |t| && Fold(t[i..i + |q|]) == Fold(q)
  }

  /** The scan: `q` occurs at the start of `t` or somewhere in its tail. */
  predicate ContainsIgnoringCase(t: string, q: string)
    decreases |t|
  {
    OccursAt(t, q, 0) || (t != [] && ContainsIgnoringCase(t[1..], q))
  }

  /** The scan agrees with the positional definition, in both directions. */
  lemma {:induction false} ContainsIffOccurs(t: string, q: string)
    ensures ContainsIgnoringCase(t, q) <==> exists i :: 0 <= i <= |t| && OccursAt(t, q, i)
    decreases |t|
  {
    if t != [] {
      ContainsIffOccurs(t[1..], q);
      forall i | 0 <= i && i + 1 <= |t| ensures OccursAt(t[1..], q, i) <==> OccursAt(t, q, i + 1) {
        if i + |q| <= |t[1..]| {
          assert t[1..][i..i + |q|] == t[i + 1..i + 1 + |q|];
        }
      }
      if ContainsIgnoringCase(t[1..], q) {
        var i :| 0 <= i <= |t[1..]| && OccursAt(t[1..], q, i);
        assert OccursAt(t, q, i + 1);
      }
      if exists i :: 0 <= i <= |t| && OccursAt(t, q, i) {
        var i :| 0 <= i <= |t| && OccursAt(t, q, i);
        if i > 0 {
          assert OccursAt(t[1..], q, i - 1);
        }
      }
    }
  }

  /** The position of the first row whose title contains `q`, if any. */
  function FirstMatch(rows: seq<Row>, q: string): (r: Option<nat>)
    ensures r.Some? ==> r.value < |rows| && ContainsIgnoringCase(rows[r.value].title, q)
                        && forall j :: 0 <= j < r.value ==> !ContainsIgnoringCase(rows[j].title, q)
    ensures r.None? ==> forall j :: 0 <= j < |rows| ==> !ContainsIgnoringCase(rows[j].title, q)
  {
    if rows == [] then None
    else if ContainsIgnoringCase(rows[0].title, q) then Some(0)
    else
      match FirstMatch(rows[1..], q)
      case None => None
      case Some(k) => Some(k + 1)
  }

  /** The film the recommendations start from for the text typed in the
      search box: for a non-empty query, the movieId of the first row whose
      title contains it ignoring case; with no such row, or an empty query,
      film 1. */
  function SearchMovieId(rows: seq<Row>, query: string): (r: int)
    ensures query == [] ==> r == DefaultMovieId
    ensures (query != [] && forall j :: 0 <= j < |rows| ==> !ContainsIgnoringCase(rows[j].title, query))
            ==> r == DefaultMovieId
    ensures forall i :: 0 <= i < |rows| && query != [] && ContainsIgnoringCase(rows[i].title, query)
              && (forall j :: 0 <= j < i ==> !ContainsIgnoringCase(rows[j].title, query))
              ==> r == rows[i].movieId
  {
    if query == [] then DefaultMovieId
    else
      match FirstMatch(rows, query)
      case None => DefaultMovieId
      case Some(i) =>
        assert forall k :: 0 <= k < |rows| && ContainsIgnoringCase(rows[k].title, query) ==> i <= k;
        rows[i].movieId
  }

  /** Letter case in the title or the query does not change the outcome. */
  lemma {:induction false} ContainsFoldInvariant(t: string, q: string)
    ensures ContainsIgnoringCase(Fold(t), Fold(q)) <==> ContainsIgnoringCase(t, q)
    decreases |t|
  {
    FoldTwice(q);
    if t != [] {
      assert Fold(t)[1..] == Fold(t[1..]);
      ContainsFoldInvariant(t[1..], q);
    }
    if |q| <= |t| {
      assert Fold(t)[0..|q|] == Fold(t[0..|q|]);
      FoldTwice(t[0..|q|]);
    }
  }

  lemma FoldTwice(s: string)
    ensures Fold(Fold(s)) == Fold(s)
  {
    assert forall i :: 0 <= i < |s| ==> FoldChar(FoldChar(s[i])) == FoldChar(s[i]);
  }

  /** A title always contains itself, in any letter case. */
  lemma ContainsItself(t: string)
    ensures ContainsIgnoringCase(t, t)
  {
    assert t[0..|t|] == t;
  }
}

/** `display_movie_posters`: the films of a result table laid out four to a
    row, row by row. The poster lookup is a parameter `posterUrl` (it calls a
    web service); the page header and the widgets themselves are not modelled. */
module PosterGrid {
  import opened Ratings

  const ColsPerRow: nat := 4

  /** One poster on the page: its grid row, its column within the row, the
      image shown and its caption. */
  datatype Placement = Placement(row: nat, slot: nat, url: string, caption: string)

  /** `len // 4 + (len % 4 > 0)`: the number of rows of four that hold `len` films. */
  function RowsNeeded(len: nat): (r: nat)
    ensures r * ColsPerRow >= len
    ensures r == 0 || (r - 1) * ColsPerRow < len
    ensures r == 0 <==> len == 0
  {
    len / ColsPerRow + (if len % ColsPerRow > 0 then 1 else 0)
  }

  /** The grid cell of the film at position k. */
  lemma SlotOfIndex(i: nat, idx: nat)
    requires idx < ColsPerRow
    ensures (i * ColsPerRow + idx) / ColsPerRow == i
    ensures (i * ColsPerRow + idx) % ColsPerRow == idx
  {
  }

  /** Walks the rows and, in each, the four columns, placing the film whose
      position is `row * 4 + column` when there is one. Every film is placed
      exactly once, in table order, at row k / 4 and column k % 4, with its
      poster and its title. */
  method DisplayMoviePosters(movies: seq<MovieInfo>, posterUrl: Option<int> -> string)
    returns (rowsNeeded: nat, shown: seq<Placement>)
    ensures rowsNeeded == RowsNeeded(|movies|)
    ensures |shown| == |movies|
    ensures forall k :: 0 <= k < |shown| ==>
              shown[k] == Placement(k / ColsPerRow, k % ColsPerRow, posterUrl(movies[k].tmdbId), movies[k].title)
  {
    rowsNeeded := |movies| / ColsPerRow + (if |movies| % ColsPerRow > 0 then 1 else 0);
    shown := [];
    var i := 0;
    while i < rowsNeeded
      invariant 0 <= i <= rowsNeeded
      invariant |shown| == if i * ColsPerRow < |movies| then i * ColsPerRow else |movies|
      invariant forall k :: 0 <= k < |shown| ==>
                  shown[k] == Placement(k / ColsPerRow, k % ColsPerRow, posterUrl(movies[k].tmdbId), movies[k].title)
    {
      var idx := 0;
      while idx < ColsPerRow
        invariant 0 <= idx <= ColsPerRow
        invariant |shown| == if i * ColsPerRow + idx < |movies| then i * ColsPerRow + idx else |movies|
        invariant forall k :: 0 <= k < |shown| ==>
                    shown[k] == Placement(k / ColsPerRow, k % ColsPerRow, posterUrl(movies[k].tmdbId), movies[k].title)
      {
        var movieIndex := i * ColsPerRow + idx;
        if movieIndex < |movies| {
          var movie := movies[movieIndex];
          SlotOfIndex(i, idx);
          shown := shown + [Placement(i, idx, posterUrl(movie.tmdbId), movie.title)];
        }
        idx := idx + 1;
      }
      i := i + 1;
    }
  }

  /** Distinct films land in distinct cells, each inside the grid. */
  lemma CellsDistinct(len: nat, j: nat, k: nat)
    requires j < k < len
    ensures (j / ColsPerRow, j % ColsPerRow) != (k / ColsPerRow, k % ColsPerRow)
    ensures k / ColsPerRow < RowsNeeded(len) && k % ColsPerRow < ColsPerRow
  {
    assert j == (j / ColsPerRow) * ColsPerRow + j % ColsPerRow;
    assert k == (k / ColsPerRow) * ColsPerRow + k % ColsPerRow;
  }
}

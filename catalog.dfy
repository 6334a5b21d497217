/**
 * Movies as the server hands them out (`{ id, title, poster_path }`) and the
 * two look-ups the session engine does on a room's movie list.
 *
 * Ids are modelled as strings. The server's TMDb ids are numbers
 * (server.js:87); the client sends them back as strings taken from a card's
 * `data-movie-id`, and the swipe ledger keys its object by that string. The
 * match look-up's loose `==` converts the string to a number before comparing,
 * so in the program "05" and "5.0" find movie 5. The model compares the
 * strings themselves, which agrees with the program for the canonical decimal
 * spelling the client echoes back. The empty string stands for a missing or
 * falsy id.
 */
module Catalog {
  import opened Wrappers

  datatype Movie = Movie(id: string, title: string, posterPath: string)

  /** `movies.find(m => m.id == movieId)`: the first movie carrying the id. */
  function FindMovie(movies: seq<Movie>, id: string): (r: Option<Movie>)
    ensures r.None? <==> forall i :: 0 <= i < |movies| ==> movies[i].id != id
    ensures r.Some? ==> exists i :: 0 <= i < |movies| && movies[i] == r.value
                          && movies[i].id == id
                          && forall j :: 0 <= j < i ==> movies[j].id != id
  {
    if movies == [] then None
    else if movies[0].id == id then Some(movies[0])
    else
      var r := FindMovie(movies[1..], id);
      assert forall i :: 1 <= i < |movies| ==> movies[i] == movies[1..][i - 1];
      if r.Some? then
        ghost var k :| 0 <= k < |movies[1..]| && movies[1..][k] == r.value
                       && movies[1..][k].id == id
                       && forall j :: 0 <= j < k ==> movies[1..][j].id != id;
        assert movies[k + 1] == r.value;
        r
      else r
  }

  /** `movies.map(m => m.id)`: the ids of a room's movies, in order. */
  function MovieIds(movies: seq<Movie>): (ids: seq<string>)
    ensures |ids| == |movies|
    ensures forall i :: 0 <= i < |movies| ==> ids[i] == movies[i].id
  {
    if movies == [] then [] else [movies[0].id] + MovieIds(movies[1..])
  }
}

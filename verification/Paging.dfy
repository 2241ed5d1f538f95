/** Following cursors over one ordered list, whatever a cursor is. */
module Paging {
  import opened Prelude

  type Fetch<!C, T> = (Option<C>, nat) -> (seq<T>, Option<C>)

  /** Where a request resumes: the start, or the position its cursor names. */
  ghost predicate From<C>(cursor: Option<C>, position: nat, names: (C, nat) -> bool) {
    match cursor
    case None => position == 0
    case Some(c) => names(c, position)
  }

  /** The reply is the next `limit` rows, and it carries a cursor exactly when rows remain. */
  ghost predicate Fits<C, T>(
    reply: (seq<T>, Option<C>), rows: seq<T>, position: nat, limit: nat, names: (C, nat) -> bool)
  {
    && position <= |rows|
    && (if position + limit >= |rows| then reply == (rows[position..], None)
        else reply.0 == rows[position..position + limit] && reply.1.Some? && names(reply.1.value, position + limit))
  }

  ghost predicate Serves<C(!new), T>(fetch: Fetch<C, T>, rows: seq<T>, max: nat, names: (C, nat) -> bool) {
    forall cursor: Option<C>, position: nat, limit: nat ::
      From(cursor, position, names) && position <= |rows| && 1 <= limit <= max ==>
        Fits(fetch(cursor, limit), rows, position, limit, names)
  }

  /** Ask page after page until no cursor comes back; the rows seen, and whether the walk ended. */
  function Walk<C, T>(fetch: Fetch<C, T>, cursor: Option<C>, limits: seq<nat>): (seq<T>, bool)
    decreases |limits|
  {
    if limits == [] then ([], false)
    else
      var (page, next) := fetch(cursor, limits[0]);
      if next.None? then (page, true)
      else
        var (rest, ended) := Walk(fetch, next, limits[1..]);
        (page + rest, ended)
  }

  /**
    For any page limits the rows seen are the rows from where the walk began, in order, once each:
    all of them when it ends, and at least one a page until then.
   */
  lemma {:induction false} WalkCovers<C(!new), T>(
    fetch: Fetch<C, T>, rows: seq<T>, max: nat, names: (C, nat) -> bool,
    cursor: Option<C>, position: nat, limits: seq<nat>)
    requires Serves(fetch, rows, max, names)
    requires From(cursor, position, names) && position <= |rows|
    requires forall i :: 0 <= i < |limits| ==> 1 <= limits[i] <= max
    ensures var (seen, ended) := Walk(fetch, cursor, limits);
      && position + |seen| <= |rows| && seen == rows[position..position + |seen|]
      && (ended ==> position + |seen| == |rows|)
      && (!ended ==> |seen| >= |limits|)
    decreases |limits|
  {
    if limits != [] {
      assert Fits(fetch(cursor, limits[0]), rows, position, limits[0], names);
      var (page, next) := fetch(cursor, limits[0]);
      if next.Some? {
        WalkCovers(fetch, rows, max, names, next, position + limits[0], limits[1..]);
      }
    }
  }

  /**
    The rows seen are the first rows in order, once each. The walk ends having seen all of them, and it
    ends when it may ask more pages than there are rows.
   */
  ghost predicate Visits<T>(walk: (seq<T>, bool), rows: seq<T>, pages: nat) {
    && walk.0 <= rows
    && (walk.1 ==> walk.0 == rows)
    && (pages > |rows| ==> walk.1)
  }

  lemma WalkVisits<C(!new), T>(
    fetch: Fetch<C, T>, rows: seq<T>, max: nat, names: (C, nat) -> bool, limits: seq<nat>)
    requires Serves(fetch, rows, max, names)
    requires forall i :: 0 <= i < |limits| ==> 1 <= limits[i] <= max
    ensures Visits(Walk(fetch, None, limits), rows, |limits|)
  {
    WalkCovers(fetch, rows, max, names, None, 0, limits);
    assert rows[0..|rows|] == rows;
  }
}

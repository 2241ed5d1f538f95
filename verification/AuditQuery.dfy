/**
  One page of the audit log, and the walk over all its pages.

  A digest is the filter it digests and an authenticator is the key and the fields it was made from,
  so neither collides; an entry that cannot be decrypted has no event.
 */
module AuditQuery {
  import opened Prelude
  import opened Text
  import opened Paging

  datatype Event = Event(
    timestamp: u64, identity: Option<Id>, path: Option<Bytes>, outcome: u16, operation: u16, details: nat)

  datatype Entry = Entry(sequence: u64, event: Option<Event>)

  datatype View = View(sequence: u64, event: Event)

  datatype Filter = Filter(
    minimumTime: Option<u64>, maximumTime: Option<u64>, identity: Option<Id>, prefix: Option<Bytes>,
    outcome: Option<u16>, operation: Option<u16>, minimumSequence: Option<u64>, maximumSequence: Option<u64>)

  datatype Seal = Seal(key: nat, store: Id, cutoff: u64, filter: Filter, after: u64)

  datatype Cursor = Cursor(store: Id, cutoff: u64, filter: Filter, after: u64, authenticator: Seal)

  datatype QueryError = Invalid | Unauthorized | Conflict | Crypto

  datatype Request = Request(
    store: Id, filter: Filter, limit: nat, cursor: Option<Cursor>, key: nat, authorized: bool)

  datatype Page = Page(cutoff: u64, views: seq<View>, next: Option<Cursor>)

  const MAX_QUERY_PAGE: nat := 100

  /** Rust's order on options: nothing is below something. */
  predicate Exceeds(a: Option<u64>, b: Option<u64>) {
    a.Some? && (b.None? || a.value > b.value)
  }

  predicate ValidFilter(f: Filter) {
    && !Exceeds(f.minimumTime, f.maximumTime) && !Exceeds(f.minimumSequence, f.maximumSequence)
    && f.minimumSequence != Some(0)
    && (f.prefix.Some? ==> 0 < |f.prefix.value| <= 4096 && 0 !in f.prefix.value)
  }

  predicate Matches(f: Filter, sequence: u64, e: Event) {
    && (f.minimumTime.Some? ==> e.timestamp >= f.minimumTime.value)
    && (f.maximumTime.Some? ==> e.timestamp <= f.maximumTime.value)
    && (f.minimumSequence.Some? ==> sequence >= f.minimumSequence.value)
    && (f.maximumSequence.Some? ==> sequence <= f.maximumSequence.value)
    && (f.identity.Some? ==> e.identity == f.identity)
    && (f.outcome.Some? ==> e.outcome == f.outcome.value)
    && (f.operation.Some? ==> e.operation == f.operation.value)
    && (f.prefix.Some? ==> e.path.Some? && f.prefix.value <= e.path.value)
  }

  function Cutoff(entries: seq<Entry>): u64 {
    if entries == [] then 0 else Max(entries[0].sequence, Cutoff(entries[1..]))
  }

  function NewCursor(key: nat, store: Id, cutoff: u64, f: Filter, after: u64): Cursor {
    Cursor(store, cutoff, f, after, Seal(key, store, cutoff, f, after))
  }

  predicate Authentic(c: Cursor, key: nat) {
    c.authenticator == Seal(key, c.store, c.cutoff, c.filter, c.after)
  }

  /** The scan of the entries, having already collected `views`. */
  function Scan(entries: seq<Entry>, after: u64, cutoff: u64, f: Filter, limit: nat, views: seq<View>)
    : Result<(seq<View>, bool), QueryError>
    decreases |entries|
  {
    if entries == [] then Ok((views, false))
    else
      var entry := entries[0];
      if !(after < entry.sequence <= cutoff) then Scan(entries[1..], after, cutoff, f, limit, views)
      else if entry.event.None? then Err(Crypto)
      else if !Matches(f, entry.sequence, entry.event.value) then Scan(entries[1..], after, cutoff, f, limit, views)
      else if |views| == limit then Ok((views, true))
      else Scan(entries[1..], after, cutoff, f, limit, views + [View(entry.sequence, entry.event.value)])
  }

  /** `barrier` is the final authorization and audit step, which may still refuse. */
  function Query(entries: seq<Entry>, q: Request, barrier: Option<QueryError>): Result<Page, QueryError> {
    if !ValidFilter(q.filter) then Err(Invalid)
    else if !q.authorized || q.store == 0 || !(1 <= q.limit <= MAX_QUERY_PAGE) then Err(Unauthorized)
    else
      var cutoff := Cutoff(entries);
      if q.cursor.Some? && !(Authentic(q.cursor.value, q.key) && q.cursor.value.store == q.store
                             && q.cursor.value.cutoff == cutoff && q.cursor.value.filter == q.filter)
      then Err(Conflict)
      else
        var after := if q.cursor.Some? then q.cursor.value.after else 0;
        match Scan(entries, after, cutoff, q.filter, q.limit, [])
        case Err(e) => Err(e)
        case Ok((views, more)) =>
          if barrier.Some? then Err(barrier.value)
          else
            var last := if views == [] then after else views[|views| - 1].sequence;
            Ok(Page(cutoff, views, if more then Some(NewCursor(q.key, q.store, cutoff, q.filter, last)) else None))
  }

  /** The page as the source builds it, breaking off at the first match too many. */
  method QuerySnapshot(entries: seq<Entry>, q: Request, barrier: Option<QueryError>)
    returns (r: Result<Page, QueryError>)
    ensures r == Query(entries, q, barrier)
  {
    if !ValidFilter(q.filter) { return Err(Invalid); }
    if !q.authorized || q.store == 0 || !(1 <= q.limit <= MAX_QUERY_PAGE) { return Err(Unauthorized); }
    var cutoff := Cutoff(entries);
    var after: u64 := 0;
    if q.cursor.Some? {
      var cursor := q.cursor.value;
      if !(Authentic(cursor, q.key) && cursor.store == q.store && cursor.cutoff == cutoff
           && cursor.filter == q.filter)
      {
        return Err(Conflict);
      }
      after := cursor.after;
    }
    var views: seq<View> := [];
    var more := false;
    var i := 0;
    while i < |entries| && !more
      invariant i <= |entries|
      invariant Scan(entries, after, cutoff, q.filter, q.limit, [])
             == if more then Ok((views, true)) else Scan(entries[i..], after, cutoff, q.filter, q.limit, views)
      decreases |entries| - i, !more
    {
      var entry := entries[i];
      assert entries[i..][1..] == entries[i + 1..];
      if after < entry.sequence <= cutoff {
        if entry.event.None? { return Err(Crypto); }
        if Matches(q.filter, entry.sequence, entry.event.value) {
          if |views| == q.limit {
            more := true;
            break;
          }
          views := views + [View(entry.sequence, entry.event.value)];
        }
      }
      i := i + 1;
    }
    if barrier.Some? { return Err(barrier.value); }
    var last := if views == [] then after else views[|views| - 1].sequence;
    return Ok(Page(cutoff, views, if more then Some(NewCursor(q.key, q.store, cutoff, q.filter, last)) else None));
  }

  // ---------------------------------------------------------------- what the pages add up to

  ghost predicate Readable(entries: seq<Entry>) {
    && (forall i :: 0 <= i < |entries| ==> entries[i].event.Some? && entries[i].sequence > 0)
    && (forall i, j :: 0 <= i < j < |entries| ==> entries[i].sequence < entries[j].sequence)
  }

  /** The matching entries after a sequence number, in log order. */
  function RowsAfter(entries: seq<Entry>, f: Filter, after: nat): seq<View> {
    if entries == [] then []
    else
      var rest := RowsAfter(entries[1..], f, after);
      var entry := entries[0];
      if entry.sequence > after && entry.event.Some? && Matches(f, entry.sequence, entry.event.value)
      then [View(entry.sequence, entry.event.value)] + rest
      else rest
  }

  lemma {:induction false} CutoffCovers(entries: seq<Entry>)
    ensures forall i :: 0 <= i < |entries| ==> entries[i].sequence <= Cutoff(entries)
  {
    if entries != [] {
      CutoffCovers(entries[1..]);
      forall i | 0 <= i < |entries|
        ensures entries[i].sequence <= Cutoff(entries)
      {
        if i > 0 { assert entries[i] == entries[1..][i - 1]; }
      }
    }
  }

  lemma {:induction false} ScanTakesFirst(
    entries: seq<Entry>, after: u64, cutoff: u64, f: Filter, limit: nat, views: seq<View>)
    requires Readable(entries) && |views| <= limit
    requires forall i :: 0 <= i < |entries| ==> entries[i].sequence <= cutoff
    ensures var all := views + RowsAfter(entries, f, after);
      Scan(entries, after, cutoff, f, limit, views)
      == Ok(if |all| > limit then (all[..limit], true) else (all, false))
    decreases |entries|
  {
    if entries != [] {
      var entry, rest := entries[0], entries[1..];
      if entry.sequence > after && Matches(f, entry.sequence, entry.event.value) {
        var view := View(entry.sequence, entry.event.value);
        var tail := RowsAfter(rest, f, after);
        assert views + ([view] + tail) == (views + [view]) + tail;
        if |views| < limit {
          ScanTakesFirst(rest, after, cutoff, f, limit, views + [view]);
        } else {
          assert (views + ([view] + tail))[..limit] == views;
        }
      } else {
        ScanTakesFirst(rest, after, cutoff, f, limit, views);
      }
    } else {
      assert views + [] == views;
    }
  }

  lemma {:induction false} RowsAreEntries(entries: seq<Entry>, f: Filter, after: nat, low: nat)
    requires forall i :: 0 <= i < |entries| ==> entries[i].sequence > low
    ensures forall k :: 0 <= k < |RowsAfter(entries, f, after)| ==> RowsAfter(entries, f, after)[k].sequence > low
    ensures low >= after ==> RowsAfter(entries, f, after) == RowsAfter(entries, f, low)
  {
    if entries != [] { RowsAreEntries(entries[1..], f, after, low); }
  }

  /** What follows a row's sequence number is what follows the row. */
  lemma {:induction false} RowsResume(entries: seq<Entry>, f: Filter, after: nat, k: nat)
    requires Readable(entries) && 0 < k <= |RowsAfter(entries, f, after)|
    ensures RowsAfter(entries, f, RowsAfter(entries, f, after)[k - 1].sequence) == RowsAfter(entries, f, after)[k..]
    ensures RowsAfter(entries, f, after)[k - 1].sequence > after
    decreases |entries|
  {
    var entry, rest := entries[0], entries[1..];
    var rows, tail := RowsAfter(entries, f, after), RowsAfter(rest, f, after);
    RowsAreEntries(rest, f, after, entry.sequence);
    if rows == tail {
      RowsResume(rest, f, after, k);
    } else if k > 1 {
      RowsResume(rest, f, after, k - 1);
      assert rows[k..] == tail[k - 1..];
    }
  }

  /** The cursor made after the row before a position names that position. */
  ghost predicate Named(entries: seq<Entry>, key: nat, store: Id, f: Filter, c: Cursor, position: nat) {
    var rows := RowsAfter(entries, f, 0);
    0 < position <= |rows| && c == NewCursor(key, store, Cutoff(entries), f, rows[position - 1].sequence)
  }

  ghost function Names(entries: seq<Entry>, key: nat, store: Id, f: Filter): (Cursor, nat) -> bool {
    (c: Cursor, position: nat) => Named(entries, key, store, f, c, position)
  }

  predicate Askable(q: Request) { ValidFilter(q.filter) && q.authorized && q.store != 0 }

  /** A page resumed at a cursor is the next rows of the log, with a cursor exactly when more remain. */
  lemma PageFits(entries: seq<Entry>, q: Request, position: nat)
    requires Readable(entries) && Askable(q) && 1 <= q.limit <= MAX_QUERY_PAGE
    requires position <= |RowsAfter(entries, q.filter, 0)|
    requires From(q.cursor, position, Names(entries, q.key, q.store, q.filter))
    ensures Query(entries, q, None).Ok?
    ensures var page := Query(entries, q, None).value;
      Fits((page.views, page.next), RowsAfter(entries, q.filter, 0), position, q.limit,
           Names(entries, q.key, q.store, q.filter))
  {
    var rows, cutoff := RowsAfter(entries, q.filter, 0), Cutoff(entries);
    var after := if q.cursor.Some? then q.cursor.value.after else 0;
    if q.cursor.Some? { RowsResume(entries, q.filter, 0, position); }
    assert RowsAfter(entries, q.filter, after) == rows[position..];
    CutoffCovers(entries);
    ScanTakesFirst(entries, after, cutoff, q.filter, q.limit, []);
    assert [] + rows[position..] == rows[position..];
    var page := Query(entries, q, None).value;
    if position + q.limit < |rows| {
      assert rows[position..][..q.limit] == rows[position..position + q.limit];
      assert page.next.Some? && Named(entries, q.key, q.store, q.filter, page.next.value, position + q.limit);
    }
  }

  function Ask(entries: seq<Entry>, q: Request, cursor: Option<Cursor>, limit: nat): (seq<View>, Option<Cursor>) {
    match Query(entries, q.(cursor := cursor, limit := limit), None)
    case Ok(page) => (page.views, page.next)
    case Err(_) => ([], None)
  }

  function Asking(entries: seq<Entry>, q: Request): Fetch<Cursor, View> {
    (cursor: Option<Cursor>, limit: nat) => Ask(entries, q, cursor, limit)
  }

  lemma AskFits(entries: seq<Entry>, q: Request, cursor: Option<Cursor>, position: nat, limit: nat)
    requires Readable(entries) && Askable(q) && 1 <= limit <= MAX_QUERY_PAGE
    requires position <= |RowsAfter(entries, q.filter, 0)|
    requires From(cursor, position, Names(entries, q.key, q.store, q.filter))
    ensures Fits(Ask(entries, q, cursor, limit), RowsAfter(entries, q.filter, 0), position, limit,
                 Names(entries, q.key, q.store, q.filter))
  {
    PageFits(entries, q.(cursor := cursor, limit := limit), position);
  }

  /** Following cursors over one snapshot visits every matching entry exactly once, in order, for any limits. */
  lemma WalkVisitsAll(entries: seq<Entry>, q: Request, limits: seq<nat>)
    requires Readable(entries) && Askable(q)
    requires forall i :: 0 <= i < |limits| ==> 1 <= limits[i] <= MAX_QUERY_PAGE
    ensures Visits(Walk(Asking(entries, q), None, limits), RowsAfter(entries, q.filter, 0), |limits|)
  {
    var rows, fetch, names :=
      RowsAfter(entries, q.filter, 0), Asking(entries, q), Names(entries, q.key, q.store, q.filter);
    forall cursor: Option<Cursor>, position: nat, limit: nat
      | From(cursor, position, names) && position <= |rows| && 1 <= limit <= MAX_QUERY_PAGE
      ensures Fits(fetch(cursor, limit), rows, position, limit, names)
    {
      AskFits(entries, q, cursor, position, limit);
      assert fetch(cursor, limit) == Ask(entries, q, cursor, limit);
    }
    WalkVisits(fetch, rows, MAX_QUERY_PAGE, names, limits);
  }

  /** A cursor is honoured only for the key, store, filter and highest sequence number it was sealed for. */
  lemma CursorBinds(entries: seq<Entry>, q: Request, barrier: Option<QueryError>)
    requires Askable(q) && 1 <= q.limit <= MAX_QUERY_PAGE && q.cursor.Some?
    requires barrier != Some(Conflict)
    ensures Query(entries, q, barrier) == Err(Conflict)
       <==> q.cursor.value != NewCursor(q.key, q.store, Cutoff(entries), q.filter, q.cursor.value.after)
  {
    var after := q.cursor.value.after;
    ScanFailsOnlyUnreadable(entries, after, Cutoff(entries), q.filter, q.limit, []);
  }

  lemma {:induction false} ScanFailsOnlyUnreadable(
    entries: seq<Entry>, after: u64, cutoff: u64, f: Filter, limit: nat, views: seq<View>)
    ensures var r := Scan(entries, after, cutoff, f, limit, views);
      r.Err? ==> r.error == Crypto && exists i :: 0 <= i < |entries| && entries[i].event.None?
    decreases |entries|
  {
    if entries != [] {
      var rest := entries[1..];
      if entries[0].event.Some? || !(after < entries[0].sequence <= cutoff) {
        var taken := entries[0].event.Some? && after < entries[0].sequence <= cutoff
                     && Matches(f, entries[0].sequence, entries[0].event.value);
        ScanFailsOnlyUnreadable(rest, after, cutoff, f, limit,
          if taken then views + [View(entries[0].sequence, entries[0].event.value)] else views);
        if exists i :: 0 <= i < |rest| && rest[i].event.None? {
          var i :| 0 <= i < |rest| && rest[i].event.None?;
          assert entries[i + 1].event.None?;
        }
      }
    }
  }

  /** A missing lower bound is always fine; a lower bound needs an upper one that is not below it. */
  predicate BoundsFit(low: Option<u64>, high: Option<u64>) {
    low.None? || (high.Some? && low.value <= high.value)
  }

  /**
    A query is invalid exactly for its filter: a time or sequence range without an upper bound, or
    upside down; a sequence range from zero; or a prefix that is empty, too long or holds a zero byte.
   */
  lemma InvalidExactly(entries: seq<Entry>, q: Request, barrier: Option<QueryError>)
    requires barrier != Some(Invalid)
    ensures Query(entries, q, barrier) == Err(Invalid) <==>
      || !BoundsFit(q.filter.minimumTime, q.filter.maximumTime)
      || !BoundsFit(q.filter.minimumSequence, q.filter.maximumSequence)
      || q.filter.minimumSequence == Some(0)
      || (q.filter.prefix.Some?
          && (q.filter.prefix.value == [] || |q.filter.prefix.value| > 4096 || 0 in q.filter.prefix.value))
  {
    var after := if q.cursor.Some? then q.cursor.value.after else 0;
    ScanFailsOnlyUnreadable(entries, after, Cutoff(entries), q.filter, q.limit, []);
  }

  /** Matching entries among the first `n`, after a sequence number. */
  function MatchesBefore(entries: seq<Entry>, f: Filter, after: nat, n: nat): nat
    requires n <= |entries|
  {
    |RowsAfter(entries[..n], f, after)|
  }

  /** An entry in range that cannot be read, met before the page has one match too many. */
  ghost predicate StopsAt(entries: seq<Entry>, f: Filter, after: nat, limit: nat, i: nat) {
    && i < |entries| && entries[i].sequence > after && entries[i].event.None?
    && MatchesBefore(entries, f, after, i) <= limit
  }

  lemma RowsHead(entries: seq<Entry>, f: Filter, after: nat, i: nat)
    requires 0 < i <= |entries|
    ensures var entry := entries[0];
      MatchesBefore(entries, f, after, i)
      == MatchesBefore(entries[1..], f, after, i - 1)
         + (if entry.sequence > after && entry.event.Some? && Matches(f, entry.sequence, entry.event.value) then 1 else 0)
  {
    assert entries[..i][1..] == entries[1..][..i - 1];
  }

  ghost predicate Stops(entries: seq<Entry>, f: Filter, after: nat, room: nat) {
    exists i: nat :: StopsAt(entries, f, after, room, i)
  }

  predicate Takes(entry: Entry, f: Filter, after: nat) {
    entry.sequence > after && entry.event.Some? && Matches(f, entry.sequence, entry.event.value)
  }

  lemma StopsLater(entries: seq<Entry>, f: Filter, after: nat, room: nat)
    requires entries != [] && !(entries[0].sequence > after && entries[0].event.None?)
    ensures Stops(entries, f, after, room) <==>
      if Takes(entries[0], f, after) then room > 0 && Stops(entries[1..], f, after, room - 1)
      else Stops(entries[1..], f, after, room)
  {
    var rest, later := entries[1..], room - (if Takes(entries[0], f, after) then 1 else 0);
    if Stops(entries, f, after, room) {
      var i: nat :| StopsAt(entries, f, after, room, i);
      RowsHead(entries, f, after, i);
      assert later >= 0;
      assert StopsAt(rest, f, after, later, i - 1);
    }
    if later >= 0 && Stops(rest, f, after, later) {
      var i: nat :| StopsAt(rest, f, after, later, i);
      RowsHead(entries, f, after, i + 1);
      assert StopsAt(entries, f, after, room, i + 1);
    }
  }

  /** The scan fails exactly on such an entry. */
  lemma {:induction false} ScanFailsExactly(
    entries: seq<Entry>, after: u64, cutoff: u64, f: Filter, limit: nat, views: seq<View>)
    requires forall i :: 0 <= i < |entries| ==> entries[i].sequence <= cutoff
    requires |views| <= limit
    ensures Scan(entries, after, cutoff, f, limit, views).Err? <==> Stops(entries, f, after, limit - |views|)
    decreases |entries|
  {
    if entries != [] {
      var entry, rest, room := entries[0], entries[1..], limit - |views|;
      if entry.sequence > after && entry.event.None? {
        assert entries[..0] == [];
        assert StopsAt(entries, f, after, room, 0);
      } else {
        StopsLater(entries, f, after, room);
        if Takes(entry, f, after) {
          if room > 0 {
            ScanFailsExactly(rest, after, cutoff, f, limit, views + [View(entry.sequence, entry.event.value)]);
          }
        } else {
          ScanFailsExactly(rest, after, cutoff, f, limit, views);
        }
      }
    }
  }

  /** A well-formed query fails to decrypt exactly when an unreadable entry comes before its page is full. */
  lemma CryptoExactly(entries: seq<Entry>, q: Request, barrier: Option<QueryError>)
    requires Askable(q) && 1 <= q.limit <= MAX_QUERY_PAGE && barrier != Some(Crypto)
    requires q.cursor.Some? ==>
      q.cursor.value == NewCursor(q.key, q.store, Cutoff(entries), q.filter, q.cursor.value.after)
    ensures var after := if q.cursor.Some? then q.cursor.value.after else 0;
      Query(entries, q, barrier) == Err(Crypto) <==> Stops(entries, q.filter, after, q.limit)
  {
    var after := if q.cursor.Some? then q.cursor.value.after else 0;
    CutoffCovers(entries);
    ScanFailsExactly(entries, after, Cutoff(entries), q.filter, q.limit, []);
    ScanFailsOnlyUnreadable(entries, after, Cutoff(entries), q.filter, q.limit, []);
  }

  // ---------------------------------------------------------------- what a query shows

  /** The event is in every range the filter gives, and is what it names. */
  predicate Wanted(f: Filter, sequence: u64, e: Event) {
    && (f.minimumTime == None || f.minimumTime.value <= e.timestamp)
    && (f.maximumTime == None || e.timestamp <= f.maximumTime.value)
    && (f.minimumSequence == None || f.minimumSequence.value <= sequence)
    && (f.maximumSequence == None || sequence <= f.maximumSequence.value)
    && (f.identity == None || e.identity == f.identity)
    && (f.outcome == None || f.outcome == Some(e.outcome))
    && (f.operation == None || f.operation == Some(e.operation))
    && (f.prefix == None
        || (e.path.Some? && |f.prefix.value| <= |e.path.value| && e.path.value[..|f.prefix.value|] == f.prefix.value))
  }

  /** Some readable entry of the log is this view, and the filter wants it. */
  ghost predicate Listed(entries: seq<Entry>, f: Filter, v: View) {
    Wanted(f, v.sequence, v.event) && exists i :: 0 <= i < |entries| && entries[i] == Entry(v.sequence, Some(v.event))
  }

  lemma {:induction false} RowsExact(entries: seq<Entry>, f: Filter, after: nat, v: View)
    ensures v in RowsAfter(entries, f, after) <==> v.sequence > after && Listed(entries, f, v)
  {
    if entries != [] {
      var rest := entries[1..];
      RowsExact(rest, f, after, v);
      if i :| 0 <= i < |rest| && rest[i] == Entry(v.sequence, Some(v.event)) {
        assert entries[i + 1] == Entry(v.sequence, Some(v.event));
      }
      if i :| 0 <= i < |entries| && entries[i] == Entry(v.sequence, Some(v.event)) {
        if i > 0 { assert rest[i - 1] == Entry(v.sequence, Some(v.event)); }
      }
    }
  }

  /** Rows come in the order of their sequence numbers. */
  lemma {:induction false} RowsRise(entries: seq<Entry>, f: Filter, after: nat)
    requires Readable(entries)
    ensures var rows := RowsAfter(entries, f, after);
      forall i, j :: 0 <= i < j < |rows| ==> rows[i].sequence < rows[j].sequence
  {
    if entries != [] {
      var rows, tail := RowsAfter(entries, f, after), RowsAfter(entries[1..], f, after);
      RowsRise(entries[1..], f, after);
      RowsAreEntries(entries[1..], f, after, entries[0].sequence);
      assert rows == tail || (|rows| == |tail| + 1 && rows[1..] == tail && rows[0].sequence == entries[0].sequence);
    }
  }

  /**
    A walk that has ended has shown exactly the entries the filter wants, by time, sequence, identity,
    outcome, operation and path, each once and in the order of the log.
   */
  lemma WalkShowsExactly(entries: seq<Entry>, q: Request, limits: seq<nat>, v: View)
    requires Readable(entries) && Askable(q)
    requires forall i :: 0 <= i < |limits| ==> 1 <= limits[i] <= MAX_QUERY_PAGE
    requires Walk(Asking(entries, q), None, limits).1
    ensures var seen := Walk(Asking(entries, q), None, limits).0;
      && (v in seen <==> v.sequence > 0 && Listed(entries, q.filter, v))
      && (forall i, j :: 0 <= i < j < |seen| ==> seen[i].sequence < seen[j].sequence)
  {
    WalkVisitsAll(entries, q, limits);
    RowsExact(entries, q.filter, 0, v);
    RowsRise(entries, q.filter, 0);
  }

  lemma {:induction false} CutoffIsHighest(entries: seq<Entry>)
    ensures entries == [] ==> Cutoff(entries) == 0
    ensures entries != [] ==> exists i :: 0 <= i < |entries| && entries[i].sequence == Cutoff(entries)
  {
    if |entries| == 1 {
      assert entries[0].sequence == Cutoff(entries);
    } else if entries != [] {
      CutoffIsHighest(entries[1..]);
      var i :| 0 <= i < |entries[1..]| && entries[1..][i].sequence == Cutoff(entries[1..]);
      assert entries[i + 1].sequence == entries[1..][i].sequence;
      assert entries[0].sequence == Cutoff(entries) || entries[i + 1].sequence == Cutoff(entries);
    }
  }

  /** A well-formed query is refused exactly without permission, without a store, or for its page size. */
  lemma UnauthorizedExactly(entries: seq<Entry>, q: Request, barrier: Option<QueryError>)
    requires ValidFilter(q.filter) && barrier != Some(Unauthorized)
    ensures Query(entries, q, barrier) == Err(Unauthorized) <==>
      !q.authorized || q.store == 0 || q.limit < 1 || q.limit > 100
  {
    var after := if q.cursor.Some? then q.cursor.value.after else 0;
    ScanFailsOnlyUnreadable(entries, after, Cutoff(entries), q.filter, q.limit, []);
  }

  /** The last check can still withhold a page, and then nothing of it is shown; a page tells the highest sequence. */
  lemma BarrierWithholds(entries: seq<Entry>, q: Request, barrier: Option<QueryError>)
    ensures Query(entries, q, barrier).Ok? <==> Query(entries, q, None).Ok? && barrier == None
    ensures Query(entries, q, None).Ok? && barrier.Some? ==> Query(entries, q, barrier) == Err(barrier.value)
    ensures Query(entries, q, None).Ok? ==> Query(entries, q, None).value.cutoff == Cutoff(entries)
  {
  }
}

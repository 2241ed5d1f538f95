/** Which rows a reconciliation has, that it has each once, and that paging shows them all. */
module ReconcileProofs {
  import opened Prelude
  import opened Text
  import opened RowKeys
  import opened Sequences
  import opened ReconcileModel
  import opened Paging

  // ---------------------------------------------------------------- observations

  lemma {:induction false} ObservedKeyed(s: Snapshot, resource: Bytes, events: seq<Read>)
    ensures var o := Observed(s, resource, events);
      forall k :: k in o ==> o[k].identity == k.0 && o[k].instance == k.1 && o[k] in events && Relevant(s, resource, o[k])
  {
    if events != [] {
      var before := events[..|events| - 1];
      ObservedKeyed(s, resource, before);
      assert forall e :: e in before ==> e in events;
    }
  }

  /** Every relevant read has its key observed, by a read that is not older. */
  lemma {:induction false} ObservedLatest(s: Snapshot, resource: Bytes, events: seq<Read>, e: Read)
    requires e in events && Relevant(s, resource, e)
    ensures var o := Observed(s, resource, events); var k := (e.identity, e.instance);
      k in o && !Older(o[k], e)
  {
    var before, last := events[..|events| - 1], events[|events| - 1];
    ObservedKeyed(s, resource, before);
    if e in before {
      ObservedLatest(s, resource, before, e);
    } else {
      assert e == last;
    }
  }

  ghost predicate FactsOk(f: Facts) {
    && f.authorized <= f.known
    && forall k :: k in f.observed ==> f.observed[k].identity == k.0 && f.observed[k].instance == k.1
  }

  lemma FactsAreOk(s: Snapshot, resource: Bytes)
    ensures FactsOk(FactsOf(s, resource))
  {
    ObservedKeyed(s, resource, s.events);
  }

  // ---------------------------------------------------------------- the rows

  /** The row of an identity and instance nobody declared. */
  function UndeclaredRow(f: Facts, k: ReadKey): Row {
    BuildRow(None, k.1, Some(k.0), Absent, AuthorizationOf(f, k.0), Lookup(f.observed, k))
  }

  lemma {:induction false} LatestIsLatest(observed: Observations, keys: seq<ReadKey>)
    requires forall k :: k in keys ==> k in observed
    ensures var r := Latest(observed, keys);
      && (r.None? <==> keys == [])
      && (r.Some? ==> (exists k :: k in keys && observed[k] == r.value)
                      && forall k :: k in keys ==> observed[k].at <= r.value.at)
  {
    if keys != [] {
      var before, last := keys[..|keys| - 1], keys[|keys| - 1];
      LatestIsLatest(observed, before);
      assert forall k :: k in keys <==> k in before || k == last;
    }
  }

  /** The key an authorized identity without a declaration is shown under: that of its latest read. */
  ghost predicate ShownKey(f: Facts, identity: Id, k: ReadKey) {
    && k.0 == identity
    && (if k in f.observed then forall j :: j in f.observed && j.0 == identity ==> f.observed[j].at <= f.observed[k].at
        else k.1.None? && forall j :: j in f.observed ==> j.0 != identity)
  }

  lemma AuthorizedRowIs(f: Facts, identity: Id) returns (k: ReadKey)
    requires FactsOk(f) && identity in f.authorized
    ensures ShownKey(f, identity, k) && AuthorizedRow(f, identity) == UndeclaredRow(f, k)
  {
    var keys := KeysOf(f.observed, identity);
    KeysOfObserved(f.observed, identity);
    LatestIsLatest(f.observed, keys);
    var event := Latest(f.observed, keys);
    k := (identity, if event.Some? then event.value.instance else None);
    if event.None? {
      forall j | j in f.observed
        ensures j.0 != identity
      {
        assert j !in keys;
      }
    }
  }

  /** Why a row is there. */
  ghost predicate Declares(f: Facts, r: Row) {
    exists d :: d in f.declarations && r == DeclaredRow(f, d)
  }

  ghost predicate Undeclared(f: Facts, k: ReadKey) {
    || (k.0 in f.authorized && !HasActive(f, k.0) && ShownKey(f, k.0, k))
    || (k in f.observed && !Covered(f, k))
  }

  ghost predicate Reported(f: Facts, r: Row) {
    exists k :: Undeclared(f, k) && r == UndeclaredRow(f, k)
  }

  ghost predicate AllExplained(f: Facts, rows: seq<Row>) {
    forall r :: r in rows ==> Declares(f, r) || Reported(f, r)
  }

  lemma {:induction false} DeclaredRowsAre(f: Facts, declarations: seq<Declaration>)
    ensures forall r :: r in DeclaredRows(f, declarations) ==> exists d :: d in declarations && r == DeclaredRow(f, d)
    ensures forall d :: d in declarations ==> DeclaredRow(f, d) in DeclaredRows(f, declarations)
  {
    if declarations != [] {
      DeclaredRowsAre(f, declarations[1..]);
      forall r | r in DeclaredRows(f, declarations)
        ensures exists d :: d in declarations && r == DeclaredRow(f, d)
      {
        if r in DeclaredRows(f, declarations[1..]) {
          var d :| d in declarations[1..] && r == DeclaredRow(f, d);
          assert d in declarations;
        } else {
          assert declarations[0] in declarations;
        }
      }
    }
  }

  lemma AuthorizedReported(f: Facts, identity: Id)
    requires FactsOk(f) && identity in f.authorized && !HasActive(f, identity)
    ensures Reported(f, AuthorizedRow(f, identity))
  {
    var k := AuthorizedRowIs(f, identity);
    assert Undeclared(f, k);
  }

  lemma {:induction false} AddAuthorizedAdds(f: Facts, rows: seq<Row>, identities: seq<Id>)
    requires FactsOk(f) && AllExplained(f, rows)
    requires forall id :: id in identities ==> id in f.authorized
    ensures rows <= AddAuthorized(f, rows, identities)
    ensures AllExplained(f, AddAuthorized(f, rows, identities))
    ensures forall id :: id in identities && !HasActive(f, id) ==>
              AuthorizedRow(f, id) in AddAuthorized(f, rows, identities)
    decreases |identities|
  {
    if identities != [] {
      var id := identities[0];
      var next := if HasActive(f, id) then rows else rows + [AuthorizedRow(f, id)];
      if !HasActive(f, id) {
        AuthorizedReported(f, id);
        assert AuthorizedRow(f, id) in next;
      }
      AddAuthorizedAdds(f, next, identities[1..]);
    }
  }

  /** A row for the key already there is the very row that would be added. */
  lemma OnlyRow(f: Facts, rows: seq<Row>, k: ReadKey)
    requires AllExplained(f, rows) && HasUndeclared(rows, k)
    ensures UndeclaredRow(f, k) in rows
  {
    var r :| r in rows && r.consumer.None? && r.identity == Some(k.0) && r.instance == k.1;
    if !Declares(f, r) {
      var j :| Undeclared(f, j) && r == UndeclaredRow(f, j);
      assert j == (k.0, k.1);
    }
  }

  lemma {:induction false} AddObservedAdds(f: Facts, rows: seq<Row>, keys: seq<ReadKey>)
    requires AllExplained(f, rows)
    requires forall k :: k in keys ==> k in f.observed
    ensures rows <= AddObserved(f, rows, keys)
    ensures AllExplained(f, AddObserved(f, rows, keys))
    ensures forall k :: k in keys && !Covered(f, k) ==> UndeclaredRow(f, k) in AddObserved(f, rows, keys)
    decreases |keys|
  {
    if keys != [] {
      var k := keys[0];
      assert k in keys;
      var skipped := Covered(f, k) || HasUndeclared(rows, k);
      var next := if skipped then rows else rows + [ObservedRow(f, k)];
      if !Covered(f, k) {
        if skipped {
          OnlyRow(f, rows, k);
        } else {
          assert ObservedRow(f, k) == UndeclaredRow(f, k) && Undeclared(f, k);
        }
        assert UndeclaredRow(f, k) in next;
      }
      AddObservedAdds(f, next, keys[1..]);
    }
  }

  lemma AllRowsHold(f: Facts)
    requires FactsOk(f)
    ensures AllExplained(f, AllRows(f))
    ensures forall d :: d in f.declarations ==> DeclaredRow(f, d) in AllRows(f)
    ensures forall k :: k in f.observed && !Covered(f, k) ==> UndeclaredRow(f, k) in AllRows(f)
    ensures forall id :: id in f.authorized && !HasActive(f, id) ==> AuthorizedRow(f, id) in AllRows(f)
  {
    var declared, identities := DeclaredRows(f, f.declarations), AscendingIds(f.authorized);
    var middle := AddAuthorized(f, declared, identities);
    DeclaredRowsAre(f, f.declarations);
    AddAuthorizedAdds(f, declared, identities);
    AddObservedAdds(f, middle, ObservedKeys(f.observed));
    forall d | d in f.declarations
      ensures DeclaredRow(f, d) in AllRows(f)
    {
      InPrefix(declared, middle, DeclaredRow(f, d));
      InPrefix(middle, AllRows(f), DeclaredRow(f, d));
    }
    forall id | id in f.authorized && !HasActive(f, id)
      ensures AuthorizedRow(f, id) in AllRows(f)
    {
      InPrefix(middle, AllRows(f), AuthorizedRow(f, id));
    }
  }

  lemma InPrefix(a: seq<Row>, b: seq<Row>, r: Row)
    requires a <= b && r in a
    ensures r in b
  {
    var i :| 0 <= i < |a| && a[i] == r;
    assert b[i] == r;
  }

  lemma UndeclaredBuilt(f: Facts, k: ReadKey)
    requires FactsOk(f) && Undeclared(f, k)
    ensures UndeclaredRow(f, k) in AllRows(f)
  {
    AllRowsHold(f);
    if !(k in f.observed && !Covered(f, k)) {
      NoActiveNoCover(f, k);
      var j := AuthorizedRowIs(f, k.0);
      assert j.1 == k.1;
    }
  }

  lemma NoActiveNoCover(f: Facts, k: ReadKey)
    ensures Covered(f, k) ==> HasActive(f, k.0)
  {
  }

  /** Exactly the declared rows and the undeclared ones are built. */
  lemma AllRowsExact(f: Facts, r: Row)
    requires FactsOk(f)
    ensures r in AllRows(f) <==> Declares(f, r) || Reported(f, r)
  {
    AllRowsHold(f);
    if Reported(f, r) {
      var k :| Undeclared(f, k) && r == UndeclaredRow(f, k);
      UndeclaredBuilt(f, k);
    }
  }

  // ---------------------------------------------------------------- sorting and duplicates

  lemma RowOrder()
    ensures WeakOrder(RowBefore())
  {
    forall a: Row, b: Row
      ensures RowBefore()(a, b) ==> !RowBefore()(b, a)
    {
      BeforeTotal(a.key, b.key);
    }
    forall a: Row, b: Row, c: Row
      ensures RowBefore()(a, c) ==> RowBefore()(a, b) || RowBefore()(b, c)
    {
      BeforeChains(a.key, b.key, c.key);
    }
  }

  ghost predicate KeysRise(rows: seq<Row>) {
    forall i, j :: 0 <= i < j < |rows| ==> Before(rows[i].key, rows[j].key)
  }

  ghost predicate KeysNeverFall(rows: seq<Row>) {
    forall i, j :: 0 <= i < j < |rows| ==> !Before(rows[j].key, rows[i].key)
  }

  lemma {:induction false} DedupKeeps(rows: seq<Row>)
    ensures forall r :: r in Dedup(rows) ==> r in rows
    ensures rows != [] ==> Dedup(rows)[|Dedup(rows)| - 1].key == rows[|rows| - 1].key
  {
    if rows != [] {
      var before := rows[..|rows| - 1];
      DedupKeeps(before);
      assert forall r :: r in before ==> r in rows;
    }
  }

  /** The first row under a key. */
  function FirstWith(rows: seq<Row>, key: Bytes): (r: Option<Row>)
    ensures r.Some? ==> r.value in rows && r.value.key == key
    ensures r.None? ==> forall t :: t in rows ==> t.key != key
  {
    if rows == [] then None else if rows[0].key == key then Some(rows[0]) else FirstWith(rows[1..], key)
  }

  lemma {:induction false} FirstInserted(x: Row, rows: seq<Row>, key: Bytes)
    ensures FirstWith(Insert(x, rows, RowBefore()), key) == if x.key == key then Some(x) else FirstWith(rows, key)
  {
    if rows != [] {
      BeforeTotal(rows[0].key, x.key);
      if RowBefore()(rows[0], x) {
        FirstInserted(x, rows[1..], key);
        assert Insert(x, rows, RowBefore())[1..] == Insert(x, rows[1..], RowBefore());
      } else {
        assert ([x] + rows)[1..] == rows;
      }
    }
  }

  /** The sort is stable: it does not change which row is first under a key. */
  lemma {:induction false} FirstSorted(rows: seq<Row>, key: Bytes)
    ensures FirstWith(Sort(rows, RowBefore()), key) == FirstWith(rows, key)
  {
    if rows != [] {
      FirstSorted(rows[1..], key);
      FirstInserted(rows[0], Sort(rows[1..], RowBefore()), key);
    }
  }

  lemma {:induction false} FirstAppended(rows: seq<Row>, last: Row, key: Bytes)
    ensures FirstWith(rows + [last], key)
         == if FirstWith(rows, key).Some? then FirstWith(rows, key) else if last.key == key then Some(last) else None
  {
    if rows == [] {
      assert rows + [last] == [last] && [last][1..] == [];
    } else {
      FirstAppended(rows[1..], last, key);
      assert (rows + [last])[1..] == rows[1..] + [last];
    }
  }

  lemma {:induction false} FirstDeduped(rows: seq<Row>, key: Bytes)
    ensures FirstWith(Dedup(rows), key) == FirstWith(rows, key)
  {
    if rows != [] {
      var before, last := rows[..|rows| - 1], rows[|rows| - 1];
      FirstDeduped(before, key);
      FirstAppended(before, last, key);
      FirstAppended(Dedup(before), last, key);
      assert rows == before + [last];
    }
  }

  lemma {:induction false} FirstRising(rows: seq<Row>, r: Row)
    requires KeysRise(rows) && r in rows
    ensures FirstWith(rows, r.key) == Some(r)
  {
    var i :| 0 <= i < |rows| && rows[i] == r;
    if i > 0 {
      BeforeTotal(rows[0].key, r.key);
      assert rows[1..][i - 1] == r;
      FirstRising(rows[1..], r);
    }
  }

  lemma {:induction false} DedupRises(rows: seq<Row>)
    requires KeysNeverFall(rows)
    ensures KeysRise(Dedup(rows))
  {
    if |rows| > 1 {
      var before, last := rows[..|rows| - 1], rows[|rows| - 1];
      DedupRises(before);
      DedupKeeps(before);
      var kept := Dedup(before);
      var end := kept[|kept| - 1].key;
      assert end == rows[|rows| - 2].key;
      if end != last.key {
        BeforeTotal(end, last.key);
        forall i | 0 <= i < |kept|
          ensures Before(kept[i].key, last.key)
        {
          if i < |kept| - 1 { BeforeFollows(kept[i].key, end, last.key); }
        }
      }
    }
  }

  lemma BeforeFollows(a: Bytes, b: Bytes, c: Bytes)
    requires Before(a, b) && Before(b, c)
    ensures Before(a, c)
  {
    BeforeChains(a, c, b);
    BeforeTotal(b, c);
  }

  lemma TidyRises(rows: seq<Row>)
    ensures KeysRise(Tidy(rows))
  {
    var sorted := Sort(rows, RowBefore());
    RowOrder();
    SortInOrder(rows, RowBefore());
    assert KeysNeverFall(sorted) by {
      forall i, j | 0 <= i < j < |sorted|
        ensures !Before(sorted[j].key, sorted[i].key)
      {
        assert !RowBefore()(sorted[j], sorted[i]);
      }
    }
    DedupRises(sorted);
  }

  /** Sorting and deduplicating leaves, in strictly rising key order, exactly the first row built under each key. */
  lemma TidyExact(rows: seq<Row>)
    ensures KeysRise(Tidy(rows))
    ensures forall r :: r in Tidy(rows) <==> FirstWith(rows, r.key) == Some(r)
  {
    TidyRises(rows);
    forall r
      ensures r in Tidy(rows) <==> FirstWith(rows, r.key) == Some(r)
    {
      FirstSorted(rows, r.key);
      FirstDeduped(Sort(rows, RowBefore()), r.key);
      if r in Tidy(rows) { FirstRising(Tidy(rows), r); }
    }
  }

  lemma TidyFinds(rows: seq<Row>, r: Row) returns (t: Row)
    requires r in rows
    ensures t in Tidy(rows) && t in rows && t.key == r.key && FirstWith(rows, r.key) == Some(t)
  {
    TidyExact(rows);
    t := FirstWith(rows, r.key).value;
  }

  ghost predicate Keyed(r: Row) { r.key == Key(r.consumer, r.instance, r.identity) }

  lemma RowIsKeyed(f: Facts, t: Row)
    requires Declares(f, t) || Reported(f, t)
    ensures Keyed(t)
  {
    if Declares(f, t) {
      var d :| d in f.declarations && t == DeclaredRow(f, d);
    } else {
      var j :| Undeclared(f, j) && t == UndeclaredRow(f, j);
    }
  }

  /** The rows of one key agree on whose they are. */
  lemma SameOwner(f: Facts, t: Row, r: Row)
    requires Keyed(t) && Keyed(r) && t.key == r.key
    ensures t.consumer == r.consumer && t.instance == r.instance && t.identity == r.identity
  {
    KeyInjective(t.consumer, t.instance, t.identity, r.consumer, r.instance, r.identity);
  }

  /** An undeclared row has its key to itself, so it survives. */
  lemma UndeclaredSurvives(f: Facts, k: ReadKey)
    requires FactsOk(f) && Undeclared(f, k)
    ensures UndeclaredRow(f, k) in Tidy(AllRows(f))
  {
    var r := UndeclaredRow(f, k);
    assert Reported(f, r);
    UndeclaredBuilt(f, k);
    var t := TidyFinds(AllRows(f), r);
    AllRowsHold(f);
    RowIsKeyed(f, t);
    RowIsKeyed(f, r);
    SameOwner(f, t, r);
    OwnRow(f, t, k);
  }

  lemma OwnRow(f: Facts, t: Row, k: ReadKey)
    requires Declares(f, t) || Reported(f, t)
    requires t.consumer.None? && t.instance == k.1 && t.identity == Some(k.0)
    ensures t == UndeclaredRow(f, k)
  {
    if Reported(f, t) {
      var j :| Undeclared(f, j) && t == UndeclaredRow(f, j);
      assert j == (j.0, j.1) && k == (k.0, k.1);
    }
  }

  // ---------------------------------------------------------------- what a reconciliation reports

  /** The rows all pages together show. */
  function Rows(s: Snapshot, resource: Bytes): seq<Row> { Tidy(AllRows(FactsOf(s, resource))) }

  lemma ReadsOf(s: Snapshot, resource: Bytes, identity: Id)
    ensures (exists k :: k in FactsOf(s, resource).observed && k.0 == identity)
       <==> (exists e :: e in s.events && Relevant(s, resource, e) && e.identity == identity)
  {
    var o := Observed(s, resource, s.events);
    ObservedKeyed(s, resource, s.events);
    if e :| e in s.events && Relevant(s, resource, e) && e.identity == identity {
      ObservedLatest(s, resource, s.events, e);
      assert (e.identity, e.instance).0 == identity;
    }
  }

  /** The read is a relevant one of the identity, and no later one is. */
  ghost predicate LastReadOf(s: Snapshot, resource: Bytes, identity: Id, at: u64, version: u64) {
    && (exists e :: e in s.events && Relevant(s, resource, e) && e.identity == identity
                    && e.at == at && e.version == version)
    && forall e :: e in s.events && Relevant(s, resource, e) && e.identity == identity ==> e.at <= at
  }

  lemma ShownIsLast(s: Snapshot, resource: Bytes, identity: Id, k: ReadKey)
    requires var f := FactsOf(s, resource); ShownKey(f, identity, k) && k in f.observed
    ensures var e := FactsOf(s, resource).observed[k]; LastReadOf(s, resource, identity, e.at, e.version)
  {
    var o := Observed(s, resource, s.events);
    ObservedKeyed(s, resource, s.events);
    forall e | e in s.events && Relevant(s, resource, e) && e.identity == identity
      ensures e.at <= o[k].at
    {
      ObservedLatest(s, resource, s.events, e);
      assert (e.identity, e.instance) in o;
    }
  }

  /** An authorized identity with no active declaration is reported, with its latest read if it has one. */
  lemma AuthorizedUndeclaredReported(s: Snapshot, resource: Bytes, identity: Id) returns (r: Row)
    requires identity in FactsOf(s, resource).authorized && !HasActive(FactsOf(s, resource), identity)
    ensures r in Rows(s, resource) && r.consumer.None? && r.identity == Some(identity)
    ensures r.lifecycle.Absent? && r.authorization.Authorized? && AuthorizedUndeclared in r.flags
    ensures r.observed <==> exists e :: e in s.events && Relevant(s, resource, e) && e.identity == identity
    ensures r.observed ==> r.lastRead.Some? && r.version.Some?
                           && LastReadOf(s, resource, identity, r.lastRead.value, r.version.value)
  {
    var f := FactsOf(s, resource);
    FactsAreOk(s, resource);
    var k := AuthorizedRowIs(f, identity);
    UndeclaredSurvives(f, k);
    r := UndeclaredRow(f, k);
    ReadsOf(s, resource, identity);
    if k in f.observed { ShownIsLast(s, resource, identity, k); }
  }

  /** Every read key is covered by an active declaration or reported in a row of its own with its latest read. */
  lemma ObservedCoveredOrReported(s: Snapshot, resource: Bytes, e: Read)
    requires e in s.events && Relevant(s, resource, e)
    ensures var f := FactsOf(s, resource); var k := (e.identity, e.instance);
      && k in f.observed && !Older(f.observed[k], e)
      && (Covered(f, k) ||
          exists r :: r in Rows(s, resource) && r.consumer.None? && r.identity == Some(e.identity)
                      && r.instance == e.instance && r.observed && ObservedUndeclared in r.flags
                      && r.lastRead == Some(f.observed[k].at) && r.version == Some(f.observed[k].version))
  {
    var f, k := FactsOf(s, resource), (e.identity, e.instance);
    FactsAreOk(s, resource);
    ObservedLatest(s, resource, s.events, e);
    if !Covered(f, k) {
      UndeclaredSurvives(f, k);
      assert UndeclaredRow(f, k).observed;
    }
  }

  predicate SameKey(d: Declaration, e: Declaration) {
    e.consumer == d.consumer && e.instance == d.instance && e.identity == d.identity
  }

  /** The first declaration of the same consumer, instance and identity. */
  function FirstDeclared(declarations: seq<Declaration>, d: Declaration): (e: Declaration)
    requires d in declarations
    ensures e in declarations && SameKey(d, e)
  {
    if SameKey(d, declarations[0]) then declarations[0] else FirstDeclared(declarations[1..], d)
  }

  lemma {:induction false} FirstDeclaredRow(f: Facts, declarations: seq<Declaration>, d: Declaration, rest: seq<Row>)
    requires d in declarations
    ensures FirstWith(DeclaredRows(f, declarations) + rest, DeclaredRow(f, d).key)
         == Some(DeclaredRow(f, FirstDeclared(declarations, d)))
  {
    var head, tail := DeclaredRow(f, declarations[0]), DeclaredRows(f, declarations[1..]);
    var rows := DeclaredRows(f, declarations) + rest;
    assert rows[0] == head && rows[1..] == tail + rest;
    if head.key == DeclaredRow(f, d).key { SameOwner(f, head, DeclaredRow(f, d)); }
    if !SameKey(d, declarations[0]) { FirstDeclaredRow(f, declarations[1..], d, rest); }
  }

  /** Under the key of a declaration the report has the row of the first declaration with that key. */
  lemma DeclarationReported(s: Snapshot, resource: Bytes, d: Declaration)
    requires d in FactsOf(s, resource).declarations
    ensures var f := FactsOf(s, resource); DeclaredRow(f, FirstDeclared(f.declarations, d)) in Rows(s, resource)
    ensures forall t :: t in Rows(s, resource) && t.consumer == Some(d.consumer) && t.instance == d.instance
                        && t.identity == d.identity ==>
              var f := FactsOf(s, resource); t == DeclaredRow(f, FirstDeclared(f.declarations, d))
  {
    var f := FactsOf(s, resource);
    FactsAreOk(s, resource);
    var rest := DeclaredFirst(f);
    var key := DeclaredRow(f, d).key;
    FirstDeclaredRow(f, f.declarations, d, rest);
    TidyExact(AllRows(f));
    AllRowsHold(f);
    forall t | t in Rows(s, resource) && t.consumer == Some(d.consumer) && t.instance == d.instance
               && t.identity == d.identity
      ensures t == DeclaredRow(f, FirstDeclared(f.declarations, d))
    {
      RowIsKeyed(f, t);
      assert t.key == key;
    }
  }

  /** The declared rows come first. */
  lemma DeclaredFirst(f: Facts) returns (rest: seq<Row>)
    requires FactsOk(f)
    ensures AllRows(f) == DeclaredRows(f, f.declarations) + rest
  {
    var declared, identities := DeclaredRows(f, f.declarations), AscendingIds(f.authorized);
    DeclaredRowsAre(f, f.declarations);
    AddAuthorizedAdds(f, declared, identities);
    var middle := AddAuthorized(f, declared, identities);
    AddObservedAdds(f, middle, ObservedKeys(f.observed));
    rest := PrefixOfPrefix(declared, middle, AllRows(f));
  }

  lemma PrefixOfPrefix(a: seq<Row>, b: seq<Row>, c: seq<Row>) returns (rest: seq<Row>)
    requires a <= b <= c
    ensures c == a + rest
  {
    rest := c[|a|..];
    assert a == b[..|a|] == c[..|a|];
  }

  /** No row is idle: each carries at least one flag. */
  lemma EveryRowIsActionable(s: Snapshot, resource: Bytes, r: Row)
    requires r in Rows(s, resource)
    ensures r.flags != {}
  {
    var f := FactsOf(s, resource);
    FactsAreOk(s, resource);
    TidyExact(AllRows(f));
    AllRowsHold(f);
    ExplainedFlagged(f, r);
  }

  lemma ExplainedFlagged(f: Facts, r: Row)
    requires FactsOk(f) && (Declares(f, r) || Reported(f, r))
    ensures r.flags != {}
  {
    if Declares(f, r) {
      var d :| d in f.declarations && r == DeclaredRow(f, d);
      DeclaredFlagged(d.lifecycle, r.authorization, r.observed);
    } else {
      var k :| Undeclared(f, k) && r == UndeclaredRow(f, k);
      assert (if k in f.observed then ObservedUndeclared else AuthorizedUndeclared) in r.flags;
    }
  }

  lemma DeclaredFlagged(l: Registered, a: Authorization, observed: bool)
    ensures Flags(l, a, observed) != {}
  {
    var flag := if l.Declared? then DeclaredUnmigrated else if l.Retired? then RetiredHistorical
                else if !a.Authorized? then DeclaredUnauthorized
                else if observed then ReconciledObserved else MigratedUnobserved;
    assert flag in Flags(l, a, observed);
  }

  /** The row reports the latest read under the key. */
  predicate Shows(f: Facts, r: Row, k: ReadKey)
    requires k in f.observed
  {
    && r.identity == Some(k.0) && r.instance == k.1 && r.observed
    && r.lastRead == Some(f.observed[k].at) && r.version == Some(f.observed[k].version)
  }

  predicate DeclaredExactly(f: Facts, k: ReadKey) {
    exists d :: d in f.declarations && d.identity == Some(k.0) && d.instance == k.1
  }

  lemma DeclaredShows(f: Facts, d: Declaration, k: ReadKey)
    requires k in f.observed && d.identity == Some(k.0) && d.instance == k.1
    ensures Shows(f, DeclaredRow(f, d), k)
  {
    assert k == (k.0, k.1);
  }

  /**
    A read key has a row that shows it exactly when no active declaration covers it or some
    declaration names its very instance. So what is covered only by a declaration without an
    instance, and was read through one, is shown by no row; what was read without an instance always is.
   */
  lemma ReadShownExactly(s: Snapshot, resource: Bytes, k: ReadKey)
    requires k in FactsOf(s, resource).observed
    ensures var f := FactsOf(s, resource);
      && ((exists r :: r in Rows(s, resource) && Shows(f, r, k)) <==> !Covered(f, k) || DeclaredExactly(f, k))
      && (k.1.None? ==> exists r :: r in Rows(s, resource) && Shows(f, r, k))
  {
    var f := FactsOf(s, resource);
    FactsAreOk(s, resource);
    if !Covered(f, k) {
      UndeclaredSurvives(f, k);
      assert Shows(f, UndeclaredRow(f, k), k);
    } else if DeclaredExactly(f, k) {
      var d :| d in f.declarations && d.identity == Some(k.0) && d.instance == k.1;
      DeclarationReported(s, resource, d);
      DeclaredShows(f, FirstDeclared(f.declarations, d), k);
    } else {
      CoveredUnshown(s, resource, k);
    }
  }

  lemma CoveredUnshown(s: Snapshot, resource: Bytes, k: ReadKey)
    requires var f := FactsOf(s, resource); k in f.observed && Covered(f, k) && !DeclaredExactly(f, k)
    ensures forall r :: r in Rows(s, resource) ==> !Shows(FactsOf(s, resource), r, k)
    ensures k.1.Some?
  {
    var f := FactsOf(s, resource);
    FactsAreOk(s, resource);
    TidyExact(AllRows(f));
    AllRowsHold(f);
    forall r | r in Rows(s, resource)
      ensures !Shows(f, r, k)
    {
      NotItsRow(f, r, k);
    }
  }

  lemma NotItsRow(f: Facts, r: Row, k: ReadKey)
    requires Declares(f, r) || Reported(f, r)
    requires k in f.observed && Covered(f, k) && !DeclaredExactly(f, k)
    ensures r.identity != Some(k.0) || r.instance != k.1
  {
    NoActiveNoCover(f, k);
    if Declares(f, r) {
      var d :| d in f.declarations && r == DeclaredRow(f, d);
    } else {
      var j :| Undeclared(f, j) && r == UndeclaredRow(f, j);
      assert j == (j.0, j.1) && k == (k.0, k.1);
    }
  }

  /** Every relevant read of the declaration's identity came through some other instance. */
  ghost predicate ReadElsewhere(s: Snapshot, resource: Bytes, d: Declaration)
    requires d.identity.Some?
  {
    forall e :: e in s.events && Relevant(s, resource, e) && e.identity == d.identity.value ==>
      e.instance.Some? && e.instance != d.instance
  }

  lemma BuiltFlaggedExactly(s: Snapshot, resource: Bytes, d: Declaration)
    requires d.identity.Some?
    ensures var f := FactsOf(s, resource);
      MigratedUnobserved in DeclaredRow(f, d).flags <==>
        d.lifecycle.Migrated? && d.identity.value in f.authorized && ReadElsewhere(s, resource, d)
  {
    var f, id := FactsOf(s, resource), d.identity.value;
    FactsAreOk(s, resource);
    ObservedKeyed(s, resource, s.events);
    forall e | e in s.events && Relevant(s, resource, e) && e.identity == id
      ensures (id, e.instance) in f.observed
    {
      ObservedLatest(s, resource, s.events, e);
    }
  }

  /** The report has a row of the declaration's owner with the flag. */
  ghost predicate OwnerFlagged(s: Snapshot, resource: Bytes, d: Declaration, flag: Flag) {
    exists r :: r in Rows(s, resource) && r.consumer == Some(d.consumer) && r.instance == d.instance
                && r.identity == d.identity && flag in r.flags
  }

  lemma OwnerFlaggedIs(s: Snapshot, resource: Bytes, d: Declaration, flag: Flag)
    requires d in FactsOf(s, resource).declarations
    ensures var f := FactsOf(s, resource);
      OwnerFlagged(s, resource, d, flag) <==> flag in DeclaredRow(f, FirstDeclared(f.declarations, d)).flags
  {
    var f := FactsOf(s, resource);
    var row := DeclaredRow(f, FirstDeclared(f.declarations, d));
    DeclarationReported(s, resource, d);
    assert row in Rows(s, resource);
    assert row.consumer == Some(d.consumer) && row.instance == d.instance && row.identity == d.identity;
  }

  lemma MissingIsUnflagged(f: Facts, d: Declaration)
    requires d.identity.None?
    ensures MigratedUnobserved !in DeclaredRow(f, d).flags
  {
  }

  /**
    The report flags a declaration's owner migrated and unobserved exactly when the first declaration
    of that owner is migrated, its identity is authorized, and every relevant read of the identity
    came through some other instance: reads there may well be.
   */
  lemma MigratedFlaggedExactly(s: Snapshot, resource: Bytes, d: Declaration)
    requires d in FactsOf(s, resource).declarations
    ensures var f := FactsOf(s, resource);
      OwnerFlagged(s, resource, d, MigratedUnobserved) <==>
        && d.identity.Some? && FirstDeclared(f.declarations, d).lifecycle.Migrated?
        && d.identity.value in f.authorized && ReadElsewhere(s, resource, d)
  {
    var f := FactsOf(s, resource);
    var first := FirstDeclared(f.declarations, d);
    OwnerFlaggedIs(s, resource, d, MigratedUnobserved);
    if d.identity.Some? { BuiltFlaggedExactly(s, resource, first); } else { MissingIsUnflagged(f, first); }
  }

  // ---------------------------------------------------------------- paging

  lemma {:induction false} EligibleAll(rows: seq<Row>, low: Bytes)
    requires forall i :: 0 <= i < |rows| ==> Before(low, rows[i].key)
    ensures Eligible(rows, Some(low)) == rows && Eligible(rows, None) == rows
  {
    if rows != [] { EligibleAll(rows[1..], low); }
  }

  lemma {:induction false} EligibleEverything(rows: seq<Row>)
    ensures Eligible(rows, None) == rows
  {
    if rows != [] { EligibleEverything(rows[1..]); }
  }

  /** What is after a row's key is what follows the row. */
  lemma {:induction false} EligibleResumes(rows: seq<Row>, k: nat)
    requires KeysRise(rows) && 0 < k <= |rows|
    ensures Eligible(rows, Some(rows[k - 1].key)) == rows[k..]
    decreases |rows|
  {
    var rest, key := rows[1..], rows[k - 1].key;
    BeforeTotal(key, rows[0].key);
    if k == 1 {
      EligibleAll(rest, key);
    } else {
      assert Before(rows[0].key, key);
      assert rest[k - 2].key == key && rest[k - 1..] == rows[k..];
      EligibleResumes(rest, k - 1);
    }
  }

  ghost predicate Named(rows: seq<Row>, c: Bytes, position: nat) {
    0 < position <= |rows| && c == rows[position - 1].key
  }

  ghost function Names(rows: seq<Row>): (Bytes, nat) -> bool {
    (c: Bytes, position: nat) => Named(rows, c, position)
  }

  /** A page resumed at a row's key is the rows after it, with a cursor exactly when more remain. */
  lemma PageFits(rows: seq<Row>, cursor: Option<Bytes>, position: nat, limit: nat)
    requires KeysRise(rows) && limit > 0 && position <= |rows| && From(cursor, position, Names(rows))
    ensures Fits(PageOf(rows, cursor, limit), rows, position, limit, Names(rows))
  {
    if cursor.Some? {
      EligibleResumes(rows, position);
    } else {
      EligibleEverything(rows);
    }
    var eligible := rows[position..];
    if |eligible| > limit {
      assert eligible[..limit] == rows[position..position + limit];
      assert Named(rows, eligible[limit - 1].key, position + limit);
    }
  }

  function Ask(s: Snapshot, resource: Bytes, cursor: Option<Bytes>, limit: nat): (seq<Row>, Option<Bytes>) {
    match Reconcile(s, resource, cursor, limit)
    case Ok(page) => (page.rows, page.next)
    case Err(_) => ([], None)
  }

  function Asking(s: Snapshot, resource: Bytes): Fetch<Bytes, Row> {
    (cursor: Option<Bytes>, limit: nat) => Ask(s, resource, cursor, limit)
  }

  lemma AskFits(s: Snapshot, resource: Bytes, cursor: Option<Bytes>, position: nat, limit: nat)
    requires Refusal(s, resource, 1).None? && |Rows(s, resource)| <= MAX_ROWS && 1 <= limit <= MAX_ROWS
    requires position <= |Rows(s, resource)| && From(cursor, position, Names(Rows(s, resource)))
    ensures Fits(Ask(s, resource, cursor, limit), Rows(s, resource), position, limit, Names(Rows(s, resource)))
  {
    TidyExact(AllRows(FactsOf(s, resource)));
    PageFits(Rows(s, resource), cursor, position, limit);
    assert Refusal(s, resource, limit).None?;
  }

  /** Following cursors over one snapshot visits every row exactly once, in order, for any limits. */
  lemma WalkVisitsAll(s: Snapshot, resource: Bytes, limits: seq<nat>)
    requires Refusal(s, resource, 1).None? && |Rows(s, resource)| <= MAX_ROWS
    requires forall i :: 0 <= i < |limits| ==> 1 <= limits[i] <= MAX_ROWS
    ensures Visits(Walk(Asking(s, resource), None, limits), Rows(s, resource), |limits|)
  {
    var rows, fetch := Rows(s, resource), Asking(s, resource);
    var names := Names(rows);
    forall cursor: Option<Bytes>, position: nat, limit: nat
      | From(cursor, position, names) && position <= |rows| && 1 <= limit <= MAX_ROWS
      ensures Fits(fetch(cursor, limit), rows, position, limit, names)
    {
      AskFits(s, resource, cursor, position, limit);
      assert fetch(cursor, limit) == Ask(s, resource, cursor, limit);
    }
    WalkVisits(fetch, rows, MAX_ROWS, names, limits);
  }
}

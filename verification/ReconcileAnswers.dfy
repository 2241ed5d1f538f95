/** What a reconciliation says, in terms of its sources alone. */
module ReconcileAnswers {
  import opened Prelude
  import opened Text
  import opened RowKeys
  import opened Sequences
  import opened ReconcileModel
  import opened ReconcileProofs

  // ---------------------------------------------------------------- reads

  /** A read of the resource, not longer ago than the lookback. */
  predicate InWindow(s: Snapshot, resource: Bytes, e: Read) {
    e.resource == resource && e.at + s.lookback >= s.now
  }

  /** The read counts for this identity through this instance, or through none. */
  predicate CountsFor(s: Snapshot, resource: Bytes, k: ReadKey, e: Read) {
    InWindow(s, resource, e) && e.identity == k.0 && e.instance == k.1
  }

  predicate Newer(a: Read, b: Read) {
    a.at > b.at || (a.at == b.at && a.version > b.version)
  }

  /** The newest read that counts, the first among equals. */
  ghost predicate NewestAt(s: Snapshot, resource: Bytes, k: ReadKey, events: seq<Read>, i: int) {
    && 0 <= i < |events| && CountsFor(s, resource, k, events[i])
    && (forall j :: 0 <= j < i && CountsFor(s, resource, k, events[j]) ==> Newer(events[i], events[j]))
    && (forall j :: i < j < |events| && CountsFor(s, resource, k, events[j]) ==> !Newer(events[j], events[i]))
  }

  /** What is kept under a key is the newest read that counts, if any does. */
  ghost predicate KeepsNewest(s: Snapshot, resource: Bytes, k: ReadKey, events: seq<Read>, kept: Option<Read>) {
    && (kept.None? <==> forall i :: 0 <= i < |events| ==> !CountsFor(s, resource, k, events[i]))
    && (kept.Some? ==> exists i :: NewestAt(s, resource, k, events, i) && kept == Some(events[i]))
  }

  lemma NewestOneMore(s: Snapshot, resource: Bytes, k: ReadKey, events: seq<Read>, kept: Option<Read>)
    requires events != [] && KeepsNewest(s, resource, k, events[..|events| - 1], kept)
    ensures var last := events[|events| - 1];
      KeepsNewest(s, resource, k, events,
                  if CountsFor(s, resource, k, last) && (kept.None? || Newer(last, kept.value)) then Some(last) else kept)
  {
    var n := |events| - 1;
    assert forall j :: 0 <= j < n ==> events[..n][j] == events[j];
    var last := events[n];
    if kept.Some? {
      var i :| NewestAt(s, resource, k, events[..n], i) && kept == Some(events[..n][i]);
      if CountsFor(s, resource, k, last) && Newer(last, kept.value) {
        forall j | 0 <= j < n && CountsFor(s, resource, k, events[j])
          ensures Newer(last, events[j])
        {
          assert j < i ==> Newer(events[i], events[j]);
          assert j > i ==> !Newer(events[j], events[i]);
        }
        assert NewestAt(s, resource, k, events, n);
      } else {
        assert NewestAt(s, resource, k, events, i);
      }
    } else if CountsFor(s, resource, k, last) {
      assert NewestAt(s, resource, k, events, n);
    }
  }

  lemma {:induction false} ObservedExact(s: Snapshot, resource: Bytes, events: seq<Read>, k: ReadKey)
    ensures KeepsNewest(s, resource, k, events, Lookup(Observed(s, resource, events), k))
    decreases |events|
  {
    if events != [] {
      var init, last := events[..|events| - 1], events[|events| - 1];
      ObservedExact(s, resource, init, k);
      NewestOneMore(s, resource, k, events, Lookup(Observed(s, resource, init), k));
      assert k == (k.0, k.1);
    }
  }

  lemma NewestIsOne(s: Snapshot, resource: Bytes, k: ReadKey, events: seq<Read>, i: int, j: int)
    requires NewestAt(s, resource, k, events, i) && NewestAt(s, resource, k, events, j)
    ensures i == j
  {
  }

  ghost predicate AnyCounts(s: Snapshot, resource: Bytes, k: ReadKey) {
    exists i :: 0 <= i < |s.events| && CountsFor(s, resource, k, s.events[i])
  }

  // ---------------------------------------------------------------- accounts and declarations

  ghost predicate Known(s: Snapshot, id: Id) {
    exists i :: 0 <= i < |s.accounts| && s.accounts[i].id == id
  }

  /** The identity has an active account and its grants allow reading the resource. */
  ghost predicate MayRead(s: Snapshot, id: Id) {
    id in s.allowed && exists i :: 0 <= i < |s.accounts| && s.accounts[i].id == id && s.accounts[i].active
  }

  lemma AccountsExact(s: Snapshot, resource: Bytes, id: Id)
    ensures id in FactsOf(s, resource).known <==> Known(s, id)
    ensures id in FactsOf(s, resource).authorized <==> MayRead(s, id)
  {
    var f := FactsOf(s, resource);
    if Known(s, id) {
      var i :| 0 <= i < |s.accounts| && s.accounts[i].id == id;
      assert s.accounts[i] in s.accounts;
    }
    if MayRead(s, id) {
      var i :| 0 <= i < |s.accounts| && s.accounts[i].id == id && s.accounts[i].active;
      assert s.accounts[i] in s.accounts;
    }
  }

  lemma {:induction false} DeclarationsExact(declarations: seq<Declaration>, resource: Bytes)
    ensures forall d :: d in DeclaredFor(declarations, resource) <==> d in declarations && d.resource == resource
  {
    if declarations != [] { DeclarationsExact(declarations[1..], resource); }
  }

  // ---------------------------------------------------------------- rows

  /** Each flag says one thing about lifecycle, authorization and reads. */
  ghost predicate FlagsTell(r: Row) {
    && (DeclaredUnmigrated in r.flags <==> r.lifecycle == Declared)
    && (DeclaredUnauthorized in r.flags <==>
          (r.lifecycle == Declared || r.lifecycle == Migrated) && r.authorization != Authorized)
    && (AuthorizedUndeclared in r.flags <==> r.lifecycle == Absent && r.authorization == Authorized)
    && (MigratedUnobserved in r.flags <==> r.lifecycle == Migrated && r.authorization == Authorized && !r.observed)
    && (ObservedUndeclared in r.flags <==> r.lifecycle == Absent && r.observed)
    && (ReconciledObserved in r.flags <==> r.lifecycle == Migrated && r.authorization == Authorized && r.observed)
    && (RetiredHistorical in r.flags <==> r.lifecycle == Retired)
  }

  ghost predicate AuthorizationTells(s: Snapshot, r: Row) {
    && (r.identity == None ==> r.authorization == IdentityMissing)
    && (r.identity.Some? ==>
          && (r.authorization == IdentityMissing <==> !Known(s, r.identity.value))
          && (r.authorization == Authorized <==> MayRead(s, r.identity.value)))
  }

  /** The row shows the newest read under the key, or that there is none. */
  ghost predicate ShowsNewest(s: Snapshot, resource: Bytes, r: Row, k: ReadKey) {
    && (forall i :: NewestAt(s, resource, k, s.events, i) ==>
          r.observed && r.lastRead == Some(s.events[i].at) && r.version == Some(s.events[i].version))
    && (!AnyCounts(s, resource, k) ==> !r.observed && r.lastRead == None && r.version == None)
  }

  /** A declared row falls back on reads through no instance; an undeclared one shows its own. */
  ghost predicate ReadsTell(s: Snapshot, resource: Bytes, r: Row) {
    && (r.identity == None ==> !r.observed && r.lastRead == None && r.version == None)
    && (r.identity.Some? ==>
          ShowsNewest(s, resource, r,
                      if r.consumer.Some? && !AnyCounts(s, resource, (r.identity.value, r.instance))
                      then (r.identity.value, None) else (r.identity.value, r.instance)))
  }

  /** A row with a consumer is a declaration of the resource; one without is nobody's. */
  ghost predicate OwnerTells(s: Snapshot, resource: Bytes, r: Row) {
    && r.key == Key(r.consumer, r.instance, r.identity)
    && (r.consumer == None <==> r.lifecycle == Absent)
    && (r.consumer == None ==> r.identity.Some?)
    && (r.consumer.Some? ==>
          exists d :: d in s.declarations && d.resource == resource && Some(d.consumer) == r.consumer
                      && d.instance == r.instance && d.identity == r.identity && d.lifecycle == r.lifecycle)
  }

  lemma LookupShows(s: Snapshot, resource: Bytes, r: Row, k: ReadKey, event: Option<Read>)
    requires event == Lookup(FactsOf(s, resource).observed, k)
    requires r.observed == event.Some?
    requires r.lastRead == (if event.Some? then Some(event.value.at) else None)
    requires r.version == (if event.Some? then Some(event.value.version) else None)
    ensures ShowsNewest(s, resource, r, k)
    ensures event.Some? <==> AnyCounts(s, resource, k)
  {
    ObservedExact(s, resource, s.events, k);
    if event.Some? {
      var j :| NewestAt(s, resource, k, s.events, j) && event == Some(s.events[j]);
      forall i | NewestAt(s, resource, k, s.events, i)
        ensures i == j
      {
        NewestIsOne(s, resource, k, s.events, i, j);
      }
    } else {
      assert forall i :: !NewestAt(s, resource, k, s.events, i);
    }
  }

  lemma AuthorizationShown(s: Snapshot, resource: Bytes, id: Id)
    ensures var a := AuthorizationOf(FactsOf(s, resource), id);
      (a == IdentityMissing <==> !Known(s, id)) && (a == Authorized <==> MayRead(s, id))
  {
    AccountsExact(s, resource, id);
  }

  lemma DeclaredTells(s: Snapshot, resource: Bytes, d: Declaration, r: Row)
    requires d in s.declarations && d.resource == resource && r == DeclaredRow(FactsOf(s, resource), d)
    ensures FlagsTell(r) && AuthorizationTells(s, r) && ReadsTell(s, resource, r) && OwnerTells(s, resource, r)
  {
    var f := FactsOf(s, resource);
    if d.identity.Some? {
      var id := d.identity.value;
      AuthorizationShown(s, resource, id);
      var own := Lookup(f.observed, (id, d.instance));
      ObservedExact(s, resource, s.events, (id, d.instance));
      if own.Some? {
        LookupShows(s, resource, r, (id, d.instance), own);
      } else {
        LookupShows(s, resource, r, (id, None), Lookup(f.observed, (id, None)));
      }
    }
  }

  lemma UndeclaredTells(s: Snapshot, resource: Bytes, k: ReadKey, r: Row)
    requires r == UndeclaredRow(FactsOf(s, resource), k)
    ensures FlagsTell(r) && AuthorizationTells(s, r) && ReadsTell(s, resource, r) && OwnerTells(s, resource, r)
  {
    AuthorizationShown(s, resource, k.0);
    LookupShows(s, resource, r, k, Lookup(FactsOf(s, resource).observed, k));
    assert k == (k.0, k.1);
  }

  /**
    Every row of a report tells the truth about its sources: whose it is, whether the identity is
    known and may read, what was read last in the window, and one flag for each thing to act on.
   */
  lemma RowTells(s: Snapshot, resource: Bytes, r: Row)
    requires r in Rows(s, resource)
    ensures FlagsTell(r) && AuthorizationTells(s, r) && ReadsTell(s, resource, r) && OwnerTells(s, resource, r)
  {
    var f := FactsOf(s, resource);
    FactsAreOk(s, resource);
    TidyExact(AllRows(f));
    AllRowsExact(f, r);
    DeclarationsExact(s.declarations, resource);
    if Declares(f, r) {
      var d :| d in f.declarations && r == DeclaredRow(f, d);
      DeclaredTells(s, resource, d, r);
    } else {
      var k :| Undeclared(f, k) && r == UndeclaredRow(f, k);
      UndeclaredTells(s, resource, k, r);
    }
  }

  /** A declaration of the resource that is not retired, for the identity. */
  predicate ActiveFor(d: Declaration, resource: Bytes, identity: Id) {
    d.resource == resource && d.identity == Some(identity) && d.lifecycle != Retired
  }

  ghost predicate HasActiveDeclaration(s: Snapshot, resource: Bytes, identity: Id) {
    exists i :: 0 <= i < |s.declarations| && ActiveFor(s.declarations[i], resource, identity)
  }

  /** One that takes in this very instance, or all of them. */
  ghost predicate CoveredBy(s: Snapshot, resource: Bytes, k: ReadKey) {
    exists i :: 0 <= i < |s.declarations| && ActiveFor(s.declarations[i], resource, k.0)
                && (s.declarations[i].instance == k.1 || s.declarations[i].instance == None)
  }

  lemma CoverExact(s: Snapshot, resource: Bytes, k: ReadKey)
    ensures HasActive(FactsOf(s, resource), k.0) <==> HasActiveDeclaration(s, resource, k.0)
    ensures Covered(FactsOf(s, resource), k) <==> CoveredBy(s, resource, k)
  {
    var f := FactsOf(s, resource);
    DeclarationsExact(s.declarations, resource);
    if HasActiveDeclaration(s, resource, k.0) {
      var i :| 0 <= i < |s.declarations| && ActiveFor(s.declarations[i], resource, k.0);
      assert s.declarations[i] in f.declarations;
    }
    if CoveredBy(s, resource, k) {
      var i :| && 0 <= i < |s.declarations| && ActiveFor(s.declarations[i], resource, k.0)
               && (s.declarations[i].instance == k.1 || s.declarations[i].instance == None);
      assert s.declarations[i] in f.declarations;
    }
  }

  ghost predicate EverRead(s: Snapshot, resource: Bytes, identity: Id) {
    exists i :: 0 <= i < |s.events| && InWindow(s, resource, s.events[i]) && s.events[i].identity == identity
  }

  lemma EverReadExact(s: Snapshot, resource: Bytes, identity: Id)
    ensures EverRead(s, resource, identity) <==>
      exists k :: k in FactsOf(s, resource).observed && k.0 == identity
  {
    var o := FactsOf(s, resource).observed;
    if i :| 0 <= i < |s.events| && InWindow(s, resource, s.events[i]) && s.events[i].identity == identity {
      var k := (identity, s.events[i].instance);
      ObservedExact(s, resource, s.events, k);
      assert CountsFor(s, resource, k, s.events[i]);
    }
    if k :| k in o && k.0 == identity {
      ObservedExact(s, resource, s.events, k);
      assert Lookup(o, k).Some?;
    }
  }

  /**
    Why there is a row nobody declared: the identity has read in the window and no active
    declaration covers that; or it may read, has no active declaration and has not read at all.
   */
  ghost predicate Unaccounted(s: Snapshot, resource: Bytes, k: ReadKey) {
    || (AnyCounts(s, resource, k) && !CoveredBy(s, resource, k))
    || (MayRead(s, k.0) && !HasActiveDeclaration(s, resource, k.0) && !EverRead(s, resource, k.0) && k.1 == None)
  }

  lemma UnaccountedExact(s: Snapshot, resource: Bytes, k: ReadKey)
    ensures Undeclared(FactsOf(s, resource), k) <==> Unaccounted(s, resource, k)
  {
    var f := FactsOf(s, resource);
    ObservedExact(s, resource, s.events, k);
    CoverExact(s, resource, k);
    AccountsExact(s, resource, k.0);
    EverReadExact(s, resource, k.0);
    NoActiveNoCover(f, k);
    assert k in f.observed <==> AnyCounts(s, resource, k);
  }

  lemma NobodysRow(f: Facts, r: Row, k: ReadKey)
    requires FactsOk(f) && r in Tidy(AllRows(f))
    requires r.consumer == None && r.identity == Some(k.0) && r.instance == k.1
    ensures Undeclared(f, k)
  {
    TidyExact(AllRows(f));
    AllRowsExact(f, r);
    if Reported(f, r) {
      var j :| Undeclared(f, j) && r == UndeclaredRow(f, j);
      assert j == (j.0, j.1) && k == (k.0, k.1);
    }
  }

  /** There is a row nobody declared for exactly the unaccounted ones. */
  lemma UndeclaredRowsExact(s: Snapshot, resource: Bytes, k: ReadKey)
    ensures (exists r :: r in Rows(s, resource) && r.consumer == None && r.identity == Some(k.0) && r.instance == k.1) <==>
      Unaccounted(s, resource, k)
  {
    var f := FactsOf(s, resource);
    FactsAreOk(s, resource);
    UnaccountedExact(s, resource, k);
    if Undeclared(f, k) {
      UndeclaredSurvives(f, k);
      var t := UndeclaredRow(f, k);
      assert t in Rows(s, resource) && t.consumer == None && t.identity == Some(k.0) && t.instance == k.1;
    }
    if r :| r in Rows(s, resource) && r.consumer == None && r.identity == Some(k.0) && r.instance == k.1 {
      NobodysRow(f, r, k);
    }
  }

  /** And a declared one for exactly the declarations of the resource. */
  lemma DeclaredRowsExact(s: Snapshot, resource: Bytes, consumer: Id, instance: Option<Id>, identity: Option<Id>)
    ensures (exists r :: r in Rows(s, resource) && r.consumer == Some(consumer) && r.identity == identity
                         && r.instance == instance) <==>
      exists d :: d in s.declarations && d.resource == resource && d.consumer == consumer && d.instance == instance
                  && d.identity == identity
  {
    DeclarationsExact(s.declarations, resource);
    if d :| d in s.declarations && d.resource == resource && d.consumer == consumer && d.instance == instance
            && d.identity == identity
    {
      DeclarationReported(s, resource, d);
      var first := DeclaredRow(FactsOf(s, resource), FirstDeclared(FactsOf(s, resource).declarations, d));
      assert first in Rows(s, resource) && first.consumer == Some(consumer);
    }
    if r :| r in Rows(s, resource) && r.consumer == Some(consumer) && r.identity == identity && r.instance == instance {
      RowTells(s, resource, r);
    }
  }

  /** The report is in the order of its owners, by consumer, instance and identity, with none in front. */
  lemma RowsInOrder(s: Snapshot, resource: Bytes, i: int, j: int)
    requires 0 <= i < j < |Rows(s, resource)|
    ensures var (a, b) := (Rows(s, resource)[i], Rows(s, resource)[j]);
      OwnerBefore(a.consumer, a.instance, a.identity, b.consumer, b.instance, b.identity)
  {
    var a, b := Rows(s, resource)[i], Rows(s, resource)[j];
    assert a in Rows(s, resource) && b in Rows(s, resource);
    RowTells(s, resource, a);
    RowTells(s, resource, b);
    TidyExact(AllRows(FactsOf(s, resource)));
    KeyOrder(a.consumer, a.instance, a.identity, b.consumer, b.instance, b.identity);
  }

  // ---------------------------------------------------------------- answers

  /** Positions of the declarations of the resource. */
  ghost function DeclaredAt(declarations: seq<Declaration>, resource: Bytes): set<int> {
    set i | 0 <= i < |declarations| && declarations[i].resource == resource
  }

  lemma {:induction false} DeclaredOneMore(declarations: seq<Declaration>, d: Declaration, resource: Bytes)
    ensures DeclaredFor(declarations + [d], resource)
         == DeclaredFor(declarations, resource) + (if d.resource == resource then [d] else [])
  {
    if declarations == [] {
      assert declarations + [d] == [d];
    } else {
      assert (declarations + [d])[1..] == declarations[1..] + [d];
      DeclaredOneMore(declarations[1..], d, resource);
    }
  }

  lemma DeclaredAtGrows(declarations: seq<Declaration>, resource: Bytes)
    requires declarations != []
    ensures var n := |declarations| - 1;
      |DeclaredAt(declarations, resource)|
      == |DeclaredAt(declarations[..n], resource)| + (if declarations[n].resource == resource then 1 else 0)
  {
    var n := |declarations| - 1;
    var before := DeclaredAt(declarations[..n], resource);
    assert DeclaredAt(declarations, resource) == before + (if declarations[n].resource == resource then {n} else {});
  }

  lemma {:induction false} DeclaredCount(declarations: seq<Declaration>, resource: Bytes)
    ensures |DeclaredFor(declarations, resource)| == |DeclaredAt(declarations, resource)|
    decreases |declarations|
  {
    if declarations != [] {
      var n := |declarations| - 1;
      var init, last := declarations[..n], declarations[n];
      DeclaredCount(init, resource);
      DeclaredOneMore(init, last, resource);
      assert init + [last] == declarations;
      DeclaredAtGrows(declarations, resource);
    }
  }

  /** The identities and instances that have read in the window, told from the events alone. */
  ghost function ReadersSeen(s: Snapshot, resource: Bytes): set<ReadKey> {
    set i | 0 <= i < |s.events| && InWindow(s, resource, s.events[i]) :: (s.events[i].identity, s.events[i].instance)
  }

  lemma ReadersExact(s: Snapshot, resource: Bytes)
    ensures FactsOf(s, resource).observed.Keys == ReadersSeen(s, resource)
  {
    var o := FactsOf(s, resource).observed;
    forall k
      ensures k in o.Keys <==> k in ReadersSeen(s, resource)
    {
      ObservedExact(s, resource, s.events, k);
      if k in ReadersSeen(s, resource) {
        var i :| && 0 <= i < |s.events| && InWindow(s, resource, s.events[i])
                 && k == (s.events[i].identity, s.events[i].instance);
        assert CountsFor(s, resource, k, s.events[i]);
      }
      if k in o.Keys {
        var i :| NewestAt(s, resource, k, s.events, i);
        assert k == (s.events[i].identity, s.events[i].instance);
      }
    }
  }

  /** The counts of a page: declarations of the resource, identities that may read it, and readers. */
  lemma PageTells(s: Snapshot, resource: Bytes, cursor: Option<Bytes>, limit: nat)
    requires Reconcile(s, resource, cursor, limit).Ok?
    ensures var page := Reconcile(s, resource, cursor, limit).value;
      && page.cutoff == s.cutoff
      && page.declaredCount == |DeclaredAt(s.declarations, resource)|
      && page.authorizedCount == |set a | a in s.accounts && MayRead(s, a.id) :: a.id|
      && page.observedCount == |ReadersSeen(s, resource)|
      && (limit > 0 ==> (page.rows, page.next) == PageOf(Rows(s, resource), cursor, limit))
  {
    var f := FactsOf(s, resource);
    DeclaredCount(s.declarations, resource);
    ReadersExact(s, resource);
    assert |f.observed| == |f.observed.Keys|;
    forall id
      ensures id in f.authorized <==> id in (set a | a in s.accounts && MayRead(s, a.id) :: a.id)
    {
      AccountsExact(s, resource, id);
      if MayRead(s, id) {
        var i :| 0 <= i < |s.accounts| && s.accounts[i].id == id && s.accounts[i].active;
        assert s.accounts[i] in s.accounts;
      }
    }
    assert f.authorized == set a | a in s.accounts && MayRead(s, a.id) :: a.id;
  }

  /** A read that is in the window but cannot have happened as told. */
  ghost predicate Tainted(s: Snapshot, resource: Bytes, e: Read) {
    InWindow(s, resource, e) && (!e.authenticated || e.identity == 0 || e.version == 0 || e.at > s.now)
  }

  predicate Asked(s: Snapshot, resource: Bytes, limit: nat) {
    s.cutoff != 0 && s.now != 0 && s.lookback != 0 && resource != [] && 1 <= limit <= 10_000
  }

  predicate Vouched(s: Snapshot) { s.declaredVerified && s.authorizationVerified && s.auditVerified }

  /** A mount and segments, none of them empty. */
  ghost predicate NamesSecret(resource: Bytes) {
    exists parts: seq<Bytes> :: |parts| >= 2 && [] !in parts && FreeOf(parts, SLASH) && resource == Join(parts, SLASH)
  }

  lemma AddressExact(resource: Bytes)
    ensures Addressable(resource) <==> NamesSecret(resource)
  {
    var parts := Split(resource, SLASH);
    JoinSplit(resource, SLASH);
    SplitIsFree(resource, SLASH);
    if NamesSecret(resource) {
      var named: seq<Bytes> :|
        |named| >= 2 && [] !in named && FreeOf(named, SLASH) && resource == Join(named, SLASH);
      SplitJoin(named, SLASH);
    }
  }

  lemma TaintExact(s: Snapshot, resource: Bytes)
    ensures (exists e :: e in s.events && Relevant(s, resource, e) && !Sound(s, e)) <==>
      exists i :: 0 <= i < |s.events| && Tainted(s, resource, s.events[i])
  {
    if i :| 0 <= i < |s.events| && Tainted(s, resource, s.events[i]) { assert s.events[i] in s.events; }
  }

  /** Which obstacle, in order, a reconciliation is refused for; none otherwise but too many rows. */
  lemma RefusedExactly(s: Snapshot, resource: Bytes, cursor: Option<Bytes>, limit: nat)
    ensures var answer := Reconcile(s, resource, cursor, limit);
      var tainted := exists i :: 0 <= i < |s.events| && Tainted(s, resource, s.events[i]);
      var twice := exists i, j :: 0 <= i < j < |s.accounts| && s.accounts[i].id == s.accounts[j].id;
      && (answer == Err(Invalid) <==>
            || !Asked(s, resource, limit)
            || (Vouched(s) && !tainted && !twice && !NamesSecret(resource)))
      && (answer == Err(SourceFailure) <==> Asked(s, resource, limit) && (!Vouched(s) || (!tainted && twice)))
      && (answer == Err(ObservationIntegrity) <==> Asked(s, resource, limit) && Vouched(s) && tainted)
      && (answer == Err(Limit) <==>
            && Asked(s, resource, limit) && Vouched(s) && !tainted && !twice && NamesSecret(resource)
            && |Rows(s, resource)| > 10_000)
  {
    AddressExact(resource);
    TaintExact(s, resource);
  }
}

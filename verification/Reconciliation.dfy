/** `reconcile` as the source runs it: maps and lists filled in loops. */
module Reconciliation {
  import opened Prelude
  import opened Text
  import opened RowKeys
  import opened ReconcileModel

  method GatherObserved(s: Snapshot, resource: Bytes) returns (observed: Observations)
    ensures observed == Observed(s, resource, s.events)
  {
    observed := map[];
    for i := 0 to |s.events|
      invariant observed == Observed(s, resource, s.events[..i])
    {
      var e := s.events[i];
      assert s.events[..i + 1][..i] == s.events[..i];
      if Relevant(s, resource, e) {
        var key := (e.identity, e.instance);
        if key !in observed || Older(observed[key], e) {
          observed := observed[key := e];
        }
      }
    }
    assert s.events[..|s.events|] == s.events;
  }

  /** The flags inserted one test at a time. */
  method InsertFlags(lifecycle: Lifecycle, authorization: Authorization, observed: bool) returns (flags: set<Flag>)
    ensures flags == Flags(lifecycle, authorization, observed)
  {
    flags := {};
    match lifecycle
    case Declared =>
      flags := flags + {DeclaredUnmigrated};
      if !authorization.Authorized? { flags := flags + {DeclaredUnauthorized}; }
    case Migrated =>
      if !authorization.Authorized? { flags := flags + {DeclaredUnauthorized}; }
      if authorization.Authorized? && !observed { flags := flags + {MigratedUnobserved}; }
      if authorization.Authorized? && observed { flags := flags + {ReconciledObserved}; }
    case Absent =>
      if authorization.Authorized? { flags := flags + {AuthorizedUndeclared}; }
      if observed { flags := flags + {ObservedUndeclared}; }
    case Retired =>
      flags := flags + {RetiredHistorical};
  }

  method BuildRowInPlace(consumer: Option<Id>, instance: Option<Id>, identity: Option<Id>, lifecycle: Lifecycle,
                         authorization: Authorization, event: Option<Read>) returns (row: Row)
    ensures row == BuildRow(consumer, instance, identity, lifecycle, authorization, event)
  {
    var flags := InsertFlags(lifecycle, authorization, event.Some?);
    row := Row(Key(consumer, instance, identity), consumer, instance, identity, lifecycle, authorization, event.Some?,
               if event.Some? then Some(event.value.at) else None,
               if event.Some? then Some(event.value.version) else None, flags);
  }

  method PushDeclared(f: Facts) returns (rows: seq<Row>)
    ensures rows == DeclaredRows(f, f.declarations)
  {
    rows := [];
    for i := 0 to |f.declarations|
      invariant rows + DeclaredRows(f, f.declarations[i..]) == DeclaredRows(f, f.declarations)
    {
      var d := f.declarations[i];
      assert f.declarations[i..][1..] == f.declarations[i + 1..];
      var authorization, event := IdentityMissing, None;
      if d.identity.Some? {
        authorization := AuthorizationOf(f, d.identity.value);
        event := Lookup(f.observed, (d.identity.value, d.instance));
        if event.None? { event := Lookup(f.observed, (d.identity.value, None)); }
      }
      var row := BuildRowInPlace(Some(d.consumer), d.instance, d.identity, d.lifecycle, authorization, event);
      ghost var rest := DeclaredRows(f, f.declarations[i + 1..]);
      assert rows + ([row] + rest) == (rows + [row]) + rest;
      rows := rows + [row];
    }
    assert f.declarations[|f.declarations|..] == [];
    assert rows + [] == rows;
  }

  method PushAuthorized(f: Facts, declared: seq<Row>) returns (rows: seq<Row>)
    ensures rows == AddAuthorized(f, declared, AscendingIds(f.authorized))
  {
    var identities := AscendingIds(f.authorized);
    rows := declared;
    for i := 0 to |identities|
      invariant AddAuthorized(f, rows, identities[i..]) == AddAuthorized(f, declared, identities)
    {
      assert identities[i..][1..] == identities[i + 1..];
      if !HasActive(f, identities[i]) {
        KeysOfObserved(f.observed, identities[i]);
        var event := Latest(f.observed, KeysOf(f.observed, identities[i]));
        var row := BuildRowInPlace(None, if event.Some? then event.value.instance else None, Some(identities[i]),
                                   Absent, Authorized, event);
        rows := rows + [row];
      }
    }
    assert identities[|identities|..] == [];
  }

  method PushObserved(f: Facts, before: seq<Row>) returns (rows: seq<Row>)
    ensures rows == AddObserved(f, before, ObservedKeys(f.observed))
  {
    var keys := ObservedKeys(f.observed);
    rows := before;
    for i := 0 to |keys|
      invariant AddObserved(f, rows, keys[i..]) == AddObserved(f, before, keys)
    {
      assert keys[i..][1..] == keys[i + 1..] && keys[i] in keys;
      if !Covered(f, keys[i]) && !HasUndeclared(rows, keys[i]) {
        var row := BuildRowInPlace(None, keys[i].1, Some(keys[i].0), Absent, AuthorizationOf(f, keys[i].0),
                                   Some(f.observed[keys[i]]));
        rows := rows + [row];
      }
    }
    assert keys[|keys|..] == [];
  }

  method ReconcileSnapshot(s: Snapshot, resource: Bytes, cursor: Option<Bytes>, limit: nat)
    returns (r: Result<Page, ReconcileError>)
    ensures r == Reconcile(s, resource, cursor, limit)
  {
    var refusal := Refusal(s, resource, limit);
    if refusal.Some? { return Err(refusal.value); }
    var observed := GatherObserved(s, resource);
    var f := Facts(set a | a in s.accounts :: a.id,
                   set a | a in s.accounts && a.active && a.id in s.allowed :: a.id,
                   observed, DeclaredFor(s.declarations, resource));
    var rows := PushDeclared(f);
    rows := PushAuthorized(f, rows);
    rows := PushObserved(f, rows);
    rows := Tidy(rows);
    if |rows| > MAX_ROWS { return Err(Limit); }
    var (page, next) := PageOf(rows, cursor, limit);
    return Ok(Page(s.cutoff, |f.declarations|, |f.authorized|, |f.observed|, page, next));
  }
}

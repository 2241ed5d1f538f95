/** What every run of the AppRole catalogue keeps. */
module AuthProofs {
  import opened Prelude
  import opened Text
  import opened AuthModel

  predicate IsLogin(e: Event, accessor: Id) {
    e.operation.AppRoleLogin? && e.outcome.Succeeded? && e.accessor == Some(accessor)
  }

  /** Successful logins the log holds for a secret-id. */
  function Logins(audit: seq<Event>, accessor: Id): nat {
    if audit == [] then 0
    else Logins(audit[..|audit| - 1], accessor) + (if IsLogin(audit[|audit| - 1], accessor) then 1 else 0)
  }

  lemma LoginsAfter(audit: seq<Event>, e: Event, accessor: Id)
    ensures Logins(audit + [e], accessor) == Logins(audit, accessor) + (if IsLogin(e, accessor) then 1 else 0)
  {
    assert (audit + [e])[..|audit|] == audit;
  }

  // ---------------------------------------------------------------- invariant

  predicate UsageOk(a: Id, u: Usage, audit: seq<Event>) {
    && u.accessor == a && a != 0
    && MIN_USES <= u.initial <= MAX_USES && u.remaining <= u.initial
    && u.generation == u.initial - u.remaining + 1
    && Logins(audit, a) == u.initial - u.remaining
  }

  ghost predicate UsagesOk(c: Catalog) {
    && (forall a :: a in c.usages ==> a in c.credentials && UsageOk(a, c.usages[a], c.audit))
    && (forall a :: a !in c.usages ==> Logins(c.audit, a) == 0)
  }

  ghost predicate CredentialsOk(c: Catalog) {
    forall a :: a in c.credentials ==> c.credentials[a].accessor == a
  }

  ghost predicate RolesOk(c: Catalog) {
    && (forall r :: r in c.roles ==> c.roles[r].roleId == r && c.roles[r].generation > 0)
    && (forall r, s :: r in c.roles && s in c.roles && c.roles[r].id == c.roles[s].id ==> r == s)
  }

  ghost predicate Inv(c: Catalog) { UsagesOk(c) && CredentialsOk(c) && RolesOk(c) }

  /** The step left what `UsagesOk` reads alone, but for credentials replaced or added. */
  lemma UsagesStay(c: Catalog, t: Catalog)
    requires UsagesOk(c) && t.usages == c.usages && t.audit == c.audit
    requires c.credentials.Keys <= t.credentials.Keys
    ensures UsagesOk(t)
  {
  }

  lemma NoteKeeps(c: Catalog, e: Event)
    requires UsagesOk(c) && !(e.operation.AppRoleLogin? && e.outcome.Succeeded?)
    ensures UsagesOk(c.(audit := c.audit + [e]))
  {
    forall a
      ensures Logins(c.audit + [e], a) == Logins(c.audit, a)
    {
      LoginsAfter(c.audit, e, a);
    }
  }

  lemma {:induction false} AccessorsAreKeys(usages: map<Id, Usage>, keys: seq<Id>)
    requires forall k :: k in keys ==> k in usages && usages[k].accessor == k
    ensures AccessorsIn(usages, keys) == keys
  {
    if keys != [] {
      assert forall k :: k in keys[1..] ==> k in keys;
      AccessorsAreKeys(usages, keys[1..]);
    }
  }

  /** Only the named credentials moved, each still the same credential. */
  ghost predicate Touches(c: Catalog, t: Catalog, named: set<Id>) {
    && t == c.(credentials := t.credentials) && t.credentials.Keys == c.credentials.Keys
    && forall a :: a in c.credentials ==>
         && t.credentials[a].request == c.credentials[a].request
         && t.credentials[a].accessor == c.credentials[a].accessor
         && (a !in named || c.credentials[a].revoked ==> t.credentials[a] == c.credentials[a])
  }

  ghost predicate AllRevoked(t: Catalog, named: set<Id>) {
    forall a :: a in t.credentials && a in named ==> t.credentials[a].revoked
  }

  lemma RevokeOneEffect(c: Catalog, a: Id)
    requires CredentialsOk(c) && Revocable(c, a)
    ensures CredentialsOk(RevokeOne(c, a).0) && Touches(c, RevokeOne(c, a).0, {a})
    ensures RevokeOne(c, a).1.None? ==> AllRevoked(RevokeOne(c, a).0, {a})
  {
  }

  /** The revoking loop: only the named credentials move, and on success none of them is live. */
  lemma {:induction false} RevokeEachEffect(c: Catalog, accessors: seq<Id>, named: set<Id>)
    requires CredentialsOk(c) && named == set a | a in accessors
    ensures CredentialsOk(RevokeEach(c, accessors).0) && Touches(c, RevokeEach(c, accessors).0, named)
    ensures RevokeEach(c, accessors).1.None? ==> AllRevoked(RevokeEach(c, accessors).0, named)
    decreases |accessors|
  {
    if accessors != [] {
      var first, rest := accessors[0], accessors[1..];
      var others := set a | a in rest;
      assert named == others + {first};
      if !Revocable(c, first) {
        RevokeEachEffect(c, rest, others);
      } else {
        RevokeOneEffect(c, first);
        var next := RevokeOne(c, first).0;
        if RevokeOne(c, first).1.None? { RevokeEachEffect(next, rest, others); }
      }
    }
  }

  lemma RemoveRevokesKeys(c: Catalog, roleRecord: Id, keys: seq<Id>)
    requires UsagesOk(c) && keys == AscendingIds(SecretIdsOf(c, roleRecord))
    ensures var (t, failure) := RevokeEach(c, keys);
      RemoveSecretIds(c, roleRecord) == (t, if failure.Some? then Err(failure.value) else Ok(|keys|))
  {
    forall k | k in keys
      ensures k in c.usages && c.usages[k].accessor == k
    {
      assert UsageOk(k, c.usages[k], c.audit);
    }
    AccessorsAreKeys(c.usages, keys);
  }

  /** `remove_secret_ids_for_role`: a count means every secret-id of the role is now revoked. */
  lemma RemoveRevokesAll(c: Catalog, roleRecord: Id)
    requires UsagesOk(c) && CredentialsOk(c)
    ensures var (t, r) := RemoveSecretIds(c, roleRecord);
      && CredentialsOk(t) && Touches(c, t, SecretIdsOf(c, roleRecord))
      && (r.Ok? ==> r.value == |SecretIdsOf(c, roleRecord)| && AllRevoked(t, SecretIdsOf(c, roleRecord)))
  {
    var keys, named := AscendingIds(SecretIdsOf(c, roleRecord)), SecretIdsOf(c, roleRecord);
    RemoveRevokesKeys(c, roleRecord, keys);
    assert named == set a | a in keys;
    RevokeEachEffect(c, keys, named);
  }

  // ---------------------------------------------------------------- login

  /** A login that fails changes no record: at most it adds one denial to the log. */
  lemma FailedLoginChangesNothing(c: Catalog, roleId: Bytes, p: Presented, request: Id, draws: Draws)
    ensures var (t, r) := Login(c, roleId, p, request, draws);
      r.Err? ==>
        || t == c
        || (exists e: Event :: t == c.(audit := c.audit + [e]) && e.operation.AppRoleLogin? && e.outcome.Denied?
                               && e.request == request && e.identity.None? && r.error.InvalidCredentials?)
  {
    var denial := if request == 0 || !ValidLabel(roleId) then Event(request, AppRoleLogin, Denied, None, None)
                  else Denial(request, p);
    assert denial.operation.AppRoleLogin?;
  }

  /**
    A login that succeeds spends exactly one use of the presented secret-id, adds one fresh token for
    the identity the role and the secret-id share, expiring a lease from now, and logs it.
   */
  lemma LoginSpendsOne(c: Catalog, roleId: Bytes, p: Presented, request: Id, draws: Draws)
    requires Login(c, roleId, p, request, draws).1.Ok?
    ensures Admits(c, roleId, p) && IssuedFor(c, request) == {}
    ensures var (t, r) := Login(c, roleId, p, request, draws);
      var a, token, u := p.accessor, r.value.credential, c.usages[p.accessor];
      && token.accessor !in c.credentials && token.accessor != 0 && token.id !in RecordIds(c)
      && token.kind.Token? && token.request == request && !token.revoked
      && token.identity == c.roles[roleId].identity == c.credentials[a].identity
      && token.parent == Some(c.credentials[a].accessor)
      && token.expires == c.seconds + r.value.lease && r.value.lease == c.roles[roleId].ttl
      && t.roles == c.roles && t.identities == c.identities
      && t.credentials == c.credentials[token.accessor := token]
      && u.remaining > 0
      && t.usages == c.usages[a := u.(remaining := u.remaining - 1, generation := u.generation + 1)]
      && t.audit == c.audit + [Event(request, AppRoleLogin, Succeeded, Some(a), Some(token.identity))]
  {
  }

  lemma LoginKeepsUsages(c: Catalog, roleId: Bytes, p: Presented, request: Id, draws: Draws)
    requires Inv(c)
    ensures UsagesOk(Login(c, roleId, p, request, draws).0)
  {
    var (t, r) := Login(c, roleId, p, request, draws);
    if r.Ok? {
      LoginSpendsOne(c, roleId, p, request, draws);
      var e := t.audit[|c.audit|];
      forall a
        ensures Logins(t.audit, a) == Logins(c.audit, a) + (if a == p.accessor then 1 else 0)
      {
        LoginsAfter(c.audit, e, a);
      }
      assert UsageOk(p.accessor, c.usages[p.accessor], c.audit);
      assert UsageOk(p.accessor, t.usages[p.accessor], t.audit);
      forall a | a in t.usages
        ensures UsageOk(a, t.usages[a], t.audit)
      {
        assert UsageOk(a, c.usages[a], c.audit);
      }
    } else {
      FailedLoginChangesNothing(c, roleId, p, request, draws);
      if t != c {
        var e :| t == c.(audit := c.audit + [e]) && e.outcome.Denied?;
        NoteKeeps(c, e);
      }
    }
  }

  lemma LoginKeepsRest(c: Catalog, roleId: Bytes, p: Presented, request: Id, draws: Draws)
    requires Inv(c)
    ensures var t := Login(c, roleId, p, request, draws).0; CredentialsOk(t) && t.roles == c.roles
  {
    if Login(c, roleId, p, request, draws).1.Ok? {
      LoginSpendsOne(c, roleId, p, request, draws);
    } else {
      FailedLoginChangesNothing(c, roleId, p, request, draws);
    }
  }

  /** Consuming a use never runs out of generations, so an admitted login fails only in issuing. */
  lemma ConsumeNeverFails(c: Catalog, roleId: Bytes, p: Presented)
    requires Inv(c) && Admits(c, roleId, p)
    ensures Consume(c.usages[p.accessor]).Ok?
  {
    assert UsageOk(p.accessor, c.usages[p.accessor], c.audit);
  }

  // ---------------------------------------------------------------- steps

  lemma AddSecretIdKeeps(c: Catalog, roleRecord: Id, credential: Credential, uses: u32)
    requires Inv(c)
    ensures UsagesOk(InsertSecretId(c, roleRecord, credential, uses).0)
  {
    var t := InsertSecretId(c, roleRecord, credential, uses).0;
    if t != c {
      var a := credential.accessor;
      assert a !in c.usages;
      assert UsageOk(a, t.usages[a], t.audit);
      forall b | b in t.usages
        ensures b in t.credentials && UsageOk(b, t.usages[b], t.audit)
      {
        if b != a { assert UsageOk(b, c.usages[b], c.audit); }
      }
    }
  }

  /** The steps that touch neither usages nor the log. */
  predicate Plain(s: Step) {
    s.Tick? || s.AddRole? || s.DropRole? || s.AddIdentity? || s.ChangeIdentity? || s.AddToken? || s.ChangeCredential?
  }

  lemma PlainShape(c: Catalog, s: Step)
    requires Plain(s)
    ensures var t := Next(c, s);
      && t.usages == c.usages && t.audit == c.audit
      && (t.credentials == c.credentials
          || ((s.AddToken? || s.ChangeCredential?)
              && t.credentials == c.credentials[s.credential.accessor := s.credential]
              && (s.ChangeCredential? <==> s.credential.accessor in c.credentials)))
  {
  }

  lemma PlainKeeps(c: Catalog, s: Step)
    requires UsagesOk(c) && CredentialsOk(c) && Plain(s)
    ensures UsagesOk(Next(c, s)) && CredentialsOk(Next(c, s))
  {
    PlainShape(c, s);
    UsagesStay(c, Next(c, s));
  }

  lemma RolesShape(c: Catalog, s: Step)
    requires s.AddRole? || s.DropRole?
    ensures var t := Next(c, s);
      || t.roles == c.roles
      || (s.AddRole? && !RoleClash(c, s.role) && ValidRole(s.role) && t.roles == c.roles[s.role.roleId := s.role])
      || (s.DropRole? && s.roleId in c.roles && c.roles[s.roleId].active && c.roles[s.roleId].generation < U64_MAX
          && t.roles == c.roles[s.roleId := c.roles[s.roleId].(active := false,
                                                               generation := c.roles[s.roleId].generation + 1)])
  {
  }

  lemma LoginKeepsRoles(c: Catalog, roleId: Bytes, p: Presented, request: Id, draws: Draws)
    ensures Login(c, roleId, p, request, draws).0.roles == c.roles
  {
  }

  lemma RolesStay(c: Catalog, s: Step)
    requires !s.AddRole? && !s.DropRole? && !s.DropSecretIds?
    ensures Next(c, s).roles == c.roles
  {
    match s
    case LogIn(roleId, p, request, draws) => LoginKeepsRoles(c, roleId, p, request, draws);
    case AddSecretId(roleRecord, credential, uses) =>
      assert InsertSecretId(c, roleRecord, credential, uses).0.roles == c.roles;
    case _ =>
  }

  lemma RolesKeep(c: Catalog, s: Step)
    requires RolesOk(c) && !s.DropSecretIds?
    ensures RolesOk(Next(c, s))
  {
    if s.AddRole? || s.DropRole? { RolesShape(c, s); } else { RolesStay(c, s); }
  }

  lemma StepKeeps(c: Catalog, s: Step)
    requires Inv(c) && Proper(s)
    ensures Inv(Next(c, s))
  {
    if s.DropSecretIds? {
      RemoveRevokesAll(c, s.roleRecord);
      UsagesStay(c, Next(c, s));
    } else {
      RolesKeep(c, s);
      OtherKeeps(c, s);
    }
  }

  lemma OtherKeeps(c: Catalog, s: Step)
    requires Inv(c) && Proper(s) && !s.DropSecretIds?
    ensures UsagesOk(Next(c, s)) && CredentialsOk(Next(c, s))
  {
    if Plain(s) {
      PlainKeeps(c, s);
    } else if s.LogIn? {
      LoginKeepsUsages(c, s.roleId, s.presented, s.request, s.draws);
      LoginKeepsRest(c, s.roleId, s.presented, s.request, s.draws);
    } else if s.AddSecretId? {
      AddSecretIdKeeps(c, s.roleRecord, s.credential, s.uses);
    } else {
      NoteKeeps(c, s.event);
    }
  }

  ghost predicate AllProper(steps: seq<Step>) {
    forall i :: 0 <= i < |steps| ==> Proper(steps[i])
  }

  lemma {:induction false} RunKeeps(c: Catalog, steps: seq<Step>)
    requires Inv(c) && AllProper(steps)
    ensures Inv(Run(c, steps))
    decreases |steps|
  {
    if steps != [] {
      StepKeeps(c, steps[0]);
      RunKeeps(Next(c, steps[0]), steps[1..]);
    }
  }

  /**
    In every run from a new catalogue the uses a secret-id has spent, its generation less one, and the
    successful logins logged for it are the same number, which never exceeds what it was issued with.
   */
  lemma UsesMatchLogins(epoch: u64, seconds: u64, steps: seq<Step>, accessor: Id)
    requires NewCatalog(epoch, seconds).Ok? && AllProper(steps)
    ensures var c := Run(NewCatalog(epoch, seconds).value, steps);
      && (accessor in c.usages ==>
            var u := c.usages[accessor];
            && u.remaining <= u.initial <= MAX_USES
            && u.initial - u.remaining == u.generation - 1 == Logins(c.audit, accessor))
      && (accessor !in c.usages ==> Logins(c.audit, accessor) == 0)
  {
    var c0 := NewCatalog(epoch, seconds).value;
    RunKeeps(c0, steps);
    var c := Run(c0, steps);
    if accessor in c.usages { assert UsageOk(accessor, c.usages[accessor], c.audit); }
  }

  // ---------------------------------------------------------------- deleted roles

  ghost predicate Deleted(c: Catalog, roleId: Bytes) {
    roleId in c.roles && !c.roles[roleId].active
  }

  /** No secret-id of a deleted role moves, and the role gets no new ones. */
  ghost predicate Frozen(c: Catalog, t: Catalog, roleRecord: Id) {
    && (forall a :: a in c.usages && c.usages[a].role == roleRecord ==> a in t.usages && t.usages[a] == c.usages[a])
    && (forall a :: a in t.usages && t.usages[a].role == roleRecord ==> a in c.usages && t.usages[a] == c.usages[a])
  }

  lemma DeletedRefuses(c: Catalog, roleId: Bytes, p: Presented, other: Bytes)
    requires Inv(c) && Deleted(c, roleId)
    ensures !Admits(c, roleId, p)
    ensures Admits(c, other, p) ==> c.usages[p.accessor].role != c.roles[roleId].id
  {
  }

  lemma DeletedLogin(c: Catalog, roleId: Bytes, other: Bytes, p: Presented, request: Id, draws: Draws)
    requires Inv(c) && Deleted(c, roleId)
    ensures Frozen(c, Login(c, other, p, request, draws).0, c.roles[roleId].id)
    ensures other == roleId ==> Login(c, other, p, request, draws).1.Err?
  {
    DeletedRefuses(c, roleId, p, other);
    if Login(c, other, p, request, draws).1.Ok? {
      LoginSpendsOne(c, other, p, request, draws);
    } else {
      FailedLoginChangesNothing(c, other, p, request, draws);
    }
  }

  lemma DeletedAddsNone(c: Catalog, roleId: Bytes, roleRecord: Id, credential: Credential, uses: u32)
    requires Inv(c) && Deleted(c, roleId)
    ensures Frozen(c, InsertSecretId(c, roleRecord, credential, uses).0, c.roles[roleId].id)
  {
    if InsertSecretId(c, roleRecord, credential, uses).1.None? {
      var key :| key in c.roles && c.roles[key].id == roleRecord && c.roles[key].active;
      assert roleRecord != c.roles[roleId].id;
    }
  }

  lemma DeletedRoleStays(c: Catalog, roleId: Bytes, s: Step)
    requires Inv(c) && Deleted(c, roleId)
    ensures roleId in Next(c, s).roles && Next(c, s).roles[roleId] == c.roles[roleId]
  {
    if s.DropSecretIds? {
      RemoveRevokesAll(c, s.roleRecord);
    } else if s.AddRole? || s.DropRole? {
      RolesShape(c, s);
    } else {
      RolesStay(c, s);
    }
  }

  lemma DeletedFreezes(c: Catalog, roleId: Bytes, s: Step)
    requires Inv(c) && Deleted(c, roleId)
    ensures Frozen(c, Next(c, s), c.roles[roleId].id)
  {
    if s.DropSecretIds? {
      RemoveRevokesAll(c, s.roleRecord);
    } else if s.LogIn? {
      DeletedLogin(c, roleId, s.roleId, s.presented, s.request, s.draws);
    } else if s.AddSecretId? {
      DeletedAddsNone(c, roleId, s.roleRecord, s.credential, s.uses);
    } else if Plain(s) {
      PlainShape(c, s);
    }
  }

  ghost predicate NoLoginUnder(c: Catalog, steps: seq<Step>, roleId: Bytes)
    decreases |steps|
  {
    steps == [] ||
    (var s := steps[0];
     && (s.LogIn? && s.roleId == roleId ==> Login(c, roleId, s.presented, s.request, s.draws).1.Err?)
     && NoLoginUnder(Next(c, s), steps[1..], roleId))
  }

  /**
    Once a role is deleted, in every later run its record stays as it is, no login under it succeeds,
    and its secret-ids, under whatever role they are presented, spend nothing more.
   */
  lemma {:induction false} DeletedNeverLogsIn(c: Catalog, roleId: Bytes, steps: seq<Step>)
    requires Inv(c) && AllProper(steps) && Deleted(c, roleId)
    ensures NoLoginUnder(c, steps, roleId)
    ensures roleId in Run(c, steps).roles && Run(c, steps).roles[roleId] == c.roles[roleId]
    ensures Frozen(c, Run(c, steps), c.roles[roleId].id)
    decreases |steps|
  {
    if steps != [] {
      StepKeeps(c, steps[0]);
      DeletedRoleStays(c, roleId, steps[0]);
      DeletedFreezes(c, roleId, steps[0]);
      if steps[0].LogIn? {
        DeletedLogin(c, roleId, steps[0].roleId, steps[0].presented, steps[0].request, steps[0].draws);
      }
      DeletedNeverLogsIn(Next(c, steps[0]), roleId, steps[1..]);
    }
  }

  // ---------------------------------------------------------------- requests

  predicate CommittedBy(e: Event, request: Id) {
    e.operation.AppRoleLogin? && e.outcome.Succeeded? && e.request == request
  }

  /** Every committed login's request is on record with the token it issued, and none committed twice. */
  ghost predicate RequestsOk(c: Catalog) {
    && (forall i :: 0 <= i < |c.audit| && CommittedBy(c.audit[i], c.audit[i].request)
                    ==> IssuedFor(c, c.audit[i].request) != {})
    && (forall i, j :: 0 <= i < j < |c.audit| && CommittedBy(c.audit[i], c.audit[i].request)
                       ==> !CommittedBy(c.audit[j], c.audit[i].request))
  }

  /** An accepted replacement that takes the last credential of a committed request to another one. */
  ghost predicate Orphans(c: Catalog, s: Step) {
    && s.ChangeCredential? && ReplaceCredential(c, s.credential).1.None?
    && var was := c.credentials[s.credential.accessor].request;
    && s.credential.request != was
    && IssuedFor(c, was) == {s.credential.accessor}
    && exists i :: 0 <= i < |c.audit| && CommittedBy(c.audit[i], was)
  }

  lemma RequestsStay(c: Catalog, t: Catalog)
    requires RequestsOk(c) && t.audit == c.audit
    requires forall a :: a in c.credentials ==> a in t.credentials && t.credentials[a].request == c.credentials[a].request
    ensures RequestsOk(t)
  {
    forall request | IssuedFor(c, request) != {}
      ensures IssuedFor(t, request) != {}
    {
      var a :| a in IssuedFor(c, request);
      assert a in IssuedFor(t, request);
    }
  }

  lemma RequestsNote(c: Catalog, e: Event)
    requires RequestsOk(c) && !CommittedBy(e, e.request)
    ensures RequestsOk(c.(audit := c.audit + [e]))
  {
    var t := c.(audit := c.audit + [e]);
    assert forall request :: IssuedFor(t, request) == IssuedFor(c, request);
    assert forall i :: 0 <= i < |c.audit| ==> t.audit[i] == c.audit[i];
  }

  lemma RequestsLogin(c: Catalog, roleId: Bytes, p: Presented, request: Id, draws: Draws)
    requires RequestsOk(c)
    ensures RequestsOk(Login(c, roleId, p, request, draws).0)
  {
    var (t, r) := Login(c, roleId, p, request, draws);
    if r.Ok? {
      LoginSpendsOne(c, roleId, p, request, draws);
      var token := r.value.credential;
      RequestsStay(c, t.(audit := c.audit));
      assert token.accessor in IssuedFor(t, request);
      assert forall q :: IssuedFor(t.(audit := c.audit), q) == IssuedFor(t, q);
      assert forall i :: 0 <= i < |c.audit| ==> t.audit[i] == c.audit[i];
    } else {
      FailedLoginChangesNothing(c, roleId, p, request, draws);
      if t != c {
        var e :| t == c.(audit := c.audit + [e]) && e.outcome.Denied?;
        RequestsNote(c, e);
      }
    }
  }

  lemma ReplacementShape(c: Catalog, r: Credential)
    ensures var (t, failure) := ReplaceCredential(c, r);
      if failure.None? then r.accessor in c.credentials && t == c.(credentials := c.credentials[r.accessor := r])
      else t == c
  {
  }

  /** An accepted replacement moves at most its own accessor from one request to another. */
  lemma ReplacementMoves(c: Catalog, r: Credential, q: Id)
    requires ReplaceCredential(c, r).1.None?
    ensures r.accessor in c.credentials
    ensures var t := ReplaceCredential(c, r).0;
      IssuedFor(t, q) == (if r.request == q then IssuedFor(c, q) + {r.accessor} else IssuedFor(c, q) - {r.accessor})
  {
    ReplacementShape(c, r);
  }

  lemma ReplacementKeepsExactly(c: Catalog, s: Step)
    requires RequestsOk(c) && s.ChangeCredential?
    ensures RequestsOk(Next(c, s)) <==> !Orphans(c, s)
  {
    var t, r := Next(c, s), s.credential;
    ReplacementShape(c, r);
    if t != c {
      var was := c.credentials[r.accessor].request;
      assert r.accessor in IssuedFor(c, was);
      ReplacementMoves(c, r, was);
      if !Orphans(c, s) {
        forall i | 0 <= i < |t.audit| && CommittedBy(t.audit[i], t.audit[i].request)
          ensures IssuedFor(t, t.audit[i].request) != {}
        {
          var q := t.audit[i].request;
          ReplacementMoves(c, r, q);
          var a :| a in IssuedFor(c, q);
          if q == was && r.request != q { OtherCredential(c, q, r.accessor); }
        }
      }
    }
  }

  lemma OtherCredential(c: Catalog, q: Id, a: Id)
    requires a in IssuedFor(c, q) && IssuedFor(c, q) != {a}
    ensures IssuedFor(c, q) - {a} != {}
  {
    assert IssuedFor(c, q) == (IssuedFor(c, q) - {a}) + {a};
  }

  /** A step breaks the record of committed requests exactly by orphaning one. */
  lemma RequestsKeptExactly(c: Catalog, s: Step)
    requires Inv(c) && RequestsOk(c) && Proper(s)
    ensures RequestsOk(Next(c, s)) <==> !Orphans(c, s)
  {
    if s.ChangeCredential? {
      ReplacementKeepsExactly(c, s);
    } else if s.LogIn? {
      RequestsLogin(c, s.roleId, s.presented, s.request, s.draws);
    } else if s.Note? {
      RequestsNote(c, s.event);
    } else {
      if s.DropSecretIds? {
        RemoveRevokesAll(c, s.roleRecord);
      } else if Plain(s) {
        PlainShape(c, s);
      }
      RequestsStay(c, Next(c, s));
    }
  }

  ghost predicate NeverOrphans(c: Catalog, steps: seq<Step>)
    decreases |steps|
  {
    steps == [] || (!Orphans(c, steps[0]) && NeverOrphans(Next(c, steps[0]), steps[1..]))
  }

  /** Retrying a request never spends a second use: in every run that orphans none, no request id commits twice. */
  lemma {:induction false} RequestCommitsOnce(c: Catalog, steps: seq<Step>)
    requires Inv(c) && RequestsOk(c) && AllProper(steps) && NeverOrphans(c, steps)
    ensures RequestsOk(Run(c, steps))
    decreases |steps|
  {
    if steps != [] {
      StepKeeps(c, steps[0]);
      RequestsKeptExactly(c, steps[0]);
      RequestCommitsOnce(Next(c, steps[0]), steps[1..]);
    }
  }

  // ---------------------------------------------------------------- a request that commits twice

  /** One role, one identity and one secret-id with two uses. */
  function Sample(): Catalog {
    Catalog(1, 1, map[[0x72] := Role(1, [0x72], [0x6E], 1, 60, true, 1)],
            map[1 := Identity(1, [0x69], 0, true, 1)],
            map[1 := Credential(1, 1, SecretId, DataPlane, 1, 1, 100, false, 1, [0x73], 1, 1, 9, None, None)],
            map[1 := Usage(1, 1, 2, 2, 1)], [])
  }

  /** The steps that set the sample up in a new catalogue. */
  function SampleSetup(): seq<Step> {
    [AddIdentity(Identity(1, [0x69], 0, true, 1), true), AddRole(Role(1, [0x72], [0x6E], 1, 60, true, 1)),
     AddSecretId(1, Sample().credentials[1], 2)]
  }

  lemma SampleIsReached()
    ensures NewCatalog(1, 1).Ok? && Run(NewCatalog(1, 1).value, SampleSetup()) == Sample()
  {
    var c := NewCatalog(1, 1).value;
    var s := SampleSetup();
    assert ValidLabel([0x72]) && ValidLabel([0x6E]) && ValidLabel([0x73]);
    var c1 := Next(c, s[0]);
    var c2 := Next(c1, s[1]);
    assert c2.roles[[0x72]] == Sample().roles[[0x72]];
    assert RoleTakes(c2, 1, 1);
    RunThree(c, s[0], s[1], s[2]);
    assert s == [s[0], s[1], s[2]];
  }

  lemma {:induction false} RunConcat(c: Catalog, a: seq<Step>, b: seq<Step>)
    ensures Run(c, a + b) == Run(Run(c, a), b)
    decreases |a|
  {
    if a == [] {
      assert a + b == b;
    } else {
      assert (a + b)[1..] == a[1..] + b;
      RunConcat(Next(c, a[0]), a[1..], b);
    }
  }

  /** The token the sample's login issues under request 5 for the `n`-th drawn value. */
  function SampleToken(n: Id): Credential {
    Credential(n, n, Token, DataPlane, 1, 1, 61, false, 1, LABEL_PREFIX + [0x6E], 1, 1, 5, Some(1), None)
  }

  lemma SampleIssues(c: Catalog, n: Id)
    requires c.epoch == 1 && c.seconds == 1 && c.roles == Sample().roles && n > 1
    requires n !in c.credentials && n !in RecordIds(c) && IssuedFor(c, 5) == {}
    requires 1 in c.credentials && c.credentials[1] == Sample().credentials[1]
    requires 1 in c.usages && c.usages[1].role == 1 && c.usages[1].remaining > 0 && c.usages[1].generation < 9
    ensures var (t, r) := Login(c, [0x72], Wire(SecretId, DataPlane, 1, true), 5, Draws([n], [n], true));
      && r.Ok? && r.value.credential == SampleToken(n)
      && t.audit == c.audit + [Event(5, AppRoleLogin, Succeeded, Some(1), Some(1))]
      && t.credentials == c.credentials[n := SampleToken(n)]
      && t.usages == c.usages[1 := c.usages[1].(remaining := c.usages[1].remaining - 1,
                                                generation := c.usages[1].generation + 1)]
      && t.roles == c.roles && t.epoch == 1 && t.seconds == 1
  {
    assert ValidLabel([0x72]);
    assert FirstUsable([n], ATTEMPTS, RecordIds(c)) == Some(n);
    assert FirstUsable([n], ATTEMPTS, c.credentials.Keys) == Some(n);
    var token := SampleToken(n);
    assert forall i :: 0 <= i < |token.caption| ==> token.caption[i] != 0 && token.caption[i] != SLASH
                                                    && token.caption[i] != 0x0A && token.caption[i] != 0x0D;
    assert ValidRecord(token);
  }

  lemma RunThree(c: Catalog, s1: Step, s2: Step, s3: Step)
    ensures Run(c, [s1, s2, s3]) == Next(Next(Next(c, s1), s2), s3)
  {
    assert [s1, s2, s3][1..] == [s2, s3] && [s2, s3][1..] == [s3] && [s3][1..] == [];
    var c2 := Next(Next(c, s1), s2);
    assert Run(c2, [s3]) == Next(c2, s3);
    assert Run(Next(c, s1), [s2, s3]) == Next(c2, s3);
  }

  function SampleLogin(n: Id): Step {
    LogIn([0x72], Wire(SecretId, DataPlane, 1, true), 5, Draws([n], [n], true))
  }

  /** The sample's token, moved from request 5 to request 6. */
  function SampleMove(): Step { ChangeCredential(SampleToken(2).(request := 6, generation := 2)) }

  lemma SampleMoves(c: Catalog)
    requires c == Next(Sample(), SampleLogin(2))
    ensures Orphans(c, SampleMove()) && |c.audit| == 1 && CommittedBy(c.audit[0], 5)
    ensures Next(c, SampleMove()) == c.(credentials := c.credentials[2 := SampleMove().credential])
    ensures c.credentials == Sample().credentials[2 := SampleToken(2)]
    ensures c.epoch == 1 && c.seconds == 1 && c.roles == Sample().roles
    ensures 1 in c.usages && c.usages[1].role == 1 && c.usages[1].remaining == 1 && c.usages[1].generation == 2
  {
    SampleIssues(Sample(), 2);
    ReplacementShape(c, SampleMove().credential);
    assert IssuedFor(c, 5) == {2};
    assert CommittedBy(c.audit[0], 5);
  }

  /** Login, move the token to another request, log in again: request 5 has committed twice. */
  lemma SampleCommitsTwice()
    ensures var t := Run(Sample(), [SampleLogin(2), SampleMove(), SampleLogin(3)]);
      |t.audit| == 2 && CommittedBy(t.audit[0], 5) && CommittedBy(t.audit[1], 5)
  {
    var c := Next(Sample(), SampleLogin(2));
    SampleMoves(c);
    SampleIssues(Next(c, SampleMove()), 3);
    RunThree(Sample(), SampleLogin(2), SampleMove(), SampleLogin(3));
  }

  /** So a run of a new catalogue can commit a request twice. */
  lemma RequestCanCommitTwice()
    ensures var c := NewCatalog(1, 1);
      && c.Ok?
      && var t := Run(c.value, SampleSetup() + [SampleLogin(2), SampleMove(), SampleLogin(3)]);
      && |t.audit| == 2 && CommittedBy(t.audit[0], 5) && CommittedBy(t.audit[1], 5)
    ensures Orphans(Next(Sample(), SampleLogin(2)), SampleMove())
  {
    SampleMoves(Next(Sample(), SampleLogin(2)));
    SampleIsReached();
    SampleCommitsTwice();
    RunConcat(NewCatalog(1, 1).value, SampleSetup(), [SampleLogin(2), SampleMove(), SampleLogin(3)]);
  }
}

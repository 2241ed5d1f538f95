/** When each call on the AppRole catalogue succeeds, in terms of what is on record. */
module AuthAnswers {
  import opened Prelude
  import opened Text
  import opened AuthModel
  import opened AuthProofs

  /** A public label: some bytes, not too many, no control character and no separator. */
  predicate IsLabel(s: Bytes) {
    1 <= |s| <= 255 && !HasControl(s) && forall i :: 0 <= i < |s| ==> s[i] != 0x2F && s[i] != 0x5C
  }

  lemma LabelMeaning(s: Bytes)
    ensures ValidLabel(s) <==> IsLabel(s)
  {
  }

  // ---------------------------------------------------------------- login

  /** The presented secret is a live data-plane secret-id of the current epoch, and genuinely so. */
  predicate Genuine(c: Catalog, p: Presented) {
    && p.Wire? && p.kind == SecretId && p.audience == DataPlane && p.authentic
    && p.accessor in c.credentials
    && c.credentials[p.accessor].epoch == c.epoch && !c.credentials[p.accessor].revoked
    && c.seconds < c.credentials[p.accessor].expires
  }

  /** It has a use left, under an active role of that public id, for the identity both share. */
  predicate Entitled(c: Catalog, roleId: Bytes, p: Presented) {
    && Genuine(c, p)
    && roleId in c.roles && c.roles[roleId].active
    && p.accessor in c.usages && c.usages[p.accessor].role == c.roles[roleId].id
    && c.credentials[p.accessor].identity == c.roles[roleId].identity
    && c.usages[p.accessor].remaining > 0
  }

  /** Some credential was issued under the request already. */
  ghost predicate Used(c: Catalog, request: Id) {
    exists a :: a in c.credentials && c.credentials[a].request == request
  }

  lemma UsedMeaning(c: Catalog, request: Id)
    ensures IssuedFor(c, request) != {} <==> Used(c, request)
  {
    if Used(c, request) {
      var a :| a in c.credentials && c.credentials[a].request == request;
      assert a in IssuedFor(c, request);
    }
  }

  /** A login is denied exactly for its request, its role id, or a secret that does not entitle to it. */
  lemma LoginDeniedExactly(c: Catalog, roleId: Bytes, p: Presented, request: Id, draws: Draws)
    ensures Login(c, roleId, p, request, draws).1 == Err(InvalidCredentials) <==>
      request == 0 || !IsLabel(roleId) || (!Used(c, request) && !Entitled(c, roleId, p))
  {
    LabelMeaning(roleId);
    UsedMeaning(c, request);
  }

  /** All a denial does is log itself, under the accessor presented once the request is in order. */
  lemma DenialLogs(c: Catalog, roleId: Bytes, p: Presented, request: Id, draws: Draws)
    requires Login(c, roleId, p, request, draws).1 == Err(InvalidCredentials)
    ensures Login(c, roleId, p, request, draws).0
         == c.(audit := c.audit + [Event(request, AppRoleLogin, Denied,
                                         if request != 0 && IsLabel(roleId) && p.Wire? then Some(p.accessor) else None,
                                         None)])
  {
    LabelMeaning(roleId);
  }

  /** A used request is answered with a credential issued under it, and nothing changes. */
  lemma RetryIsTold(c: Catalog, roleId: Bytes, p: Presented, request: Id, draws: Draws)
    requires CredentialsOk(c) && request != 0 && IsLabel(roleId)
    ensures Used(c, request) <==>
      && Login(c, roleId, p, request, draws).1.Err?
      && Login(c, roleId, p, request, draws).1.error.AlreadyCommitted?
    ensures Used(c, request) ==>
      var (t, r) := Login(c, roleId, p, request, draws);
      && t == c && r.error.accessor in c.credentials && c.credentials[r.error.accessor].request == request
  {
    LabelMeaning(roleId);
    UsedMeaning(c, request);
    if Used(c, request) {
      var first := AscendingIds(IssuedFor(c, request))[0];
      assert first in AscendingIds(IssuedFor(c, request));
    }
  }

  /** The first of the draws, within eight attempts, that is neither zero nor taken. */
  ghost predicate Drawn(draws: seq<Id>, taken: set<Id>, value: Id) {
    exists k :: && 0 <= k < |draws| && k < 8 && draws[k] == value != 0 && value !in taken
                && forall i :: 0 <= i < k ==> draws[i] == 0 || draws[i] in taken
  }

  lemma {:induction false} FirstUsableIs(draws: seq<Id>, attempts: nat, taken: set<Id>, value: Id)
    ensures FirstUsable(draws, attempts, taken) == Some(value) <==>
      exists k :: && 0 <= k < |draws| && k < attempts && draws[k] == value != 0 && value !in taken
                  && forall i :: 0 <= i < k ==> draws[i] == 0 || draws[i] in taken
    decreases attempts
  {
    if attempts > 0 && draws != [] {
      if draws[0] != 0 && draws[0] !in taken {
        if draws[0] == value { assert draws[0] == value; }
      } else {
        var rest := draws[1..];
        FirstUsableIs(rest, attempts - 1, taken, value);
        assert forall k :: 0 <= k < |rest| ==> rest[k] == draws[k + 1];
        if k :| && 0 <= k < |rest| && k < attempts - 1 && rest[k] == value != 0 && value !in taken
                && forall i :: 0 <= i < k ==> rest[i] == 0 || rest[i] in taken
        {
          assert draws[k + 1] == value;
          forall i | 0 <= i < k + 1
            ensures draws[i] == 0 || draws[i] in taken
          {
            if i > 0 { assert rest[i - 1] == draws[i]; }
          }
        }
        if k :| && 0 <= k < |draws| && k < attempts && draws[k] == value != 0 && value !in taken
                && forall i :: 0 <= i < k ==> draws[i] == 0 || draws[i] in taken
        {
          assert rest[k - 1] == value;
          assert forall i :: 0 <= i < k - 1 ==> rest[i] == draws[i + 1];
        }
      }
    }
  }

  lemma DrawnMeaning(draws: seq<Id>, taken: set<Id>, value: Id)
    ensures FirstUsable(draws, ATTEMPTS, taken) == Some(value) <==> Drawn(draws, taken, value)
  {
    FirstUsableIs(draws, 8, taken, value);
  }

  /** The token a login issues: its own id and accessor, everything else from role, secret-id and clock. */
  ghost predicate Issues(c: Catalog, roleId: Bytes, p: Presented, request: Id, token: Credential)
    requires Entitled(c, roleId, p)
  {
    var (role, parent) := (c.roles[roleId], c.credentials[p.accessor]);
    && token.kind == Token && token.audience == DataPlane && !token.revoked && token.generation == 1
    && token.identity == parent.identity && token.issuer == parent.identity && token.epoch == parent.epoch
    && token.created == c.seconds && token.expires == c.seconds + role.ttl && token.request == request
    && token.caption == LABEL_PREFIX + role.name
    && token.parent == Some(parent.accessor) && token.instance == parent.instance
  }

  /** A token that can be put on record. */
  predicate Recordable(t: Credential) {
    && t.id != 0 && t.accessor != 0 && t.identity != 0 && t.epoch != 0 && t.generation != 0
    && 1 <= |t.caption| <= 255
    && (forall i :: 0 <= i < |t.caption| ==>
          t.caption[i] != 0 && t.caption[i] != 0x2F && t.caption[i] != 0x0A && t.caption[i] != 0x0D)
    && t.created != 0 && t.created < t.expires && t.issuer != 0 && t.request != 0
  }

  lemma RecordableMeaning(t: Credential)
    ensures ValidRecord(t) <==> Recordable(t)
  {
  }

  /**
    An entitled login succeeds with exactly one token: that of its role, secret-id and clock, under
    the first identifiers drawn that are free; and fails only for want of randomness, counters or a
    recordable token.
   */
  lemma LoginExact(c: Catalog, roleId: Bytes, p: Presented, request: Id, draws: Draws, token: Credential)
    requires request != 0 && IsLabel(roleId) && !Used(c, request) && Entitled(c, roleId, p)
    ensures var r := Login(c, roleId, p, request, draws).1;
      r.Ok? && r.value.credential == token <==>
        && Issues(c, roleId, p, request, token) && Recordable(token)
        && Drawn(draws.ids, RecordIds(c), token.id) && Drawn(draws.accessors, c.credentials.Keys, token.accessor)
        && draws.secretDrawn && c.credentials[p.accessor].kind == SecretId
        && c.usages[p.accessor].generation < U64_MAX && c.seconds + c.roles[roleId].ttl <= U64_MAX
  {
    LabelMeaning(roleId);
    UsedMeaning(c, request);
    RecordableMeaning(token);
    DrawnMeaning(draws.ids, RecordIds(c), token.id);
    DrawnMeaning(draws.accessors, c.credentials.Keys, token.accessor);
    IssueMeaning(c, roleId, p, request, draws, token);
  }

  lemma IssueMeaning(c: Catalog, roleId: Bytes, p: Presented, request: Id, draws: Draws, token: Credential)
    requires Entitled(c, roleId, p)
    ensures Issue(c, c.roles[roleId], c.credentials[p.accessor], request, draws) == Ok(token) <==>
      && Issues(c, roleId, p, request, token) && ValidRecord(token)
      && FirstUsable(draws.ids, ATTEMPTS, RecordIds(c)) == Some(token.id)
      && FirstUsable(draws.accessors, ATTEMPTS, c.credentials.Keys) == Some(token.accessor)
      && draws.secretDrawn && c.credentials[p.accessor].kind == SecretId
      && c.seconds + c.roles[roleId].ttl <= U64_MAX
  {
  }

  /** The caller gets the token with the role's lease, name and identity. */
  lemma LoginAnswers(c: Catalog, roleId: Bytes, p: Presented, request: Id, draws: Draws)
    requires Login(c, roleId, p, request, draws).1.Ok?
    ensures var r := Login(c, roleId, p, request, draws).1.value;
      && roleId in c.roles && r.lease == c.roles[roleId].ttl && r.roleName == c.roles[roleId].name
      && r.identity == c.roles[roleId].identity
  {
  }

  // ---------------------------------------------------------------- roles

  lemma InsertRoleExact(c: Catalog, role: Role)
    ensures var (t, failure) := InsertRole(c, role);
      && (failure == None <==>
            && role.id != 0 && role.identity != 0 && role.generation != 0 && IsLabel(role.roleId) && IsLabel(role.name)
            && 60 <= role.ttl <= 86_400
            && role.identity in c.identities && c.identities[role.identity].active
            && role.roleId !in c.roles
            && forall k :: k in c.roles ==> c.roles[k].id != role.id && c.roles[k].name != role.name)
      && (failure == None ==> t == c.(roles := c.roles[role.roleId := role]))
      && (failure.Some? ==> t == c)
  {
    LabelMeaning(role.roleId);
    LabelMeaning(role.name);
  }

  lemma DeleteRoleExact(c: Catalog, roleId: Bytes, expected: u64)
    ensures var (t, failure) := DeleteRole(c, roleId, expected);
      && (failure == None <==>
            roleId in c.roles && c.roles[roleId].active && c.roles[roleId].generation == expected < U64_MAX)
      && (failure == None ==>
            t == c.(roles := c.roles[roleId := c.roles[roleId].(active := false, generation := expected + 1)]))
      && (failure.Some? ==> t == c)
  {
  }

  // ---------------------------------------------------------------- credentials

  lemma InsertSecretIdExact(c: Catalog, roleRecord: Id, credential: Credential, uses: u32)
    ensures var (t, failure) := InsertSecretId(c, roleRecord, credential, uses);
      && (failure == None <==>
            && credential.kind == SecretId && credential.audience == DataPlane
            && (exists k :: k in c.roles && c.roles[k].active && c.roles[k].id == roleRecord
                            && c.roles[k].identity == credential.identity)
            && credential.accessor !in c.credentials
            && 1 <= uses <= 1_000 && credential.accessor != 0 && roleRecord != 0)
      && (failure == None ==>
            t == c.(credentials := c.credentials[credential.accessor := credential],
                    usages := c.usages[credential.accessor := Usage(credential.accessor, roleRecord, uses, uses, 1)]))
      && (failure.Some? ==> t == c)
  {
  }

  lemma InsertTokenExact(c: Catalog, credential: Credential)
    ensures var (t, failure) := InsertToken(c, credential);
      && (failure == None <==>
            && credential.kind == Token && credential.accessor !in c.credentials
            && credential.identity in c.identities && c.identities[credential.identity].active)
      && (failure == None ==> t == c.(credentials := c.credentials[credential.accessor := credential]))
      && (failure.Some? ==> t == c)
  {
  }

  lemma ReplaceCredentialExact(c: Catalog, replacement: Credential)
    ensures var (t, failure) := ReplaceCredential(c, replacement);
      && (failure == None <==>
            && replacement.accessor in c.credentials
            && var current := c.credentials[replacement.accessor];
            && replacement.id == current.id && current.generation < U64_MAX
            && replacement.generation == current.generation + 1)
      && (failure == None ==> t == c.(credentials := c.credentials[replacement.accessor := replacement]))
      && (failure.Some? ==> t == c)
  {
  }

  lemma IdentitiesExact(c: Catalog, identity: Identity, encodes: bool)
    ensures var (t, failure) := InsertIdentity(c, identity, encodes);
      && (failure == None <==> encodes && identity.id !in c.identities)
      && (failure == None ==> t == c.(identities := c.identities[identity.id := identity]))
      && (failure.Some? ==> t == c)
    ensures var (t, failure) := ReplaceIdentity(c, identity, encodes);
      && (failure == None <==>
            && encodes && identity.id in c.identities
            && var current := c.identities[identity.id];
            && current.generation < U64_MAX && identity.generation == current.generation + 1
            && identity.name == current.name && identity.kind == current.kind)
      && (failure == None ==> t == c.(identities := c.identities[identity.id := identity]))
      && (failure.Some? ==> t == c)
  {
  }

  // ---------------------------------------------------------------- the clock

  /** A new catalogue is empty, at an epoch and a time that are not zero. */
  lemma NewCatalogExact(epoch: u64, seconds: u64)
    ensures NewCatalog(epoch, seconds).Ok? <==> epoch != 0 && seconds != 0
    ensures NewCatalog(epoch, seconds).Ok? ==>
      NewCatalog(epoch, seconds).value == Catalog(epoch, seconds, map[], map[], map[], map[], [])
  {
  }

  lemma SetSecondsExact(c: Catalog, seconds: u64)
    ensures SetSeconds(c, seconds)
         == if seconds >= c.seconds then (c.(seconds := seconds), None) else (c, Some(InvalidInput))
  {
  }

  /** In every run the time never falls and the epoch stays, so what has expired stays expired. */
  lemma {:induction false} TimeNeverFalls(c: Catalog, steps: seq<Step>)
    ensures Run(c, steps).seconds >= c.seconds && Run(c, steps).epoch == c.epoch
    decreases |steps|
  {
    if steps != [] {
      StepKeepsTime(c, steps[0]);
      TimeNeverFalls(Next(c, steps[0]), steps[1..]);
    }
  }

  lemma StepKeepsTime(c: Catalog, s: Step)
    ensures Next(c, s).seconds >= c.seconds && Next(c, s).epoch == c.epoch
  {
    if s.DropSecretIds? {
      RevokeKeepsTime(c, AccessorsIn(c.usages, AscendingIds(SecretIdsOf(c, s.roleRecord))));
    }
  }

  lemma {:induction false} RevokeKeepsTime(c: Catalog, accessors: seq<Id>)
    ensures RevokeEach(c, accessors).0.seconds == c.seconds && RevokeEach(c, accessors).0.epoch == c.epoch
    decreases |accessors|
  {
    if accessors != [] {
      if !Revocable(c, accessors[0]) {
        RevokeKeepsTime(c, accessors[1..]);
      } else {
        RevokeKeepsTime(RevokeOne(c, accessors[0]).0, accessors[1..]);
      }
    }
  }

  /** A presented secret whose credential has expired is denied for ever, unless the credential is replaced. */
  lemma ExpiredStaysDenied(c: Catalog, steps: seq<Step>, roleId: Bytes, p: Presented, request: Id, draws: Draws)
    requires p.Wire? && p.accessor in c.credentials && c.seconds >= c.credentials[p.accessor].expires
    requires p.accessor in Run(c, steps).credentials
    requires Run(c, steps).credentials[p.accessor].expires == c.credentials[p.accessor].expires
    requires request != 0 && IsLabel(roleId) && !Used(Run(c, steps), request)
    ensures Login(Run(c, steps), roleId, p, request, draws).1 == Err(InvalidCredentials)
  {
    TimeNeverFalls(c, steps);
    LoginDeniedExactly(Run(c, steps), roleId, p, request, draws);
  }
}

/** `AuthCatalog` as the object it is. */
module AuthStore {
  import opened Prelude
  import opened Text
  import M = AuthModel

  /** One value per attempt until one is neither zero nor taken. */
  method DrawUsable(draws: seq<Id>, taken: set<Id>) returns (r: Option<Id>)
    ensures r == M.FirstUsable(draws, M.ATTEMPTS, taken)
  {
    var attempt: nat := 0;
    while attempt < M.ATTEMPTS
      invariant attempt <= M.ATTEMPTS && attempt <= |draws|
      invariant M.FirstUsable(draws, M.ATTEMPTS, taken)
             == M.FirstUsable(draws[attempt..], M.ATTEMPTS - attempt, taken)
    {
      if attempt == |draws| { return None; }
      var candidate := draws[attempt];
      if candidate != 0 && candidate !in taken { return Some(candidate); }
      assert draws[attempt..][1..] == draws[attempt + 1..];
      attempt := attempt + 1;
    }
    return None;
  }

  class AuthCatalog {
    var epoch: u64
    var seconds: u64
    var roles: map<Bytes, M.Role>
    var identities: map<Id, M.Identity>
    var credentials: map<Id, M.Credential>
    var usages: map<Id, M.Usage>
    var audit: seq<M.Event>

    ghost function Model(): M.Catalog
      reads this
    {
      M.Catalog(epoch, seconds, roles, identities, credentials, usages, audit)
    }

    constructor (epoch: u64, seconds: u64)
      requires epoch != 0 && seconds != 0
      ensures M.NewCatalog(epoch, seconds) == Ok(Model())
    {
      this.epoch := epoch;
      this.seconds := seconds;
      roles, identities, credentials, usages, audit := map[], map[], map[], map[], [];
    }

    method InsertRole(role: M.Role) returns (failure: Option<M.AuthError>)
      modifies this
      ensures (Model(), failure) == M.InsertRole(old(Model()), role)
    {
      if !M.ValidRole(role) { return Some(M.InvalidInput); }
      if role.identity !in identities || !identities[role.identity].active || role.roleId in roles
         || exists key :: key in roles && (roles[key].id == role.id || roles[key].name == role.name)
      {
        return Some(M.Conflict);
      }
      roles := roles[role.roleId := role];
      return None;
    }

    method DeleteRole(roleId: Bytes, expected: u64) returns (failure: Option<M.AuthError>)
      modifies this
      ensures (Model(), failure) == M.DeleteRole(old(Model()), roleId, expected)
    {
      if roleId !in roles { return Some(M.Conflict); }
      var current := roles[roleId];
      if !current.active || current.generation != expected { return Some(M.Conflict); }
      if current.generation == U64_MAX { return Some(M.InvalidInput); }
      roles := roles[roleId := current.(active := false, generation := current.generation + 1)];
      return None;
    }

    method InsertSecretId(roleRecord: Id, credential: M.Credential, uses: u32) returns (failure: Option<M.AuthError>)
      modifies this
      ensures (Model(), failure) == M.InsertSecretId(old(Model()), roleRecord, credential, uses)
    {
      if !credential.kind.SecretId? || !credential.audience.DataPlane?
         || !(exists key :: key in roles && roles[key].id == roleRecord
                            && roles[key].identity == credential.identity && roles[key].active)
         || credential.accessor in credentials
      {
        return Some(M.InvalidInput);
      }
      if !(M.MIN_USES <= uses <= M.MAX_USES) || credential.accessor == 0 || roleRecord == 0 {
        return Some(M.InvalidInput);
      }
      usages := usages[credential.accessor := M.Usage(credential.accessor, roleRecord, uses, uses, 1)];
      credentials := credentials[credential.accessor := credential];
      return None;
    }

    method InsertToken(credential: M.Credential) returns (failure: Option<M.AuthError>)
      modifies this
      ensures (Model(), failure) == M.InsertToken(old(Model()), credential)
    {
      if !credential.kind.Token?
         || credential.identity !in identities || !identities[credential.identity].active
         || credential.accessor in credentials
      {
        return Some(M.InvalidInput);
      }
      credentials := credentials[credential.accessor := credential];
      return None;
    }

    method ReplaceCredential(replacement: M.Credential) returns (failure: Option<M.AuthError>)
      modifies this
      ensures (Model(), failure) == M.ReplaceCredential(old(Model()), replacement)
    {
      if replacement.accessor !in credentials { return Some(M.Conflict); }
      var current := credentials[replacement.accessor];
      if replacement.id != current.id || current.generation == U64_MAX
         || replacement.generation != current.generation + 1
      {
        return Some(M.Conflict);
      }
      credentials := credentials[replacement.accessor := replacement];
      return None;
    }

    method RemoveSecretIds(roleRecord: Id) returns (r: Result<nat, M.AuthError>)
      modifies this
      ensures (Model(), r) == M.RemoveSecretIds(old(Model()), roleRecord)
    {
      var accessors := M.AccessorsIn(usages, AscendingIds(set a | a in usages && usages[a].role == roleRecord));
      var i := 0;
      while i < |accessors|
        invariant i <= |accessors|
        invariant M.RevokeEach(old(Model()), accessors) == M.RevokeEach(Model(), accessors[i..])
      {
        var accessor := accessors[i];
        assert accessors[i..][1..] == accessors[i + 1..];
        if accessor in credentials && !credentials[accessor].revoked {
          var current := credentials[accessor];
          if current.generation == U64_MAX { return Err(M.Conflict); }
          var failure := ReplaceCredential(current.(revoked := true, generation := current.generation + 1));
          if failure.Some? { return Err(failure.value); }
        }
        i := i + 1;
      }
      return Ok(|accessors|);
    }

    method LoginDenied(request: Id, accessor: Option<Id>) returns (error: M.AuthError)
      modifies this`audit
      ensures audit == old(audit) + [M.Event(request, M.AppRoleLogin, M.Denied, accessor, None)]
      ensures error == M.InvalidCredentials
    {
      audit := audit + [M.Event(request, M.AppRoleLogin, M.Denied, accessor, None)];
      error := M.InvalidCredentials;
    }

    /** The token a login would hand out; nothing is stored yet. */
    method Issue(role: M.Role, parent: M.Credential, request: Id, draws: M.Draws)
      returns (r: Result<M.Credential, M.AuthError>)
      ensures r == M.Issue(Model(), role, parent, request, draws)
    {
      var id := DrawUsable(draws.ids, set a | a in credentials :: credentials[a].id);
      if id.None? { return Err(M.Random); }
      if seconds + role.ttl > U64_MAX { return Err(M.InvalidInput); }
      if !parent.kind.SecretId? || parent.revoked { return Err(M.InvalidInput); }
      var accessor := DrawUsable(draws.accessors, credentials.Keys);
      if accessor.None? || !draws.secretDrawn { return Err(M.Random); }
      var record := M.Credential(
        id.value, accessor.value, M.Token, M.DataPlane, parent.identity, parent.epoch, seconds + role.ttl, false, 1,
        M.LABEL_PREFIX + role.name, seconds, parent.identity, request, Some(parent.accessor), parent.instance);
      if !M.ValidRecord(record) { return Err(M.InvalidInput); }
      return Ok(record);
    }

    method Login(roleId: Bytes, p: M.Presented, request: Id, draws: M.Draws)
      returns (r: Result<M.Success, M.AuthError>)
      modifies this
      ensures (Model(), r) == M.Login(old(Model()), roleId, p, request, draws)
    {
      var catalog := M.Catalog(epoch, seconds, roles, identities, credentials, usages, audit);
      if request == 0 || !M.ValidLabel(roleId) {
        var error := LoginDenied(request, None);
        return Err(error);
      }
      var existing := M.IssuedFor(catalog, request);
      if existing != {} {
        return Err(M.AlreadyCommitted(credentials[AscendingIds(existing)[0]].accessor));
      }
      if !M.Admits(catalog, roleId, p) {
        var error := LoginDenied(request, if p.Wire? then Some(p.accessor) else None);
        return Err(error);
      }
      var role, parent := roles[roleId], credentials[p.accessor];
      var usage := M.Consume(usages[p.accessor]);
      if usage.Err? { return Err(usage.error); }
      var issued := Issue(role, parent, request, draws);
      if issued.Err? { return Err(issued.error); }
      usages := usages[p.accessor := usage.value];
      credentials := credentials[issued.value.accessor := issued.value];
      audit := audit + [M.Event(request, M.AppRoleLogin, M.Succeeded, Some(p.accessor), Some(role.identity))];
      return Ok(M.Success(issued.value, role.ttl, role.name, role.identity));
    }
  }
}

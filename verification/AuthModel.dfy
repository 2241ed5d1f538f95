/**
  The AppRole catalogue as a value, one function per critical section.

  Parsing and message authentication are what a presented secret says about itself (`Presented`);
  the random source is the list of values it yields (`Draws`), and a list that runs out has failed.
 */
module AuthModel {
  import opened Prelude
  import opened Text

  datatype Role = Role(
    id: Id, roleId: Bytes, name: Bytes, identity: Id, ttl: u64, active: bool, generation: u64)

  datatype Identity = Identity(id: Id, name: Bytes, kind: nat, active: bool, generation: u64)

  datatype CredentialKind = Token | SecretId

  datatype Audience = ControlPlane | DataPlane

  datatype Credential = Credential(
    id: Id, accessor: Id, kind: CredentialKind, audience: Audience, identity: Id, epoch: u64,
    expires: u64, revoked: bool, generation: u64, caption: Bytes, created: u64, issuer: Id,
    request: Id, parent: Option<Id>, instance: Option<Id>)

  datatype Usage = Usage(accessor: Id, role: Id, initial: u32, remaining: u32, generation: u64)

  datatype Operation = Authenticate | AppRoleLogin | LookupSelf | RenewSelf

  datatype Outcome = Succeeded | Denied | Unsupported

  datatype Event = Event(
    request: Id, operation: Operation, outcome: Outcome, accessor: Option<Id>, identity: Option<Id>)

  datatype AuthError =
    | InvalidInput | InvalidCredentials | AlreadyCommitted(accessor: Id) | Conflict | Random

  datatype Catalog = Catalog(
    epoch: u64, seconds: u64, roles: map<Bytes, Role>, identities: map<Id, Identity>,
    credentials: map<Id, Credential>, usages: map<Id, Usage>, audit: seq<Event>)

  const MAX_LABEL: nat := 255
  const MIN_TTL: nat := 60
  const MAX_TTL: nat := 86_400
  const MIN_USES: nat := 1
  const MAX_USES: nat := 1_000
  const ATTEMPTS: nat := 8
  const BACKSLASH: byte := 0x5C

  /** "approle:" */
  const LABEL_PREFIX: Bytes := [0x61, 0x70, 0x70, 0x72, 0x6F, 0x6C, 0x65, 0x3A]

  predicate ValidLabel(s: Bytes) {
    s != [] && |s| <= MAX_LABEL && !HasControl(s) && SLASH !in s && BACKSLASH !in s
  }

  function NewCatalog(epoch: u64, seconds: u64): Result<Catalog, AuthError> {
    if epoch == 0 || seconds == 0 then Err(InvalidInput)
    else Ok(Catalog(epoch, seconds, map[], map[], map[], map[], []))
  }

  // ---------------------------------------------------------------- roles and identities

  predicate ValidRole(r: Role) {
    && r.id != 0 && r.identity != 0 && r.generation != 0
    && ValidLabel(r.roleId) && ValidLabel(r.name) && MIN_TTL <= r.ttl <= MAX_TTL
  }

  predicate ActiveIdentity(c: Catalog, id: Id) {
    id in c.identities && c.identities[id].active
  }

  predicate RoleClash(c: Catalog, role: Role) {
    || role.roleId in c.roles
    || exists key :: key in c.roles && (c.roles[key].id == role.id || c.roles[key].name == role.name)
  }

  function InsertRole(c: Catalog, role: Role): (Catalog, Option<AuthError>) {
    if !ValidRole(role) then (c, Some(InvalidInput))
    else if !ActiveIdentity(c, role.identity) || RoleClash(c, role) then (c, Some(Conflict))
    else (c.(roles := c.roles[role.roleId := role]), None)
  }

  function DeletedRole(role: Role, expected: u64): Result<Role, AuthError> {
    if !role.active || role.generation != expected then Err(Conflict)
    else if role.generation == U64_MAX then Err(InvalidInput)
    else Ok(role.(active := false, generation := role.generation + 1))
  }

  function DeleteRole(c: Catalog, roleId: Bytes, expected: u64): (Catalog, Option<AuthError>) {
    if roleId !in c.roles then (c, Some(Conflict))
    else
      match DeletedRole(c.roles[roleId], expected)
      case Err(e) => (c, Some(e))
      case Ok(role) => (c.(roles := c.roles[roleId := role]), None)
  }

  /** `encodes` is whether the record passes the store's canonical encoder. */
  function InsertIdentity(c: Catalog, identity: Identity, encodes: bool): (Catalog, Option<AuthError>) {
    if !encodes then (c, Some(InvalidInput))
    else if identity.id in c.identities then (c, Some(Conflict))
    else (c.(identities := c.identities[identity.id := identity]), None)
  }

  function ReplaceIdentity(c: Catalog, identity: Identity, encodes: bool): (Catalog, Option<AuthError>) {
    if !encodes then (c, Some(InvalidInput))
    else if identity.id !in c.identities then (c, Some(Conflict))
    else
      var current := c.identities[identity.id];
      if current.generation == U64_MAX || identity.generation != current.generation + 1
         || identity.name != current.name || identity.kind != current.kind
      then (c, Some(Conflict))
      else (c.(identities := c.identities[identity.id := identity]), None)
  }

  // ---------------------------------------------------------------- credentials

  predicate RoleTakes(c: Catalog, roleRecord: Id, identity: Id) {
    exists key :: key in c.roles
      && c.roles[key].id == roleRecord && c.roles[key].identity == identity && c.roles[key].active
  }

  function NewUsage(accessor: Id, role: Id, uses: u32): Result<Usage, AuthError> {
    if !(MIN_USES <= uses <= MAX_USES) || accessor == 0 || role == 0 then Err(InvalidInput)
    else Ok(Usage(accessor, role, uses, uses, 1))
  }

  function InsertSecretId(c: Catalog, roleRecord: Id, credential: Credential, uses: u32): (Catalog, Option<AuthError>) {
    if !credential.kind.SecretId? || !credential.audience.DataPlane?
       || !RoleTakes(c, roleRecord, credential.identity) || credential.accessor in c.credentials
    then (c, Some(InvalidInput))
    else
      match NewUsage(credential.accessor, roleRecord, uses)
      case Err(e) => (c, Some(e))
      case Ok(usage) =>
        (c.(usages := c.usages[credential.accessor := usage],
            credentials := c.credentials[credential.accessor := credential]), None)
  }

  function InsertToken(c: Catalog, credential: Credential): (Catalog, Option<AuthError>) {
    if !credential.kind.Token? || !ActiveIdentity(c, credential.identity)
       || credential.accessor in c.credentials
    then (c, Some(InvalidInput))
    else (c.(credentials := c.credentials[credential.accessor := credential]), None)
  }

  function ReplaceCredential(c: Catalog, replacement: Credential): (Catalog, Option<AuthError>) {
    if replacement.accessor !in c.credentials then (c, Some(Conflict))
    else
      var current := c.credentials[replacement.accessor];
      if replacement.id != current.id || current.generation == U64_MAX
         || replacement.generation != current.generation + 1
      then (c, Some(Conflict))
      else (c.(credentials := c.credentials[replacement.accessor := replacement]), None)
  }

  predicate Revocable(c: Catalog, accessor: Id) {
    accessor in c.credentials && !c.credentials[accessor].revoked
  }

  /** Revoke a live credential; one at its last generation cannot be. */
  function RevokeOne(c: Catalog, accessor: Id): (Catalog, Option<AuthError>)
    requires Revocable(c, accessor)
  {
    var current := c.credentials[accessor];
    if current.generation == U64_MAX then (c, Some(Conflict))
    else ReplaceCredential(c, current.(revoked := true, generation := current.generation + 1))
  }

  /** The loop over a role's secret-ids, which stops at the first failure and keeps what it did. */
  function RevokeEach(c: Catalog, accessors: seq<Id>): (Catalog, Option<AuthError>)
    decreases |accessors|
  {
    if accessors == [] then (c, None)
    else if !Revocable(c, accessors[0]) then RevokeEach(c, accessors[1..])
    else
      var (next, failure) := RevokeOne(c, accessors[0]);
      if failure.Some? then (next, failure) else RevokeEach(next, accessors[1..])
  }

  function SecretIdsOf(c: Catalog, roleRecord: Id): set<Id> {
    set a | a in c.usages && c.usages[a].role == roleRecord
  }

  function AccessorsIn(usages: map<Id, Usage>, keys: seq<Id>): (r: seq<Id>)
    requires forall k :: k in keys ==> k in usages
    ensures |r| == |keys|
  {
    if keys == [] then [] else [usages[keys[0]].accessor] + AccessorsIn(usages, keys[1..])
  }

  function RemoveSecretIds(c: Catalog, roleRecord: Id): (Catalog, Result<nat, AuthError>) {
    var accessors := AccessorsIn(c.usages, AscendingIds(SecretIdsOf(c, roleRecord)));
    var (next, failure) := RevokeEach(c, accessors);
    (next, if failure.Some? then Err(failure.value) else Ok(|accessors|))
  }

  // ---------------------------------------------------------------- login

  /** `authentic`: the secret's MAC is the verifier of the record its accessor finds. */
  datatype Presented =
    | Malformed
    | Wire(kind: CredentialKind, audience: Audience, accessor: Id, authentic: bool)

  datatype Reject =
    | MalformedSecret | WrongKind | WrongAudience | UnknownAccessor | InvalidSecret
    | EpochChanged | Revoked | Expired

  function Verify(c: Catalog, p: Presented, kind: CredentialKind, audience: Audience): Option<Reject> {
    if p.Malformed? then Some(MalformedSecret)
    else if p.kind != kind then Some(WrongKind)
    else if p.audience != audience then Some(WrongAudience)
    else if p.accessor !in c.credentials then Some(UnknownAccessor)
    else
      var record := c.credentials[p.accessor];
      if !p.authentic then Some(InvalidSecret)
      else if record.epoch != c.epoch then Some(EpochChanged)
      else if record.revoked then Some(Revoked)
      else if c.seconds >= record.expires then Some(Expired)
      else None
  }

  datatype Draws = Draws(ids: seq<Id>, accessors: seq<Id>, secretDrawn: bool)

  /** The first usable value among the allowed attempts. */
  function FirstUsable(draws: seq<Id>, attempts: nat, taken: set<Id>): (r: Option<Id>)
    ensures r.Some? ==> r.value != 0 && r.value !in taken
  {
    if attempts == 0 || draws == [] then None
    else if draws[0] != 0 && draws[0] !in taken then Some(draws[0])
    else FirstUsable(draws[1..], attempts - 1, taken)
  }

  function RecordIds(c: Catalog): set<Id> {
    set a | a in c.credentials :: c.credentials[a].id
  }

  predicate ValidRecord(r: Credential) {
    && r.id != 0 && r.accessor != 0 && r.identity != 0 && r.epoch != 0 && r.generation != 0
    && r.caption != [] && |r.caption| <= MAX_LABEL
    && 0 !in r.caption && SLASH !in r.caption && 0x0A !in r.caption && 0x0D !in r.caption
    && r.created != 0 && r.expires > r.created && r.issuer != 0 && r.request != 0
  }

  function Issue(c: Catalog, role: Role, parent: Credential, request: Id, draws: Draws): Result<Credential, AuthError> {
    match FirstUsable(draws.ids, ATTEMPTS, RecordIds(c))
    case None => Err(Random)
    case Some(id) =>
      if c.seconds + role.ttl > U64_MAX then Err(InvalidInput)
      else if !parent.kind.SecretId? || parent.revoked then Err(InvalidInput)
      else
        match FirstUsable(draws.accessors, ATTEMPTS, c.credentials.Keys)
        case None => Err(Random)
        case Some(accessor) =>
          if !draws.secretDrawn then Err(Random)
          else
            var record := Credential(
              id, accessor, Token, DataPlane, parent.identity, parent.epoch, c.seconds + role.ttl, false, 1,
              LABEL_PREFIX + role.name, c.seconds, parent.identity, request, Some(parent.accessor), parent.instance);
            if ValidRecord(record) then Ok(record) else Err(InvalidInput)
  }

  function Consume(u: Usage): Result<Usage, AuthError> {
    if u.remaining == 0 then Err(InvalidCredentials)
    else if u.generation == U64_MAX then Err(InvalidInput)
    else Ok(u.(remaining := u.remaining - 1, generation := u.generation + 1))
  }

  function IssuedFor(c: Catalog, request: Id): set<Id> {
    set a | a in c.credentials && c.credentials[a].request == request
  }

  /** The checks of a login up to and including the verifier. */
  predicate Admits(c: Catalog, roleId: Bytes, p: Presented) {
    && p.Wire?
    && Verify(c, p, SecretId, DataPlane).None?
    && roleId in c.roles && c.roles[roleId].active
    && p.accessor in c.usages && p.accessor in c.credentials
    && c.roles[roleId].id == c.usages[p.accessor].role
    && c.roles[roleId].identity == c.credentials[p.accessor].identity
    && c.usages[p.accessor].remaining > 0
  }

  function Denial(request: Id, p: Presented): Event {
    Event(request, AppRoleLogin, Denied, if p.Wire? then Some(p.accessor) else None, None)
  }

  datatype Success = Success(credential: Credential, lease: u64, roleName: Bytes, identity: Id)

  function Login(c: Catalog, roleId: Bytes, p: Presented, request: Id, draws: Draws): (Catalog, Result<Success, AuthError>) {
    if request == 0 || !ValidLabel(roleId) then
      (c.(audit := c.audit + [Event(request, AppRoleLogin, Denied, None, None)]), Err(InvalidCredentials))
    else if IssuedFor(c, request) != {} then
      (c, Err(AlreadyCommitted(c.credentials[AscendingIds(IssuedFor(c, request))[0]].accessor)))
    else if !Admits(c, roleId, p) then
      (c.(audit := c.audit + [Denial(request, p)]), Err(InvalidCredentials))
    else
      var role := c.roles[roleId];
      match Consume(c.usages[p.accessor])
      case Err(e) => (c, Err(e))
      case Ok(usage) =>
        match Issue(c, role, c.credentials[p.accessor], request, draws)
        case Err(e) => (c, Err(e))
        case Ok(record) =>
          (c.(usages := c.usages[p.accessor := usage],
              credentials := c.credentials[record.accessor := record],
              audit := c.audit + [Event(request, AppRoleLogin, Succeeded, Some(p.accessor), Some(role.identity))]),
           Ok(Success(record, role.ttl, role.name, role.identity)))
  }

  // ---------------------------------------------------------------- runs

  datatype Step =
    | Tick(seconds: u64)
    | AddRole(role: Role)
    | DropRole(roleId: Bytes, expected: u64)
    | AddIdentity(identity: Identity, encodes: bool)
    | ChangeIdentity(identity: Identity, encodes: bool)
    | AddSecretId(roleRecord: Id, credential: Credential, uses: u32)
    | AddToken(credential: Credential)
    | ChangeCredential(credential: Credential)
    | DropSecretIds(roleRecord: Id)
    | LogIn(roleId: Bytes, presented: Presented, request: Id, draws: Draws)
    | Note(event: Event)

  /** Other audited requests only add events of their own operations. */
  predicate Proper(s: Step) { s.Note? ==> !s.event.operation.AppRoleLogin? }

  function SetSeconds(c: Catalog, seconds: u64): (Catalog, Option<AuthError>) {
    if seconds < c.seconds then (c, Some(InvalidInput)) else (c.(seconds := seconds), None)
  }

  function Next(c: Catalog, s: Step): Catalog {
    match s
    case Tick(seconds) => SetSeconds(c, seconds).0
    case AddRole(role) => InsertRole(c, role).0
    case DropRole(roleId, expected) => DeleteRole(c, roleId, expected).0
    case AddIdentity(identity, encodes) => InsertIdentity(c, identity, encodes).0
    case ChangeIdentity(identity, encodes) => ReplaceIdentity(c, identity, encodes).0
    case AddSecretId(roleRecord, credential, uses) => InsertSecretId(c, roleRecord, credential, uses).0
    case AddToken(credential) => InsertToken(c, credential).0
    case ChangeCredential(credential) => ReplaceCredential(c, credential).0
    case DropSecretIds(roleRecord) => RemoveSecretIds(c, roleRecord).0
    case LogIn(roleId, presented, request, draws) => Login(c, roleId, presented, request, draws).0
    case Note(event) => c.(audit := c.audit + [event])
  }

  function Run(c: Catalog, steps: seq<Step>): Catalog
    decreases |steps|
  {
    if steps == [] then c else Run(Next(c, steps[0]), steps[1..])
  }
}

// The authorization registry: every management request that can change who may
// send as whom, as one transaction each, and the sender decision itself.

module Registry {

  import opened Names
  import opened Tables
  import opened Wrappers

  datatype Db = Db(
    users: map<Id, User>,
    domains: map<Id, Domain>,
    admins: set<(Id, Id)>,              // (domain, user)
    addresses: map<Id, SenderAddress>,
    grants: map<Id, SenderGrant>,
    credentials: map<Id, Credential>,
    scopes: set<Scope>)

  const OK := 200
  const UNAUTHENTICATED := 401
  const FORBIDDEN := 403
  const NOT_FOUND := 404
  const CONFLICT := 409
  const UNPROCESSABLE := 422

  datatype Role = Owner | Admin | NoRole

  // ---- Guards shared by the handlers ----------------------------------------------

  predicate Signed(db: Db, actor: Id) {
    actor in db.users && db.users[actor].active
  }

  predicate IsOperator(db: Db, actor: Id) {
    Signed(db, actor) && db.users[actor].isOperator
  }

  predicate LiveDomain(db: Db, domain: Id) {
    domain in db.domains && Live(db.domains[domain])
  }

  function DomainRole(db: Db, user: Id, domain: Id): Role {
    if !Signed(db, user) || !LiveDomain(db, domain) then NoRole
    else if db.domains[domain].owner == user then Owner
    else if (domain, user) in db.admins then Admin
    else NoRole
  }

  predicate Manages(db: Db, user: Id, domain: Id) {
    DomainRole(db, user, domain) != NoRole
  }

  /** An activated account: the only kind that can be given rights. */
  predicate Activated(db: Db, user: Id) {
    user in db.users && db.users[user].active && db.users[user].hasPassword
  }

  /** The common opening of the domain handlers: who may do this at all. */
  function DomainGate(db: Db, actor: Id, domain: Id, ownerOnly: bool): int {
    if !Signed(db, actor) then UNAUTHENTICATED
    else if !LiveDomain(db, domain) then NOT_FOUND
    else if DomainRole(db, actor, domain) == Owner then OK
    else if !ownerOnly && DomainRole(db, actor, domain) == Admin then OK
    else FORBIDDEN
  }

  /** `find_active_user`. */
  function UserGate(db: Db, user: Id): int {
    if user !in db.users then NOT_FOUND else if !Activated(db, user) then CONFLICT else OK
  }

  /** `domain_address`: the normal form of an address that belongs to the domain. */
  function AddressIn(idna: Idna, raw: string, domain: Domain): Option<string> {
    var address := NormalizeAddress(idna, raw);
    if address.Some? && DomainPart(address.value) == domain.name then address else None
  }

  /** The same where "*" stands for the whole domain. */
  function AddressOrAny(idna: Idna, raw: string, domain: Domain): Option<string> {
    if raw == ANY then Some(ANY) else AddressIn(idna, raw, domain)
  }

  ghost function ActiveOperators(db: Db): set<Id> {
    set u | u in db.users && db.users[u].active && db.users[u].isOperator
  }

  ghost predicate OwnsLiveDomain(db: Db, user: Id) {
    exists d :: d in db.domains && Live(db.domains[d]) && db.domains[d].owner == user
  }

  predicate HasGrant(db: Db, domain: Id, user: Id, address: string) {
    exists g :: g in db.grants && db.grants[g] == SenderGrant(domain, user, address)
  }

  predicate HasAddress(db: Db, domain: Id, address: string) {
    exists a :: a in db.addresses && db.addresses[a] == SenderAddress(domain, address)
  }

  // ---- Scopes of credentials ---------------------------------------------------------

  datatype ScopeRequest = ScopeRequest(domain: Id, address: string)

  /** The address a requested scope stands for in its domain. */
  function ScopeAddress(idna: Idna, item: ScopeRequest, domain: Domain): Option<string> {
    AddressOrAny(idna, item.address, domain)
  }

  /** One requested scope, normalized and checked against the user's current grants. */
  function CheckedScope(db: Db, idna: Idna, user: Id, item: ScopeRequest)
    : (r: Result<(Id, string), int>)
    ensures r.Failure? ==> r.error in {FORBIDDEN, NOT_FOUND, UNPROCESSABLE}
  {
    if !LiveDomain(db, item.domain) then Result.Failure(NOT_FOUND)
    else
      var domain := db.domains[item.domain];
      var address := ScopeAddress(idna, item, domain);
      if address.None? then Result.Failure(UNPROCESSABLE)
      else if !domain.status.Approved? then Result.Failure(FORBIDDEN)
      else if address.value != ANY && AddressIn(idna, address.value, domain).None? then Result.Failure(UNPROCESSABLE)
      else if !HasGrant(db, item.domain, user, ANY) && !HasGrant(db, item.domain, user, address.value)
      then Result.Failure(FORBIDDEN)
      else Result.Success((item.domain, address.value))
  }

  /** The scopes of a whole request, in order; the first problem is reported. A
      repeated scope is found before its grants are looked at. */
  function ValidatedScopes(db: Db, idna: Idna, user: Id, items: seq<ScopeRequest>, seen: seq<(Id, string)>)
    : (r: Result<seq<(Id, string)>, int>)
    ensures r.Failure? ==> r.error in {FORBIDDEN, NOT_FOUND, UNPROCESSABLE}
    decreases |items|
  {
    if items == [] then Result.Success(seen)
    else
      var item := items[0];
      if Repeats(db, idna, item, seen) then Result.Failure(UNPROCESSABLE)
      else
        var checked := CheckedScope(db, idna, user, item);
        if checked.Failure? then Result.Failure(checked.error)
        else ValidatedScopes(db, idna, user, items[1..], seen + [checked.value])
  }

  predicate Repeats(db: Db, idna: Idna, item: ScopeRequest, seen: seq<(Id, string)>) {
    LiveDomain(db, item.domain)
    && var address := ScopeAddress(idna, item, db.domains[item.domain]);
       address.Some? && (item.domain, address.value) in seen
  }

  function ScopeRows(credential: Id, keys: seq<(Id, string)>): set<Scope> {
    set i | 0 <= i < |keys| :: Scope(credential, keys[i].0, keys[i].1)
  }

  // ---- The handlers as transactions ------------------------------------------------------

  datatype Request =
    | CreateUser(actor: Id, newId: Id)
    | AcceptInvitation(user: Id)
    | UpdateUser(actor: Id, user: Id, active: Option<bool>, operator: Option<bool>)
    | CreateDomain(actor: Id, newId: Id, name: string)
    | SetDomainStatus(actor: Id, domain: Id, status: DomainStatus)
    | TransferOwner(actor: Id, domain: Id, user: Id)
    | AddAdmin(actor: Id, domain: Id, user: Id)
    | RemoveAdmin(actor: Id, domain: Id, user: Id)
    | DeleteDomain(actor: Id, domain: Id, now: int)
    | CreateAddress(actor: Id, domain: Id, newId: Id, address: string)
    | DeleteAddress(actor: Id, domain: Id, addressId: Id)
    | CreateGrant(actor: Id, domain: Id, newId: Id, user: Id, address: string)
    | DeleteGrant(actor: Id, domain: Id, grantId: Id)
    | CreateCredential(actor: Id, newId: Id, items: seq<ScopeRequest>, expiresAt: Option<int>, now: int)
    | UpdateScopes(actor: Id, credential: Id, items: seq<ScopeRequest>)
    | RevokeCredential(actor: Id, credential: Id, now: int)

  /** Identifiers are drawn fresh. */
  predicate FreshIds(db: Db, req: Request) {
    match req
    case CreateUser(_, newId) => newId !in db.users
    case CreateDomain(_, newId, _) => newId !in db.domains
    case CreateAddress(_, _, newId, _) => newId !in db.addresses
    case CreateGrant(_, _, newId, _, _) => newId !in db.grants
    case CreateCredential(_, newId, _, _, _) => newId !in db.credentials
    case _ => true
  }

  ghost function UpdateUserStatus(db: Db, actor: Id, user: Id, active: Option<bool>, operator: Option<bool>): int {
    if !Signed(db, actor) then UNAUTHENTICATED
    else if active.None? && operator.None? then UNPROCESSABLE
    else if !IsOperator(db, actor) then FORBIDDEN
    else if user !in db.users then NOT_FOUND
    else
      var disabling := Sets(active, false) && db.users[user].active;
      var demoting := Sets(operator, false) && db.users[user].isOperator;
      if (disabling || demoting) && db.users[user].isOperator && |ActiveOperators(db)| <= 1 then CONFLICT
      else if disabling && OwnsLiveDomain(db, user) then CONFLICT
      else OK
  }

  /** The normal form of an address in a domain there is. */
  function AddressAt(db: Db, idna: Idna, domain: Id, raw: string): Option<string> {
    if domain in db.domains then AddressIn(idna, raw, db.domains[domain]) else None
  }

  /** Registering this address in the domain. */
  function AddressStatus(db: Db, actor: Id, domain: Id, address: Option<string>): int {
    if DomainGate(db, actor, domain, false) != OK then DomainGate(db, actor, domain, false)
    else if address.None? then UNPROCESSABLE
    else if HasAddress(db, domain, address.value) then CONFLICT
    else OK
  }

  /** Granting the whole domain or this address. */
  function GrantStatus(db: Db, actor: Id, domain: Id, user: Id, whole: bool, address: Option<string>): int {
    if DomainGate(db, actor, domain, false) != OK then DomainGate(db, actor, domain, false)
    else if UserGate(db, user) != OK then UserGate(db, user)
    else if address.None? then UNPROCESSABLE
    else if !whole && !HasAddress(db, domain, address.value) then UNPROCESSABLE
    else if HasGrant(db, domain, user, address.value) then CONFLICT
    else OK
  }

  /** The response status of a request; anything but OK leaves the database alone. */
  ghost function Status(db: Db, idna: Idna, req: Request): int {
    match req
    case CreateUser(actor, _) =>
      if !Signed(db, actor) then UNAUTHENTICATED else if !IsOperator(db, actor) then FORBIDDEN else OK
    case AcceptInvitation(user) =>
      if user in db.users && !db.users[user].hasPassword then OK else 400
    case UpdateUser(actor, user, active, operator) => UpdateUserStatus(db, actor, user, active, operator)
    case CreateDomain(actor, _, name) =>
      if !Signed(db, actor) then UNAUTHENTICATED
      else if NormalizeDomain(idna, name).None? then UNPROCESSABLE
      else if exists d :: d in db.domains && db.domains[d].activeName == NormalizeDomain(idna, name) then CONFLICT
      else OK
    case SetDomainStatus(actor, domain, status) =>
      if !Signed(db, actor) then UNAUTHENTICATED
      else if !IsOperator(db, actor) then FORBIDDEN
      else if !LiveDomain(db, domain) then NOT_FOUND
      else if status.Approved? && db.domains[domain].status.Approved? then CONFLICT
      else OK
    case TransferOwner(actor, domain, user) =>
      if DomainGate(db, actor, domain, true) != OK then DomainGate(db, actor, domain, true)
      else if UserGate(db, user) != OK then UserGate(db, user)
      else if db.domains[domain].owner == user then CONFLICT
      else OK
    case AddAdmin(actor, domain, user) =>
      if DomainGate(db, actor, domain, true) != OK then DomainGate(db, actor, domain, true)
      else if UserGate(db, user) != OK then UserGate(db, user)
      else if db.domains[domain].owner == user then CONFLICT
      else if (domain, user) in db.admins then CONFLICT
      else OK
    case RemoveAdmin(actor, domain, user) =>
      if DomainGate(db, actor, domain, true) != OK then DomainGate(db, actor, domain, true)
      else if (domain, user) !in db.admins then NOT_FOUND
      else OK
    case DeleteDomain(actor, domain, _) => DomainGate(db, actor, domain, true)
    case CreateAddress(actor, domain, _, raw) =>
      AddressStatus(db, actor, domain, AddressAt(db, idna, domain, raw))
    case DeleteAddress(actor, domain, addressId) =>
      if DomainGate(db, actor, domain, false) != OK then DomainGate(db, actor, domain, false)
      else if addressId !in db.addresses || db.addresses[addressId].domain != domain then NOT_FOUND
      else OK
    case CreateGrant(actor, domain, _, user, raw) =>
      if raw == ANY then GrantStatus(db, actor, domain, user, true, Some(ANY))
      else GrantStatus(db, actor, domain, user, false, AddressAt(db, idna, domain, raw))
    case DeleteGrant(actor, domain, grantId) =>
      if DomainGate(db, actor, domain, false) != OK then DomainGate(db, actor, domain, false)
      else if grantId !in db.grants || db.grants[grantId].domain != domain then NOT_FOUND
      else OK
    case CreateCredential(actor, _, items, expiresAt, now) =>
      if !Signed(db, actor) then UNAUTHENTICATED
      else if !(1 <= |items| <= 100) || (expiresAt.Some? && expiresAt.value <= now) then UNPROCESSABLE
      else
        var scopes := ValidatedScopes(db, idna, actor, items, []);
        if scopes.Failure? then scopes.error else OK
    case UpdateScopes(actor, credential, items) =>
      if !Signed(db, actor) then UNAUTHENTICATED
      else if !(1 <= |items| <= 100) then UNPROCESSABLE
      else if credential !in db.credentials || db.credentials[credential].user != actor then NOT_FOUND
      else if db.credentials[credential].revokedAt.Some? then CONFLICT
      else
        var scopes := ValidatedScopes(db, idna, actor, items, []);
        if scopes.Failure? then scopes.error else OK
    case RevokeCredential(actor, credential, _) =>
      if !Signed(db, actor) then UNAUTHENTICATED
      else if credential !in db.credentials || db.credentials[credential].user != actor then NOT_FOUND
      else OK
  }

  function GrantedAddress(db: Db, idna: Idna, domain: Id, raw: string): string
    requires domain in db.domains
  {
    var address := AddressOrAny(idna, raw, db.domains[domain]);
    if address.Some? then address.value else ""
  }

  /** The database after a request that succeeded. */
  ghost function Changed(db: Db, idna: Idna, req: Request): Db
    requires Status(db, idna, req) == OK
  {
    match req
    case CreateUser(_, newId) => db.(users := db.users[newId := User(false, false, false)])
    case AcceptInvitation(user) =>
      db.(users := db.users[user := db.users[user].(hasPassword := true, active := true)])
    case UpdateUser(_, user, active, operator) =>
      db.(users := db.users[user := Updated(db.users[user], active, operator)])
    case CreateDomain(actor, newId, name) =>
      var normal := NormalizeDomain(idna, name).value;
      db.(domains := db.domains[newId := Domain(normal, Some(normal), actor, AwaitingApproval, None)])
    case SetDomainStatus(_, domain, status) =>
      db.(domains := db.domains[domain := db.domains[domain].(status := status)])
    case TransferOwner(_, domain, user) =>
      db.(domains := db.domains[domain := db.domains[domain].(owner := user)], admins := db.admins - {(domain, user)})
    case AddAdmin(_, domain, user) => db.(admins := db.admins + {(domain, user)})
    case RemoveAdmin(_, domain, user) => db.(admins := db.admins - {(domain, user)})
    case DeleteDomain(_, domain, now) =>
      db.(domains := db.domains[domain := db.domains[domain].(activeName := None, deletedAt := Some(now))])
    case CreateAddress(_, domain, newId, raw) =>
      db.(addresses := db.addresses[newId := SenderAddress(domain, AddressIn(idna, raw, db.domains[domain]).value)])
    case DeleteAddress(_, domain, addressId) =>
      var address := db.addresses[addressId].address;
      db.(grants := map g | g in db.grants && !(db.grants[g].domain == domain && db.grants[g].address == address)
                      :: db.grants[g],
          scopes := (set s | s in db.scopes && !(s.domain == domain && s.address == address)),
          addresses := db.addresses - {addressId})
    case CreateGrant(_, domain, newId, user, raw) =>
      db.(grants := db.grants[newId := SenderGrant(domain, user, GrantedAddress(db, idna, domain, raw))])
    case DeleteGrant(_, _, grantId) => db.(grants := db.grants - {grantId})
    case CreateCredential(actor, newId, items, expiresAt, _) =>
      db.(credentials := db.credentials[newId := Credential(actor, expiresAt, None)],
          scopes := db.scopes + ScopeRows(newId, ValidatedScopes(db, idna, actor, items, []).value))
    case UpdateScopes(actor, credential, items) =>
      db.(scopes := (set s | s in db.scopes && s.credential != credential)
                    + ScopeRows(credential, ValidatedScopes(db, idna, actor, items, []).value))
    case RevokeCredential(_, credential, now) =>
      if db.credentials[credential].revokedAt.Some? then db
      else db.(credentials := db.credentials[credential := db.credentials[credential].(revokedAt := Some(now))])
  }

  ghost function Apply(db: Db, idna: Idna, req: Request): Db {
    if Status(db, idna, req) == OK then Changed(db, idna, req) else db
  }

  // ---- The sender decision ------------------------------------------------------------------

  /** The row conditions of the authorization query, for one candidate domain. */
  predicate Matches(db: Db, credential: Id, domain: Id, address: string, now: int) {
    && domain in db.domains
    && db.domains[domain].activeName == Some(DomainPart(address))
    && db.domains[domain].status.Approved?
    && db.domains[domain].deletedAt.None?
    && credential in db.credentials
    && db.credentials[credential].revokedAt.None?
    && db.credentials[credential].user in db.users
    && db.users[db.credentials[credential].user].active
    && (db.credentials[credential].expiresAt.None? || db.credentials[credential].expiresAt.value > now)
    && (HasGrant(db, domain, db.credentials[credential].user, ANY)
        || HasGrant(db, domain, db.credentials[credential].user, address))
    && (Scope(credential, domain, ANY) in db.scopes || Scope(credential, domain, address) in db.scopes)
  }

  ghost function AuthorizeSender(db: Db, idna: Idna, credential: Id, sender: string, now: int): Result<Id, int> {
    var address := NormalizeAddress(idna, sender);
    if address.None? then Result.Failure(UNPROCESSABLE)
    else if exists d :: Matches(db, credential, d, address.value, now) then
      var d :| Matches(db, credential, d, address.value, now);
      Result.Success(d)
    else Result.Failure(FORBIDDEN)
  }
}

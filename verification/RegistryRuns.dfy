// What every history of management requests keeps, and what it can never lead to.

module RegistryRuns {

  import opened Names
  import opened Tables
  import opened Registry
  import opened Wrappers

  // ---- The registry invariant ------------------------------------------------------

  /** Live domains carry their own name, and their owners are active. */
  predicate DomainSound(db: Db, d: Id) {
    d in db.domains ==>
      var domain := db.domains[d];
      if Live(domain) then
        && domain.activeName == Some(domain.name)
        && domain.owner in db.users && db.users[domain.owner].active
      else
        domain.activeName.None?
  }

  predicate NamesDiffer(db: Db, d: Id, e: Id) {
    d in db.domains && e in db.domains && d != e && db.domains[d].activeName.Some? ==>
      db.domains[d].activeName != db.domains[e].activeName
  }

  predicate OwnerIsNotAdmin(db: Db, d: Id) {
    d in db.domains ==> (d, db.domains[d].owner) !in db.admins
  }

  /** An exact grant names an address registered in the same domain, under that domain's name. */
  predicate GrantSound(db: Db, g: Id) {
    g in db.grants ==>
      var grant := db.grants[g];
      && grant.domain in db.domains
      && (grant.address != ANY ==>
            && DomainPart(grant.address) == db.domains[grant.domain].name
            && HasAddress(db, grant.domain, grant.address))
  }

  /** No address is registered twice in a domain, no grant given twice. */
  predicate RowsDiffer(db: Db, a: Id, b: Id) {
    && (a in db.addresses && b in db.addresses && a != b ==> db.addresses[a] != db.addresses[b])
    && (a in db.grants && b in db.grants && a != b ==> db.grants[a] != db.grants[b])
  }

  ghost predicate RowsRefer(db: Db) {
    && (forall p :: p in db.admins ==> p.0 in db.domains)
    && (forall s :: s in db.scopes ==> s.credential in db.credentials && s.domain in db.domains)
  }

  ghost predicate Sound(db: Db) {
    && (forall d :: DomainSound(db, d))
    && (forall d, e :: NamesDiffer(db, d, e))
    && (forall d :: OwnerIsNotAdmin(db, d))
    && (forall g :: GrantSound(db, g))
    && (forall a, b :: RowsDiffer(db, a, b))
    && RowsRefer(db)
  }

  lemma AddressInDomain(idna: Idna, raw: string, domain: Domain)
    requires AddressIn(idna, raw, domain).Some?
    ensures DomainPart(AddressIn(idna, raw, domain).value) == domain.name
    ensures AddressIn(idna, raw, domain).value != ANY
  {
    NormalAddressParts(idna, raw);
    var address := AddressIn(idna, raw, domain).value;
    assert CountAt("*") == 0;
  }

  /** Every accepted scope is covered by a current grant of the credential's owner
      in a live, approved domain, and no scope is listed twice. */
  predicate ScopeGranted(db: Db, user: Id, key: (Id, string)) {
    && LiveDomain(db, key.0) && db.domains[key.0].status.Approved?
    && (HasGrant(db, key.0, user, ANY) || HasGrant(db, key.0, user, key.1))
    && (key.1 == ANY || DomainPart(key.1) == db.domains[key.0].name)
  }

  ghost predicate NoRepeats(keys: seq<(Id, string)>) {
    forall i, j :: 0 <= i < j < |keys| ==> keys[i] != keys[j]
  }

  lemma {:induction false} ValidatedScopesAreGranted(
    db: Db, idna: Idna, user: Id, items: seq<ScopeRequest>, seen: seq<(Id, string)>)
    requires NoRepeats(seen) && forall i :: 0 <= i < |seen| ==> ScopeGranted(db, user, seen[i])
    ensures ValidatedScopes(db, idna, user, items, seen).Success? ==>
              var keys := ValidatedScopes(db, idna, user, items, seen).value;
              && |keys| == |seen| + |items|
              && NoRepeats(keys)
              && forall i :: 0 <= i < |keys| ==> ScopeGranted(db, user, keys[i])
    decreases |items|
  {
    if items != [] && !Repeats(db, idna, items[0], seen) {
      var checked := CheckedScope(db, idna, user, items[0]);
      if checked.Success? {
        ValidatedScopesAreGranted(db, idna, user, items[1..], seen + [checked.value]);
      }
    }
  }

  // ---- Every request keeps the invariant ------------------------------------------------

  lemma KeepsDomain(db: Db, idna: Idna, req: Request, d: Id)
    requires Sound(db) && FreshIds(db, req) && Status(db, idna, req) == OK
    ensures DomainSound(Changed(db, idna, req), d)
  {
    assert DomainSound(db, d);
    if req.UpdateUser? && d in db.domains && Live(db.domains[d]) && db.domains[d].owner == req.user {
      assert OwnsLiveDomain(db, req.user);
    }
  }

  lemma KeepsOwnerApart(db: Db, idna: Idna, req: Request, d: Id)
    requires Sound(db) && FreshIds(db, req) && Status(db, idna, req) == OK
    ensures OwnerIsNotAdmin(Changed(db, idna, req), d)
  {
    assert OwnerIsNotAdmin(db, d);
  }

  lemma KeepsNames(db: Db, idna: Idna, req: Request, d: Id, e: Id)
    requires Sound(db) && FreshIds(db, req) && Status(db, idna, req) == OK
    ensures NamesDiffer(Changed(db, idna, req), d, e)
  {
    assert NamesDiffer(db, d, e) && NamesDiffer(db, e, d) && DomainSound(db, d) && DomainSound(db, e);
  }

  lemma AddressRowStays(db: Db, idna: Idna, req: Request, a: Id)
    requires FreshIds(db, req) && Status(db, idna, req) == OK && a in db.addresses
    requires !(req.DeleteAddress? && req.addressId == a)
    ensures a in Changed(db, idna, req).addresses && Changed(db, idna, req).addresses[a] == db.addresses[a]
  {
  }

  lemma AddressKept(db: Db, idna: Idna, req: Request, domain: Id, address: string)
    requires FreshIds(db, req) && Status(db, idna, req) == OK && HasAddress(db, domain, address)
    requires req.DeleteAddress? ==> db.addresses[req.addressId] != SenderAddress(domain, address)
    ensures HasAddress(Changed(db, idna, req), domain, address)
  {
    var a :| a in db.addresses && db.addresses[a] == SenderAddress(domain, address);
    AddressRowStays(db, idna, req, a);
  }

  lemma KeepsGrants(db: Db, idna: Idna, req: Request, g: Id)
    requires Sound(db) && FreshIds(db, req) && Status(db, idna, req) == OK
    ensures GrantSound(Changed(db, idna, req), g)
  {
    var db' := Changed(db, idna, req);
    assert GrantSound(db, g);
    if g in db'.grants && db'.grants[g].address != ANY {
      if req.CreateGrant? && g == req.newId {
        AddressInDomain(idna, req.address, db.domains[req.domain]);
      }
      AddressKept(db, idna, req, db'.grants[g].domain, db'.grants[g].address);
    }
  }

  lemma KeepsRowsDifferent(db: Db, idna: Idna, req: Request, a: Id, b: Id)
    requires Sound(db) && FreshIds(db, req) && Status(db, idna, req) == OK
    ensures RowsDiffer(Changed(db, idna, req), a, b)
  {
    assert RowsDiffer(db, a, b);
  }

  lemma KeepsReferences(db: Db, idna: Idna, req: Request)
    requires Sound(db) && FreshIds(db, req) && Status(db, idna, req) == OK
    ensures RowsRefer(Changed(db, idna, req))
  {
    match req
    case CreateCredential(actor, _, items, _, _) => ValidatedScopesAreGranted(db, idna, actor, items, []);
    case UpdateScopes(actor, _, items) => ValidatedScopesAreGranted(db, idna, actor, items, []);
    case _ =>
  }

  lemma KeepsAllDomains(db: Db, idna: Idna, req: Request, db': Db)
    requires Sound(db) && FreshIds(db, req) && Status(db, idna, req) == OK && db' == Changed(db, idna, req)
    ensures forall d :: DomainSound(db', d) && OwnerIsNotAdmin(db', d)
    ensures forall d, e :: NamesDiffer(db', d, e)
  {
    forall d
      ensures DomainSound(db', d) && OwnerIsNotAdmin(db', d)
    {
      KeepsDomain(db, idna, req, d);
      KeepsOwnerApart(db, idna, req, d);
    }
    forall d, e
      ensures NamesDiffer(db', d, e)
    {
      KeepsNames(db, idna, req, d, e);
    }
  }

  lemma KeepsAllGrants(db: Db, idna: Idna, req: Request, db': Db)
    requires Sound(db) && FreshIds(db, req) && Status(db, idna, req) == OK && db' == Changed(db, idna, req)
    ensures forall g :: GrantSound(db', g)
  {
    forall g
      ensures GrantSound(db', g)
    {
      KeepsGrants(db, idna, req, g);
    }
  }

  lemma KeepsAllRowsDifferent(db: Db, idna: Idna, req: Request, db': Db)
    requires Sound(db) && FreshIds(db, req) && Status(db, idna, req) == OK && db' == Changed(db, idna, req)
    ensures forall a, b :: RowsDiffer(db', a, b)
  {
    forall a, b
      ensures RowsDiffer(db', a, b)
    {
      KeepsRowsDifferent(db, idna, req, a, b);
    }
  }

  /** Every request keeps the registry sound. */
  lemma RequestKeepsSound(db: Db, idna: Idna, req: Request)
    requires Sound(db) && FreshIds(db, req)
    ensures Sound(Apply(db, idna, req))
  {
    if Status(db, idna, req) == OK {
      var db' := Changed(db, idna, req);
      KeepsAllDomains(db, idna, req, db');
      KeepsAllGrants(db, idna, req, db');
      KeepsAllRowsDifferent(db, idna, req, db');
      KeepsReferences(db, idna, req);
    }
  }

  // ---- Whole histories --------------------------------------------------------------------

  ghost predicate Possible(db: Db, idna: Idna, requests: seq<Request>)
    decreases |requests|
  {
    requests != [] ==> FreshIds(db, requests[0]) && Possible(Apply(db, idna, requests[0]), idna, requests[1..])
  }

  ghost function After(db: Db, idna: Idna, requests: seq<Request>): Db
    decreases |requests|
  {
    if requests == [] then db else After(Apply(db, idna, requests[0]), idna, requests[1..])
  }

  lemma {:induction false} HistoryKeepsSound(db: Db, idna: Idna, requests: seq<Request>)
    requires Sound(db) && Possible(db, idna, requests)
    ensures Sound(After(db, idna, requests))
    decreases |requests|
  {
    if requests != [] {
      RequestKeepsSound(db, idna, requests[0]);
      HistoryKeepsSound(Apply(db, idna, requests[0]), idna, requests[1..]);
    }
  }

  // ---- The sender decision -------------------------------------------------------------------

  /** A user may send as an address in a domain: the account and the domain are in
      force and a grant covers the address. */
  predicate MaySend(db: Db, user: Id, domain: Id, address: string) {
    && user in db.users && db.users[user].active
    && domain in db.domains && db.domains[domain].deletedAt == None && db.domains[domain].status == Approved
    && DomainPart(address) == db.domains[domain].name
    && exists g :: g in db.grants && db.grants[g].domain == domain && db.grants[g].user == user
                   && (db.grants[g].address == "*" || db.grants[g].address == address)
  }

  /** What the credential itself allows, apart from its owner's rights. */
  predicate CredentialCovers(db: Db, credential: Id, domain: Id, address: string, now: int) {
    && credential in db.credentials
    && db.credentials[credential].revokedAt.None?
    && (db.credentials[credential].expiresAt.None? || now < db.credentials[credential].expiresAt.value)
    && (Scope(credential, domain, "*") in db.scopes || Scope(credential, domain, address) in db.scopes)
  }

  /** In every sound state the query accepts a domain exactly when the credential,
      its owner, the domain, a grant and a scope all permit the address; and no
      other domain matches. A credential never reaches beyond its owner's rights. */
  lemma AuthorizedExactlyWhenPermitted(db: Db, idna: Idna, credential: Id, sender: string, now: int, domain: Id)
    requires Sound(db)
    ensures AuthorizeSender(db, idna, credential, sender, now) == Result.Success(domain) <==>
            && NormalizeAddress(idna, sender).Some?
            && CredentialCovers(db, credential, domain, NormalizeAddress(idna, sender).value, now)
            && MaySend(db, db.credentials[credential].user, domain, NormalizeAddress(idna, sender).value)
  {
    var normal := NormalizeAddress(idna, sender);
    if normal.Some? {
      var address := normal.value;
      assert DomainSound(db, domain);
      assert Matches(db, credential, domain, address, now) <==>
             CredentialCovers(db, credential, domain, address, now)
             && MaySend(db, db.credentials[credential].user, domain, address);
      var decision := AuthorizeSender(db, idna, credential, sender, now);
      if Matches(db, credential, domain, address, now) {
        assert Matches(db, credential, decision.value, address, now);
        assert NamesDiffer(db, decision.value, domain);
      }
    }
  }

  // ---- Rights only grow by the three grantors ------------------------------------------------

  /** The requests that can widen what `user` may send in `domain`: a grant by an
      active owner or admin of that domain, an approval by an active operator, or
      the activation of the account. */
  predicate Widens(db: Db, idna: Idna, req: Request, user: Id, domain: Id, address: string) {
    match req
    case CreateGrant(actor, d, _, u, raw) =>
      && d == domain && u == user && Manages(db, actor, domain) && Activated(db, user)
      && (GrantedAddress(db, idna, domain, raw) == ANY || GrantedAddress(db, idna, domain, raw) == address)
    case SetDomainStatus(actor, d, status) => d == domain && status.Approved? && IsOperator(db, actor)
    case UpdateUser(actor, u, active, _) => u == user && Sets(active, true) && IsOperator(db, actor)
    case AcceptInvitation(u) => u == user && user in db.users && !db.users[user].hasPassword
    case _ => false
  }

  /** A grant that was not there before comes from `create_grant`. */
  lemma NewGrantIsCreated(db: Db, idna: Idna, req: Request, user: Id, domain: Id, address: string)
    requires Status(db, idna, req) == OK
    requires !HasGrant(db, domain, user, address) && HasGrant(Changed(db, idna, req), domain, user, address)
    ensures req.CreateGrant? && req.domain == domain && req.user == user
    ensures GrantedAddress(db, idna, domain, req.address) == address
    ensures Manages(db, req.actor, domain) && Activated(db, user)
  {
    var after := Changed(db, idna, req);
    var g :| g in after.grants && after.grants[g] == SenderGrant(domain, user, address);
  }

  lemma ActivationIsAsked(db: Db, idna: Idna, req: Request, user: Id)
    requires Status(db, idna, req) == OK && user in db.users && !db.users[user].active
    requires user in Changed(db, idna, req).users && Changed(db, idna, req).users[user].active
    ensures || (req.UpdateUser? && req.user == user && Sets(req.active, true) && IsOperator(db, req.actor))
            || (req.AcceptInvitation? && req.user == user && !db.users[user].hasPassword)
  {
  }

  lemma ApprovalIsAnOperators(db: Db, idna: Idna, req: Request, domain: Id)
    requires FreshIds(db, req) && Status(db, idna, req) == OK && domain in db.domains
    requires !(LiveDomain(db, domain) && db.domains[domain].status.Approved?)
    requires var after := Changed(db, idna, req);
             LiveDomain(after, domain) && after.domains[domain].status.Approved?
    ensures req.SetDomainStatus? && req.domain == domain && req.status.Approved? && IsOperator(db, req.actor)
  {
  }

  lemma NamesStay(db: Db, idna: Idna, req: Request, domain: Id)
    requires FreshIds(db, req) && Status(db, idna, req) == OK && domain in db.domains
    ensures domain in Changed(db, idna, req).domains
    ensures Changed(db, idna, req).domains[domain].name == db.domains[domain].name
  {
  }

  lemma UsersAreNotBornActive(db: Db, idna: Idna, req: Request, user: Id)
    requires Status(db, idna, req) == OK && user !in db.users
    ensures user in Changed(db, idna, req).users ==> !Changed(db, idna, req).users[user].active
  {
  }

  /** Without a new grant, rights come from an approval or an activation. */
  lemma ForceIsRestored(db: Db, idna: Idna, req: Request, after: Db, user: Id, domain: Id, address: string)
    requires Sound(db) && FreshIds(db, req) && Status(db, idna, req) == OK && after == Changed(db, idna, req)
    requires HasGrant(db, domain, user, ANY) || HasGrant(db, domain, user, address)
    requires !MaySend(db, user, domain, address) && MaySend(after, user, domain, address)
    ensures Widens(db, idna, req, user, domain, address)
  {
    var g :| g in db.grants && db.grants[g].domain == domain && db.grants[g].user == user
             && (db.grants[g].address == ANY || db.grants[g].address == address);
    assert GrantSound(db, g);
    NamesStay(db, idna, req, domain);
    if user !in db.users {
      UsersAreNotBornActive(db, idna, req, user);
    } else if !db.users[user].active {
      ActivationIsAsked(db, idna, req, user);
    } else {
      ApprovalIsAnOperators(db, idna, req, domain);
    }
  }

  lemma RightsGrowOnlyByGrantors(db: Db, idna: Idna, req: Request, user: Id, domain: Id, address: string)
    requires Sound(db) && FreshIds(db, req)
    requires !MaySend(db, user, domain, address) && MaySend(Apply(db, idna, req), user, domain, address)
    ensures Status(db, idna, req) == OK && Widens(db, idna, req, user, domain, address)
  {
    if HasGrant(db, domain, user, ANY) || HasGrant(db, domain, user, address) {
      ForceIsRestored(db, idna, req, Changed(db, idna, req), user, domain, address);
    } else if HasGrant(Changed(db, idna, req), domain, user, ANY) {
      NewGrantIsCreated(db, idna, req, user, domain, ANY);
    } else {
      NewGrantIsCreated(db, idna, req, user, domain, address);
    }
  }

  // ---- Who can change what -------------------------------------------------------------------

  function Actor(req: Request): Option<Id> {
    match req
    case AcceptInvitation(_) => None
    case _ => Some(req.actor)
  }

  predicate SameDomain(before: Db, after: Db, domain: Id) {
    domain in before.domains ==> domain in after.domains && after.domains[domain] == before.domains[domain]
  }

  predicate SameAddress(before: Db, after: Db, domain: Id, a: Id) {
    var was := a in before.addresses && before.addresses[a].domain == domain;
    var still := a in after.addresses && after.addresses[a].domain == domain;
    was || still ==> was && still && after.addresses[a] == before.addresses[a]
  }

  predicate SameGrant(before: Db, after: Db, domain: Id, g: Id) {
    var was := g in before.grants && before.grants[g].domain == domain;
    var still := g in after.grants && after.grants[g].domain == domain;
    was || still ==> was && still && after.grants[g] == before.grants[g]
  }

  lemma DomainRowsChangeOnlyByOwner(db: Db, idna: Idna, req: Request, domain: Id, user: Id)
    requires FreshIds(db, req) && domain in db.domains && Status(db, idna, req) == OK
    ensures var after := Changed(db, idna, req);
            && (!SameDomain(db, after, domain) ==>
                  Actor(req).Some? && (DomainRole(db, Actor(req).value, domain) == Owner
                                       || (req.SetDomainStatus? && IsOperator(db, req.actor))))
            && (((domain, user) in db.admins <==> (domain, user) !in after.admins) ==>
                  Actor(req).Some? && DomainRole(db, Actor(req).value, domain) == Owner)
  {
  }

  lemma AddressesChangeOnlyByManagers(db: Db, idna: Idna, req: Request, domain: Id, row: Id)
    requires FreshIds(db, req) && domain in db.domains && Status(db, idna, req) == OK
    ensures !SameAddress(db, Changed(db, idna, req), domain, row) ==>
              Actor(req).Some? && Manages(db, Actor(req).value, domain)
  {
  }

  lemma GrantsChangeOnlyByManagers(db: Db, idna: Idna, req: Request, domain: Id, row: Id)
    requires FreshIds(db, req) && domain in db.domains && Status(db, idna, req) == OK
    ensures !SameGrant(db, Changed(db, idna, req), domain, row) ==>
              Actor(req).Some? && Manages(db, Actor(req).value, domain)
  {
  }

  /** A domain's row changes only for its active owner or an operator's approval
      decision; its admins only for its owner; its addresses and grants only for its
      active owner or admins. Being an operator gives no other right in a domain. */
  lemma OnlyManagersChangeADomain(db: Db, idna: Idna, req: Request, after: Db, domain: Id, user: Id, row: Id)
    requires FreshIds(db, req) && domain in db.domains && after == Apply(db, idna, req)
    ensures !SameDomain(db, after, domain) ==>
              Actor(req).Some? && (DomainRole(db, Actor(req).value, domain) == Owner
                                   || (req.SetDomainStatus? && IsOperator(db, req.actor)))
    ensures ((domain, user) in db.admins <==> (domain, user) !in after.admins) ==>
              Actor(req).Some? && DomainRole(db, Actor(req).value, domain) == Owner
    ensures !SameAddress(db, after, domain, row) || !SameGrant(db, after, domain, row) ==>
              Actor(req).Some? && Manages(db, Actor(req).value, domain)
  {
    if after != db {
      DomainRowsChangeOnlyByOwner(db, idna, req, domain, user);
      AddressesChangeOnlyByManagers(db, idna, req, domain, row);
      GrantsChangeOnlyByManagers(db, idna, req, domain, row);
    }
  }

  /** A credential changes only for its own user; its scopes also when a manager of
      the scope's domain deletes the exact address. */
  lemma OnlyItsUserChangesACredential(db: Db, idna: Idna, req: Request, credential: Id, scope: Scope)
    requires Sound(db) && FreshIds(db, req)
    requires credential in db.credentials && scope.credential == credential
    ensures var after := Apply(db, idna, req);
            && credential in after.credentials
            && (after.credentials[credential] != db.credentials[credential] ==>
                  Actor(req) == Some(db.credentials[credential].user))
            && (scope in after.scopes && scope !in db.scopes ==>
                  && Actor(req) == Some(db.credentials[credential].user)
                  && ScopeGranted(db, req.actor, (scope.domain, scope.address)))
            && (scope in db.scopes && scope !in after.scopes ==>
                  || Actor(req) == Some(db.credentials[credential].user)
                  || (req.DeleteAddress? && Manages(db, req.actor, scope.domain)))
  {
    if req.UpdateScopes? {
      ValidatedScopesAreGranted(db, idna, req.actor, req.items, []);
    }
  }

  /** Deleting an address leaves no exact grant or scope for it; every other grant stays. */
  lemma DeletedAddressLeavesNoExactRights(db: Db, idna: Idna, req: Request, user: Id, credential: Id, g: Id)
    requires Sound(db) && req.DeleteAddress? && Status(db, idna, req) == OK
    ensures var after := Apply(db, idna, req);
            var gone := db.addresses[req.addressId].address;
            && !HasAddress(after, req.domain, gone)
            && !HasGrant(after, req.domain, user, gone)
            && Scope(credential, req.domain, gone) !in after.scopes
            && (g in db.grants ==>
                  (g !in after.grants <==> db.grants[g].domain == req.domain && db.grants[g].address == gone))
  {
    var after := Apply(db, idna, req);
    forall a | a in after.addresses
      ensures after.addresses[a] != db.addresses[req.addressId]
    {
      assert RowsDiffer(db, a, req.addressId);
    }
  }

  // ---- What never comes back -------------------------------------------------------------------

  lemma NothingUndeletes(db: Db, idna: Idna, req: Request, domain: Id)
    requires FreshIds(db, req) && domain in db.domains && !Live(db.domains[domain])
    ensures var db' := Apply(db, idna, req); domain in db'.domains && !Live(db'.domains[domain])
  {
  }

  /** The registry with every grant and scope of one domain dropped. */
  function WithoutRights(db: Db, domain: Id): Db {
    db.(grants := map g | g in db.grants && db.grants[g].domain != domain :: db.grants[g],
        scopes := set s | s in db.scopes && s.domain != domain)
  }

  predicate Deleted(db: Db, domain: Id) {
    domain in db.domains && !Live(db.domains[domain])
  }

  lemma OtherGrantsStay(db: Db, domain: Id, d: Id, user: Id, address: string)
    requires d != domain
    ensures HasGrant(WithoutRights(db, domain), d, user, address) <==> HasGrant(db, d, user, address)
  {
    if HasGrant(db, d, user, address) {
      var g :| g in db.grants && db.grants[g] == SenderGrant(d, user, address);
      assert g in WithoutRights(db, domain).grants;
    }
  }

  lemma CheckedScopeIgnores(db: Db, idna: Idna, user: Id, item: ScopeRequest, domain: Id)
    requires Deleted(db, domain)
    ensures CheckedScope(WithoutRights(db, domain), idna, user, item) == CheckedScope(db, idna, user, item)
  {
    if LiveDomain(db, item.domain) {
      OtherGrantsStay(db, domain, item.domain, user, ANY);
      var address := ScopeAddress(idna, item, db.domains[item.domain]);
      if address.Some? {
        OtherGrantsStay(db, domain, item.domain, user, address.value);
      }
    }
  }

  lemma {:induction false} ValidatedScopesIgnore(
    db: Db, idna: Idna, user: Id, items: seq<ScopeRequest>, seen: seq<(Id, string)>, domain: Id)
    requires Deleted(db, domain)
    ensures ValidatedScopes(WithoutRights(db, domain), idna, user, items, seen)
         == ValidatedScopes(db, idna, user, items, seen)
    decreases |items|
  {
    if items != [] && !Repeats(db, idna, items[0], seen) {
      CheckedScopeIgnores(db, idna, user, items[0], domain);
      var checked := CheckedScope(db, idna, user, items[0]);
      if checked.Success? {
        ValidatedScopesIgnore(db, idna, user, items[1..], seen + [checked.value], domain);
      }
    }
  }

  lemma ValidatedScopesAreLive(db: Db, idna: Idna, user: Id, items: seq<ScopeRequest>, domain: Id)
    requires Deleted(db, domain) && ValidatedScopes(db, idna, user, items, []).Success?
    ensures forall i :: 0 <= i < |ValidatedScopes(db, idna, user, items, []).value| ==>
              ValidatedScopes(db, idna, user, items, []).value[i].0 != domain
  {
    ValidatedScopesAreGranted(db, idna, user, items, []);
  }

  lemma GrantStatusIgnores(db: Db, actor: Id, d: Id, user: Id, whole: bool, address: Option<string>, domain: Id)
    requires Deleted(db, domain)
    ensures GrantStatus(WithoutRights(db, domain), actor, d, user, whole, address)
         == GrantStatus(db, actor, d, user, whole, address)
  {
    if address.Some? && d != domain {
      OtherGrantsStay(db, domain, d, user, address.value);
    }
  }

  lemma GrantResponseIgnores(db: Db, idna: Idna, req: Request, domain: Id)
    requires Deleted(db, domain) && (req.CreateGrant? || req.DeleteGrant?)
    ensures Status(WithoutRights(db, domain), idna, req) == Status(db, idna, req)
  {
    if req.CreateGrant? {
      assert AddressAt(WithoutRights(db, domain), idna, req.domain, req.address)
          == AddressAt(db, idna, req.domain, req.address);
      GrantStatusIgnores(db, req.actor, req.domain, req.user, true, Some(ANY), domain);
      GrantStatusIgnores(db, req.actor, req.domain, req.user, false, AddressAt(db, idna, req.domain, req.address), domain);
    }
  }

  /** The rights of a deleted domain change no response. */
  lemma StatusIgnoresDeletedRights(db: Db, idna: Idna, req: Request, domain: Id)
    requires Deleted(db, domain)
    ensures Status(WithoutRights(db, domain), idna, req) == Status(db, idna, req)
  {
    if req.CreateGrant? || req.DeleteGrant? {
      GrantResponseIgnores(db, idna, req, domain);
    } else if req.CreateCredential? || req.UpdateScopes? {
      ValidatedScopesIgnore(db, idna, req.actor, req.items, [], domain);
    }
  }

  lemma DeletedAddressIgnores(db: Db, idna: Idna, req: Request, domain: Id)
    requires Deleted(db, domain) && Status(db, idna, req) == OK && Status(WithoutRights(db, domain), idna, req) == OK
    requires req.DeleteAddress?
    ensures Changed(WithoutRights(db, domain), idna, req) == WithoutRights(Changed(db, idna, req), domain)
  {
    var one, other := Changed(WithoutRights(db, domain), idna, req), WithoutRights(Changed(db, idna, req), domain);
    assert one.grants == other.grants;
    assert one.scopes == other.scopes;
  }

  /** A grant in another domain may be added before or after the rights are dropped. */
  lemma AddedGrantIgnores(db: Db, domain: Id, g: Id, row: SenderGrant)
    requires row.domain != domain
    ensures WithoutRights(db.(grants := db.grants[g := row]), domain)
         == WithoutRights(db, domain).(grants := WithoutRights(db, domain).grants[g := row])
  {
    var added := WithoutRights(db.(grants := db.grants[g := row]), domain).grants;
    assert added == WithoutRights(db, domain).grants[g := row];
  }

  lemma CreatedGrantIgnores(db: Db, idna: Idna, req: Request, domain: Id)
    requires Deleted(db, domain) && Status(db, idna, req) == OK && Status(WithoutRights(db, domain), idna, req) == OK
    requires req.CreateGrant? && req.domain != domain
    ensures Changed(WithoutRights(db, domain), idna, req) == WithoutRights(Changed(db, idna, req), domain)
  {
    var row := SenderGrant(req.domain, req.user, GrantedAddress(db, idna, req.domain, req.address));
    AddedGrantIgnores(db, domain, req.newId, row);
    assert GrantedAddress(WithoutRights(db, domain), idna, req.domain, req.address) == row.address;
  }

  lemma DeletedGrantIgnores(db: Db, idna: Idna, req: Request, domain: Id)
    requires Deleted(db, domain) && Status(db, idna, req) == OK && Status(WithoutRights(db, domain), idna, req) == OK
    requires req.DeleteGrant?
    ensures Changed(WithoutRights(db, domain), idna, req) == WithoutRights(Changed(db, idna, req), domain)
  {
    var one, other := Changed(WithoutRights(db, domain), idna, req), WithoutRights(Changed(db, idna, req), domain);
    assert one.grants == other.grants;
  }

  lemma ScopeChangesIgnore(db: Db, idna: Idna, req: Request, domain: Id)
    requires Deleted(db, domain) && Status(db, idna, req) == OK && Status(WithoutRights(db, domain), idna, req) == OK
    requires req.CreateCredential? || req.UpdateScopes?
    ensures Changed(WithoutRights(db, domain), idna, req) == WithoutRights(Changed(db, idna, req), domain)
  {
    ValidatedScopesIgnore(db, idna, req.actor, req.items, [], domain);
    ValidatedScopesAreLive(db, idna, req.actor, req.items, domain);
    var one, other := Changed(WithoutRights(db, domain), idna, req), WithoutRights(Changed(db, idna, req), domain);
    assert one.scopes == other.scopes;
  }

  lemma OtherChangesIgnore(db: Db, idna: Idna, req: Request, domain: Id)
    requires Deleted(db, domain) && Status(db, idna, req) == OK && Status(WithoutRights(db, domain), idna, req) == OK
    requires !(req.DeleteAddress? || req.CreateGrant? || req.DeleteGrant? || req.CreateCredential? || req.UpdateScopes?)
    ensures Changed(WithoutRights(db, domain), idna, req) == WithoutRights(Changed(db, idna, req), domain)
  {
  }

  /** Dropping the rights of a deleted domain commutes with every request. */
  lemma RequestIgnoresDeletedRights(db: Db, idna: Idna, req: Request, domain: Id)
    requires Deleted(db, domain) && FreshIds(db, req)
    ensures FreshIds(WithoutRights(db, domain), req)
    ensures Apply(WithoutRights(db, domain), idna, req) == WithoutRights(Apply(db, idna, req), domain)
  {
    StatusIgnoresDeletedRights(db, idna, req, domain);
    if Status(db, idna, req) == OK {
      if req.DeleteAddress? {
        DeletedAddressIgnores(db, idna, req, domain);
      } else if req.CreateGrant? {
        CreatedGrantIgnores(db, idna, req, domain);
      } else if req.DeleteGrant? {
        DeletedGrantIgnores(db, idna, req, domain);
      } else if req.CreateCredential? || req.UpdateScopes? {
        ScopeChangesIgnore(db, idna, req, domain);
      } else {
        OtherChangesIgnore(db, idna, req, domain);
      }
    }
  }

  /** Whatever is registered, approved or granted after a domain is deleted, also
      under its name: had its grants and scopes been dropped with it, every later
      response and every later row of anything else would be the same. */
  lemma {:induction false} DeletedRightsAreInert(db: Db, idna: Idna, requests: seq<Request>, domain: Id)
    requires Deleted(db, domain) && Possible(db, idna, requests)
    ensures Possible(WithoutRights(db, domain), idna, requests)
    ensures After(WithoutRights(db, domain), idna, requests) == WithoutRights(After(db, idna, requests), domain)
    ensures Deleted(After(db, idna, requests), domain)
    decreases |requests|
  {
    if requests != [] {
      NothingUndeletes(db, idna, requests[0], domain);
      RequestIgnoresDeletedRights(db, idna, requests[0], domain);
      DeletedRightsAreInert(Apply(db, idna, requests[0]), idna, requests[1..], domain);
    }
  }

  lemma MatchIgnoresDeletedRights(db: Db, credential: Id, d: Id, address: string, now: int, domain: Id)
    requires Deleted(db, domain)
    ensures Matches(WithoutRights(db, domain), credential, d, address, now) <==> Matches(db, credential, d, address, now)
  {
    if d != domain && credential in db.credentials {
      OtherGrantsStay(db, domain, d, db.credentials[credential].user, ANY);
      OtherGrantsStay(db, domain, d, db.credentials[credential].user, address);
    }
  }

  /** No sender decision rests on a right of a deleted domain. */
  lemma DecisionIgnoresDeletedRights(db: Db, idna: Idna, credential: Id, sender: string, now: int, domain: Id)
    requires Sound(db) && Deleted(db, domain)
    ensures AuthorizeSender(WithoutRights(db, domain), idna, credential, sender, now)
         == AuthorizeSender(db, idna, credential, sender, now)
         != Result.Success(domain)
  {
    var normal := NormalizeAddress(idna, sender);
    if normal.Some? {
      forall d
        ensures Matches(WithoutRights(db, domain), credential, d, normal.value, now)
           <==> Matches(db, credential, d, normal.value, now)
      {
        MatchIgnoresDeletedRights(db, credential, d, normal.value, now, domain);
      }
      var one, other := AuthorizeSender(WithoutRights(db, domain), idna, credential, sender, now),
                        AuthorizeSender(db, idna, credential, sender, now);
      if other.Success? {
        assert Matches(db, credential, one.value, normal.value, now);
        assert NamesDiffer(db, one.value, other.value);
      }
    }
  }

  /** After any history that follows the deletion of a domain, each sender decision is
      the one that would be taken had the domain's grants and scopes been dropped when
      it was deleted; and none is for the deleted domain. */
  lemma DeletedDomainNeverAuthorizes(
    db: Db, idna: Idna, requests: seq<Request>, domain: Id, credential: Id, sender: string, now: int)
    requires Sound(db) && Possible(db, idna, requests) && Deleted(db, domain)
    ensures AuthorizeSender(After(db, idna, requests), idna, credential, sender, now)
         == AuthorizeSender(After(WithoutRights(db, domain), idna, requests), idna, credential, sender, now)
         != Result.Success(domain)
  {
    HistoryKeepsSound(db, idna, requests);
    DeletedRightsAreInert(db, idna, requests, domain);
    DecisionIgnoresDeletedRights(After(db, idna, requests), idna, credential, sender, now, domain);
  }

  predicate Spent(db: Db, credential: Id, now: int) {
    && credential in db.credentials
    && (db.credentials[credential].revokedAt.Some?
        || (db.credentials[credential].expiresAt.Some? && db.credentials[credential].expiresAt.value <= now))
  }

  lemma NothingRevives(db: Db, idna: Idna, req: Request, credential: Id, now: int)
    requires FreshIds(db, req) && Spent(db, credential, now)
    ensures Spent(Apply(db, idna, req), credential, now)
  {
  }

  /** A revoked or expired credential never authorizes anything again. */
  lemma {:induction false} SpentCredentialNeverAuthorizes(
    db: Db, idna: Idna, requests: seq<Request>, credential: Id, spentAt: int, sender: string, now: int)
    requires Possible(db, idna, requests) && Spent(db, credential, spentAt) && spentAt <= now
    ensures AuthorizeSender(After(db, idna, requests), idna, credential, sender, now).Failure?
    decreases |requests|
  {
    if requests != [] {
      NothingRevives(db, idna, requests[0], credential, spentAt);
      SpentCredentialNeverAuthorizes(Apply(db, idna, requests[0]), idna, requests[1..], credential, spentAt, sender, now);
    }
  }
}

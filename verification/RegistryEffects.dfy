// What each management request needs in order to succeed, in terms of the rows
// themselves, and what it brings about when it does.

module RegistryEffects {

  import opened Names
  import opened Tables
  import opened Registry
  import opened RegistryRuns
  import opened SetFacts
  import opened Wrappers

  // ---- Who is asking -------------------------------------------------------------------

  /** The owner of a domain that is not deleted, with an active account. */
  predicate IsOwner(db: Db, user: Id, domain: Id) {
    && user in db.users && db.users[user].active
    && domain in db.domains && db.domains[domain].deletedAt == None && db.domains[domain].owner == user
  }

  /** The same for an owner or an admin of the domain. */
  predicate IsManager(db: Db, user: Id, domain: Id) {
    && user in db.users && db.users[user].active
    && domain in db.domains && db.domains[domain].deletedAt == None
    && (db.domains[domain].owner == user || (domain, user) in db.admins)
  }

  predicate IsActiveOperator(db: Db, user: Id) {
    user in db.users && db.users[user].active && db.users[user].isOperator
  }

  /** An account that is active and has set its password. */
  predicate CanBeGiven(db: Db, user: Id) {
    user in db.users && db.users[user].active && db.users[user].hasPassword
  }

  /** What a raw address comes to in a domain. */
  predicate IsAddressOf(idna: Idna, raw: string, domain: Domain, address: string) {
    NormalizeAddress(idna, raw) == Some(address) && DomainPart(address) == domain.name
  }

  /** How refusals are told apart: no session, no such domain, no role in it. */
  lemma RefusalCodes(db: Db, idna: Idna, req: Request)
    ensures Actor(req).Some? ==>
              (Status(db, idna, req) == 401 <==>
                 !(Actor(req).value in db.users && db.users[Actor(req).value].active))
    ensures (req.CreateUser? || req.SetDomainStatus?) && Signed(db, req.actor) && !db.users[req.actor].isOperator ==>
              Status(db, idna, req) == 403
    ensures req.UpdateUser? && Signed(db, req.actor) && !db.users[req.actor].isOperator ==>
              Status(db, idna, req) == if req.active == None && req.operator == None then 422 else 403
    ensures OnDomain(req) && Signed(db, req.actor)
            && !(req.domain in db.domains && db.domains[req.domain].deletedAt == None) ==>
              Status(db, idna, req) == 404
    ensures OnDomain(req) && Signed(db, req.actor) && LiveDomain(db, req.domain)
            && !IsManager(db, req.actor, req.domain) ==>
              Status(db, idna, req) == 403
    ensures OwnersOnly(req) && Signed(db, req.actor) && LiveDomain(db, req.domain)
            && !IsOwner(db, req.actor, req.domain) ==>
              Status(db, idna, req) == 403
  {
  }

  /** The requests that need to be the domain's owner. */
  predicate OwnersOnly(req: Request) {
    req.TransferOwner? || req.AddAdmin? || req.RemoveAdmin? || req.DeleteDomain?
  }

  /** The requests that need a role in the domain. */
  predicate OnDomain(req: Request) {
    OwnersOnly(req) || req.CreateAddress? || req.DeleteAddress? || req.CreateGrant? || req.DeleteGrant?
  }

  // ---- Accounts --------------------------------------------------------------------------

  lemma CreatedUser(db: Db, idna: Idna, actor: Id, newId: Id)
    ensures var req := Request.CreateUser(actor, newId);
            && (Status(db, idna, req) == 200 <==> IsActiveOperator(db, actor))
            && (Status(db, idna, req) == 200 ==>
                  Changed(db, idna, req) == db.(users := db.users[newId := User(false, false, false)]))
  {
  }

  /** Accepting an invitation sets the first password and activates the account. */
  lemma ActivatedUser(db: Db, idna: Idna, user: Id)
    ensures var req := AcceptInvitation(user);
            && (Status(db, idna, req) == 200 <==> user in db.users && !db.users[user].hasPassword)
            && (Status(db, idna, req) == 200 ==>
                  var after := Changed(db, idna, req);
                  && after == db.(users := after.users)
                  && after.users == db.users[user := User(true, true, db.users[user].isOperator)])
  {
  }

  lemma TwoOperators(db: Db)
    ensures |ActiveOperators(db)| > 1 <==>
            exists u, v :: u != v && IsActiveOperator(db, u) && IsActiveOperator(db, v)
  {
    var all := ActiveOperators(db);
    if |all| > 1 {
      var u :| u in all;
      DifferenceSize(all, {u});
      var v :| v in all - {u};
      assert IsActiveOperator(db, u) && IsActiveOperator(db, v);
    }
    if u: Id, v: Id :| u != v && IsActiveOperator(db, u) && IsActiveOperator(db, v) {
      SubsetSize({u, v}, all);
    }
  }

  /** An operator may change an account, except that no operator is disabled or demoted
      unless two are active, and no owner of a live domain is disabled. */
  lemma UpdatedUser(db: Db, idna: Idna, actor: Id, user: Id, active: Option<bool>, operator: Option<bool>)
    ensures var req := UpdateUser(actor, user, active, operator);
            Status(db, idna, req) == 200 <==>
            && IsActiveOperator(db, actor) && (active.Some? || operator.Some?) && user in db.users
            && ((active == Some(false) && db.users[user].active && db.users[user].isOperator)
                || (operator == Some(false) && db.users[user].isOperator) ==>
                  exists u, v :: u != v && IsActiveOperator(db, u) && IsActiveOperator(db, v))
            && (active == Some(false) && db.users[user].active ==>
                  forall d :: d in db.domains && db.domains[d].deletedAt == None ==> db.domains[d].owner != user)
    ensures var req := UpdateUser(actor, user, active, operator);
            Status(db, idna, req) == 200 ==>
              var after, was := Changed(db, idna, req), db.users[user];
              && after == db.(users := after.users)
              && after.users == db.users[user := User(was.hasPassword,
                                                      if active == None then was.active else active == Some(true),
                                                      if operator == None then was.isOperator else operator == Some(true))]
  {
    TwoOperators(db);
  }

  // ---- Domains ---------------------------------------------------------------------------

  /** Any active user may register a name that no live domain has; it awaits approval. */
  lemma RegisteredDomain(db: Db, idna: Idna, actor: Id, newId: Id, name: string)
    requires Sound(db)
    ensures var req := CreateDomain(actor, newId, name);
            && (Status(db, idna, req) == 200 <==>
                  && actor in db.users && db.users[actor].active && NormalizeDomain(idna, name).Some?
                  && forall d :: d in db.domains && db.domains[d].deletedAt == None ==>
                       db.domains[d].name != NormalizeDomain(idna, name).value)
            && (Status(db, idna, req) == 200 ==>
                  var normal := NormalizeDomain(idna, name).value;
                  Changed(db, idna, req) ==
                  db.(domains := db.domains[newId := Domain(normal, Some(normal), actor, AwaitingApproval, None)]))
  {
    forall d | d in db.domains
      ensures db.domains[d].activeName == if db.domains[d].deletedAt == None then Some(db.domains[d].name) else None
    {
      assert DomainSound(db, d);
    }
  }

  /** Only an operator decides on a registration, and approves it once. */
  lemma DecidedDomain(db: Db, idna: Idna, actor: Id, domain: Id, status: DomainStatus)
    ensures var req := SetDomainStatus(actor, domain, status);
            && (Status(db, idna, req) == 200 <==>
                  && IsActiveOperator(db, actor)
                  && domain in db.domains && db.domains[domain].deletedAt == None
                  && !(status == Approved && db.domains[domain].status == Approved))
            && (Status(db, idna, req) == 200 ==>
                  Changed(db, idna, req) ==
                  db.(domains := db.domains[domain := db.domains[domain].(status := status)]))
  {
  }

  /** Ownership goes to another activated account, which stops being an admin; the old
      owner keeps no role. */
  lemma TransferredDomain(db: Db, idna: Idna, actor: Id, domain: Id, user: Id)
    requires Sound(db)
    ensures var req := TransferOwner(actor, domain, user);
            && (Status(db, idna, req) == 200 <==>
                  IsOwner(db, actor, domain) && CanBeGiven(db, user) && user != actor)
            && (Status(db, idna, req) == 200 ==>
                  var after := Changed(db, idna, req);
                  && after == db.(domains := db.domains[domain := db.domains[domain].(owner := user)],
                                  admins := after.admins)
                  && (forall p :: p in after.admins <==> p in db.admins && p != (domain, user))
                  && IsOwner(after, user, domain) && !IsManager(after, actor, domain))
  {
    assert OwnerIsNotAdmin(db, domain);
  }

  lemma AddedAdmin(db: Db, idna: Idna, actor: Id, domain: Id, user: Id)
    ensures var req := AddAdmin(actor, domain, user);
            && (Status(db, idna, req) == 200 <==>
                  && IsOwner(db, actor, domain) && CanBeGiven(db, user)
                  && user != actor && (domain, user) !in db.admins)
            && (Status(db, idna, req) == 200 ==>
                  var after := Changed(db, idna, req);
                  && after == db.(admins := after.admins)
                  && (forall p :: p in after.admins <==> p in db.admins || p == (domain, user))
                  && IsManager(after, user, domain))
  {
  }

  lemma RemovedAdmin(db: Db, idna: Idna, actor: Id, domain: Id, user: Id)
    requires Sound(db)
    ensures var req := Request.RemoveAdmin(actor, domain, user);
            && (Status(db, idna, req) == 200 <==> IsOwner(db, actor, domain) && (domain, user) in db.admins)
            && (Status(db, idna, req) == 200 ==>
                  var after := Changed(db, idna, req);
                  && after == db.(admins := after.admins)
                  && (forall p :: p in after.admins <==> p in db.admins && p != (domain, user))
                  && !IsManager(after, user, domain))
  {
    assert OwnerIsNotAdmin(db, domain);
  }

  /** The owner deletes the domain for good, and its name can be registered again. */
  lemma DeletedDomainFreesItsName(db: Db, idna: Idna, actor: Id, domain: Id, now: int, other: Id, newId: Id)
    requires Sound(db)
    ensures var req := Request.DeleteDomain(actor, domain, now);
            && (Status(db, idna, req) == 200 <==> IsOwner(db, actor, domain))
            && (Status(db, idna, req) == 200 ==>
                  var after, was := Changed(db, idna, req), db.domains[domain];
                  && after == db.(domains := db.domains[domain :=
                       Domain(was.name, None, was.owner, was.status, Some(now))])
                  && (NormalizeDomain(idna, was.name) == Some(was.name) && other in db.users && db.users[other].active ==>
                        Status(after, idna, CreateDomain(other, newId, was.name)) == 200))
  {
    var req := Request.DeleteDomain(actor, domain, now);
    if Status(db, idna, req) == 200 {
      var after := Changed(db, idna, req);
      forall d | d in after.domains
        ensures after.domains[d].activeName != Some(db.domains[domain].name)
      {
        assert DomainSound(db, d) && DomainSound(db, domain) && NamesDiffer(db, d, domain);
      }
    }
  }

  // ---- Addresses and grants ----------------------------------------------------------------

  /** A manager may register a normal address of the domain that is not registered yet. */
  lemma RegisteredAddress(db: Db, idna: Idna, actor: Id, domain: Id, newId: Id, raw: string, address: string)
    requires domain in db.domains && IsAddressOf(idna, raw, db.domains[domain], address)
    ensures Status(db, idna, Request.CreateAddress(actor, domain, newId, raw)) == 200 <==>
            && IsManager(db, actor, domain)
            && !(exists a :: a in db.addresses && db.addresses[a] == SenderAddress(domain, address))
  {
    AddressInIs(idna, raw, db.domains[domain], address);
    AddressRequest(db, idna, actor, domain, newId, raw, address);
    AddressResponse(db, actor, domain, address);
  }

  /** What registering adds. */
  lemma AddedAddress(db: Db, idna: Idna, actor: Id, domain: Id, newId: Id, raw: string)
    requires Status(db, idna, Request.CreateAddress(actor, domain, newId, raw)) == 200
    ensures NormalizeAddress(idna, raw).Some?
    ensures Changed(db, idna, Request.CreateAddress(actor, domain, newId, raw)) ==
            db.(addresses := db.addresses[newId := SenderAddress(domain, NormalizeAddress(idna, raw).value)])
  {
  }

  lemma GatesAre(db: Db, actor: Id, domain: Id, user: Id)
    ensures DomainGate(db, actor, domain, false) == 200 <==> IsManager(db, actor, domain)
    ensures UserGate(db, user) == 200 <==> CanBeGiven(db, user)
  {
  }

  lemma AddressResponse(db: Db, actor: Id, domain: Id, address: string)
    ensures AddressStatus(db, actor, domain, Some(address)) == 200 <==>
            && IsManager(db, actor, domain)
            && !(exists a :: a in db.addresses && db.addresses[a] == SenderAddress(domain, address))
  {
    GatesAre(db, actor, domain, actor);
  }

  lemma AddressRequest(db: Db, idna: Idna, actor: Id, domain: Id, newId: Id, raw: string, address: string)
    requires AddressAt(db, idna, domain, raw) == Some(address)
    ensures Status(db, idna, Request.CreateAddress(actor, domain, newId, raw)) ==
            AddressStatus(db, actor, domain, Some(address))
  {
  }

  lemma AddressInIs(idna: Idna, raw: string, domain: Domain, address: string)
    requires IsAddressOf(idna, raw, domain, address)
    ensures AddressIn(idna, raw, domain) == Some(address)
  {
  }

  /** What is no normal address of the domain is not registered. */
  lemma UnnamedAddressIsRefused(db: Db, idna: Idna, actor: Id, domain: Id, newId: Id, raw: string)
    requires IsManager(db, actor, domain)
    requires NormalizeAddress(idna, raw).Some? ==>
               DomainPart(NormalizeAddress(idna, raw).value) != db.domains[domain].name
    ensures Status(db, idna, Request.CreateAddress(actor, domain, newId, raw)) == 422
  {
  }

  /** A grant needs an activated account, and an exact address needs to be registered;
      nothing is granted twice. */
  lemma AddedGrant(db: Db, idna: Idna, actor: Id, domain: Id, newId: Id, user: Id, raw: string, address: string)
    requires domain in db.domains
    requires if raw == "*" then address == "*" else IsAddressOf(idna, raw, db.domains[domain], address)
    ensures Status(db, idna, Request.CreateGrant(actor, domain, newId, user, raw)) == 200 <==>
            && IsManager(db, actor, domain) && CanBeGiven(db, user)
            && (raw == "*" || exists a :: a in db.addresses && db.addresses[a] == SenderAddress(domain, address))
            && !(exists g :: g in db.grants && db.grants[g] == SenderGrant(domain, user, address))
  {
    if raw != "*" {
      AddressInIs(idna, raw, db.domains[domain], address);
    }
    GrantRequest(db, idna, actor, domain, newId, user, raw, address);
    GrantResponse(db, actor, domain, user, raw == "*", address);
  }

  /** It adds one row. */
  lemma AddedGrantRow(db: Db, idna: Idna, actor: Id, domain: Id, newId: Id, user: Id, raw: string, address: string)
    requires domain in db.domains
    requires if raw == "*" then address == "*" else IsAddressOf(idna, raw, db.domains[domain], address)
    requires Status(db, idna, Request.CreateGrant(actor, domain, newId, user, raw)) == 200
    ensures Changed(db, idna, Request.CreateGrant(actor, domain, newId, user, raw)) ==
            db.(grants := db.grants[newId := SenderGrant(domain, user, address)])
  {
    assert GrantedAddress(db, idna, domain, raw) == address;
  }

  lemma GrantResponse(db: Db, actor: Id, domain: Id, user: Id, whole: bool, address: string)
    ensures GrantStatus(db, actor, domain, user, whole, Some(address)) == 200 <==>
            && IsManager(db, actor, domain) && CanBeGiven(db, user)
            && (whole || exists a :: a in db.addresses && db.addresses[a] == SenderAddress(domain, address))
            && !(exists g :: g in db.grants && db.grants[g] == SenderGrant(domain, user, address))
  {
    GatesAre(db, actor, domain, user);
  }

  lemma WholeGrantStatus(db: Db, idna: Idna, actor: Id, domain: Id, newId: Id, user: Id)
    ensures Status(db, idna, Request.CreateGrant(actor, domain, newId, user, "*")) ==
            GrantStatus(db, actor, domain, user, true, Some("*"))
  {
  }

  lemma ExactGrantStatus(db: Db, idna: Idna, actor: Id, domain: Id, newId: Id, user: Id, raw: string, address: Option<string>)
    requires raw != "*" && AddressAt(db, idna, domain, raw) == address
    ensures Status(db, idna, Request.CreateGrant(actor, domain, newId, user, raw)) ==
            GrantStatus(db, actor, domain, user, false, address)
  {
  }

  lemma GrantRequest(db: Db, idna: Idna, actor: Id, domain: Id, newId: Id, user: Id, raw: string, address: string)
    requires if raw == "*" then address == "*" else AddressAt(db, idna, domain, raw) == Some(address)
    ensures Status(db, idna, Request.CreateGrant(actor, domain, newId, user, raw)) ==
            GrantStatus(db, actor, domain, user, raw == "*", Some(address))
  {
    if raw == "*" {
      WholeGrantStatus(db, idna, actor, domain, newId, user);
    } else {
      ExactGrantStatus(db, idna, actor, domain, newId, user, raw, Some(address));
    }
  }

  /** Without a normal address in the domain there is no grant. */
  lemma UnnamedGrantIsRefused(db: Db, idna: Idna, actor: Id, domain: Id, newId: Id, user: Id, raw: string)
    requires raw != "*" && IsManager(db, actor, domain) && CanBeGiven(db, user)
    requires NormalizeAddress(idna, raw).Some? ==>
               DomainPart(NormalizeAddress(idna, raw).value) != db.domains[domain].name
    ensures Status(db, idna, Request.CreateGrant(actor, domain, newId, user, raw)) == 422
  {
  }

  lemma RemovedGrant(db: Db, idna: Idna, actor: Id, domain: Id, grant: Id)
    ensures var req := Request.DeleteGrant(actor, domain, grant);
            && (Status(db, idna, req) == 200 <==>
                  IsManager(db, actor, domain) && grant in db.grants && db.grants[grant].domain == domain)
            && (Status(db, idna, req) == 200 ==>
                  var after := Changed(db, idna, req);
                  && after == db.(grants := after.grants)
                  && (forall g :: g in after.grants <==> g in db.grants && g != grant)
                  && (forall g :: g in after.grants ==> after.grants[g] == db.grants[g]))
  {
  }

  lemma RemovedAddress(db: Db, idna: Idna, actor: Id, domain: Id, addressId: Id)
    ensures var req := Request.DeleteAddress(actor, domain, addressId);
            && (Status(db, idna, req) == 200 <==>
                  IsManager(db, actor, domain) && addressId in db.addresses && db.addresses[addressId].domain == domain)
            && (Status(db, idna, req) == 200 ==>
                  var after := Changed(db, idna, req);
                  && after == db.(addresses := after.addresses, grants := after.grants, scopes := after.scopes)
                  && (forall a :: a in after.addresses <==> a in db.addresses && a != addressId)
                  && (forall a :: a in after.addresses ==> after.addresses[a] == db.addresses[a])
                  && (forall s :: s in after.scopes <==>
                        s in db.scopes && !(s.domain == domain && s.address == db.addresses[addressId].address)))
  {
  }

  // ---- Credentials ---------------------------------------------------------------------------

  /** A requested scope that may be given: the domain is live and approved, the address is
      "*" or a normal address of the domain short enough to be kept, and the user has a
      grant for the address or the whole domain. */
  ghost predicate MayBeScope(db: Db, idna: Idna, user: Id, item: ScopeRequest, address: string) {
    && item.domain in db.domains && db.domains[item.domain].deletedAt == None
    && db.domains[item.domain].status == Approved
    && (if item.address == "*" then address == "*"
        else IsAddressOf(idna, item.address, db.domains[item.domain], address) && |address| <= 254)
    && exists g :: g in db.grants && db.grants[g].domain == item.domain && db.grants[g].user == user
                   && (db.grants[g].address == "*" || db.grants[g].address == address)
  }

  lemma CoveredIff(db: Db, domain: Id, user: Id, address: string)
    ensures HasGrant(db, domain, user, ANY) || HasGrant(db, domain, user, address) <==>
            exists g :: g in db.grants && db.grants[g].domain == domain && db.grants[g].user == user
                        && (db.grants[g].address == "*" || db.grants[g].address == address)
  {
    if g: Id :| g in db.grants && db.grants[g].domain == domain && db.grants[g].user == user
                && (db.grants[g].address == "*" || db.grants[g].address == address) {
      assert db.grants[g] == SenderGrant(domain, user, db.grants[g].address);
    }
  }

  /** The address a scope stands for is normalized once more, which only a long one fails. */
  lemma NormalizedTwice(idna: Idna, raw: string, domain: Domain, address: string)
    requires IsAddressOf(idna, raw, domain, address)
    ensures AddressIn(idna, address, domain).Some? <==> |address| <= 254
    ensures address != "*"
  {
    NormalAddressIsStableIffShort(idna, raw);
    NormalAddressParts(idna, raw);
    assert CountAt("*") == 0;
  }

  /** A scope for the whole domain. */
  lemma WholeScopeIff(db: Db, idna: Idna, user: Id, domain: Id)
    ensures CheckedScope(db, idna, user, ScopeRequest(domain, "*")) == Result.Success((domain, "*")) <==>
            MayBeScope(db, idna, user, ScopeRequest(domain, "*"), "*")
    ensures CheckedScope(db, idna, user, ScopeRequest(domain, "*")).Success? ==>
              CheckedScope(db, idna, user, ScopeRequest(domain, "*")).value == (domain, "*")
  {
    CoveredIff(db, domain, user, "*");
  }

  lemma ExactScopeChecks(db: Db, idna: Idna, user: Id, item: ScopeRequest, address: string)
    requires item.address != "*" && item.domain in db.domains
    requires AddressIn(idna, item.address, db.domains[item.domain]) == Some(address) && address != "*"
    ensures var checked := CheckedScope(db, idna, user, item);
            && (checked.Success? <==>
                  && LiveDomain(db, item.domain) && db.domains[item.domain].status.Approved?
                  && AddressIn(idna, address, db.domains[item.domain]).Some?
                  && (HasGrant(db, item.domain, user, ANY) || HasGrant(db, item.domain, user, address)))
            && (checked.Success? ==> checked.value == (item.domain, address))
  {
  }

  lemma ExactScopeMayBe(db: Db, idna: Idna, user: Id, item: ScopeRequest, address: string)
    requires item.address != "*" && item.domain in db.domains
    requires IsAddressOf(idna, item.address, db.domains[item.domain], address)
    ensures MayBeScope(db, idna, user, item, address) <==>
            && LiveDomain(db, item.domain) && db.domains[item.domain].status.Approved? && |address| <= 254
            && (HasGrant(db, item.domain, user, ANY) || HasGrant(db, item.domain, user, address))
  {
    CoveredIff(db, item.domain, user, address);
  }

  /** A scope for one address, given its normal form. */
  lemma ExactScopeIff(db: Db, idna: Idna, user: Id, item: ScopeRequest, address: string)
    requires item.address != "*" && item.domain in db.domains
    requires AddressIn(idna, item.address, db.domains[item.domain]) == Some(address)
    ensures CheckedScope(db, idna, user, item) == Result.Success((item.domain, address)) <==>
            MayBeScope(db, idna, user, item, address)
    ensures CheckedScope(db, idna, user, item).Success? ==>
              CheckedScope(db, idna, user, item).value == (item.domain, address)
  {
    NormalizedTwice(idna, item.address, db.domains[item.domain], address);
    ExactScopeChecks(db, idna, user, item, address);
    ExactScopeMayBe(db, idna, user, item, address);
  }

  lemma CheckedScopeIff(db: Db, idna: Idna, user: Id, item: ScopeRequest, address: string)
    ensures CheckedScope(db, idna, user, item) == Result.Success((item.domain, address)) <==>
            MayBeScope(db, idna, user, item, address)
  {
    if item.address == "*" {
      assert item == ScopeRequest(item.domain, "*");
      WholeScopeIff(db, idna, user, item.domain);
    } else if item.domain in db.domains {
      var normal := AddressIn(idna, item.address, db.domains[item.domain]);
      if normal.Some? {
        ExactScopeIff(db, idna, user, item, normal.value);
      }
    }
  }

  /** Collecting what was chosen, each against what was collected before it. */
  function Collected<K(==)>(choices: seq<Option<K>>, seen: seq<K>): Option<seq<K>>
    decreases |choices|
  {
    if choices == [] then Some(seen)
    else if choices[0].None? || choices[0].value in seen then None
    else Collected(choices[1..], seen + [choices[0].value])
  }

  ghost predicate AllDifferent<K>(keys: seq<K>) {
    forall i, j :: 0 <= i < j < |keys| ==> keys[i] != keys[j]
  }

  lemma {:induction false} CollectedExtends<K>(choices: seq<Option<K>>, seen: seq<K>)
    ensures Collected(choices, seen).Some? ==> seen <= Collected(choices, seen).value
    decreases |choices|
  {
    if choices != [] && choices[0].Some? {
      CollectedExtends(choices[1..], seen + [choices[0].value]);
    }
  }

  /** Everything is collected exactly when there is a choice for each and no two are the same. */
  lemma {:induction false} CollectedIff<K>(choices: seq<Option<K>>, seen: seq<K>, keys: seq<K>)
    requires AllDifferent(seen)
    ensures Collected(choices, seen) == Some(seen + keys) <==>
            && |keys| == |choices| && (forall i :: 0 <= i < |choices| ==> choices[i] == Some(keys[i]))
            && AllDifferent(seen + keys)
    decreases |choices|
  {
    if choices == [] {
      assert |seen + keys| == |seen| + |keys|;
      assert |keys| == 0 ==> seen + keys == seen;
    } else if choices[0].Some? {
      var key := choices[0].value;
      CollectedExtends(choices[1..], seen + [key]);
      if keys == [] {
        assert |seen + keys| < |seen + [key]|;
      } else {
        CollectedStep(choices, seen, key, keys[0], keys[1..]);
        assert keys == [keys[0]] + keys[1..];
      }
    } else if keys != [] {
      assert choices[0] != Some(keys[0]);
    }
  }

  lemma CollectedStep<K>(choices: seq<Option<K>>, seen: seq<K>, key: K, first: K, rest: seq<K>)
    requires AllDifferent(seen) && choices != [] && choices[0] == Some(key)
    ensures Collected(choices, seen) == Some(seen + ([first] + rest)) <==>
            && |rest| + 1 == |choices| && (forall i :: 0 <= i < |choices| ==> choices[i] == Some(([first] + rest)[i]))
            && AllDifferent(seen + ([first] + rest))
    decreases |choices|, 0
  {
    var all := [first] + rest;
    assert seen + all == (seen + [first]) + rest;
    assert forall i :: 0 <= i <= |seen| ==> (seen + all)[i] == (seen + [first])[i];
    assert forall i :: 1 <= i < |choices| ==> choices[i] == choices[1..][i - 1];
    assert forall i :: 1 <= i < |all| ==> all[i] == rest[i - 1];
    if key !in seen {
      CollectedExtends(choices[1..], seen + [key]);
      assert (seen + [key])[|seen|] == key && (seen + all)[|seen|] == first;
      if key == first {
        CollectedIff(choices[1..], seen + [key], rest);
      }
    } else {
      var i :| 0 <= i < |seen| && seen[i] == key;
      assert (seen + all)[i] == key && (seen + all)[|seen|] == first;
    }
  }

  /** What one requested scope comes to, apart from repeats. */
  function Choice(db: Db, idna: Idna, user: Id, item: ScopeRequest): Option<(Id, string)> {
    if CheckedScope(db, idna, user, item).Success? then Some(CheckedScope(db, idna, user, item).value) else None
  }

  function Choices(db: Db, idna: Idna, user: Id, items: seq<ScopeRequest>): (r: seq<Option<(Id, string)>>)
    ensures |r| == |items|
    ensures forall i :: 0 <= i < |items| ==> r[i] == Choice(db, idna, user, items[i])
  {
    if items == [] then [] else [Choice(db, idna, user, items[0])] + Choices(db, idna, user, items[1..])
  }

  lemma RepeatsIff(db: Db, idna: Idna, user: Id, item: ScopeRequest, seen: seq<(Id, string)>)
    requires Choice(db, idna, user, item).Some?
    ensures Repeats(db, idna, item, seen) <==> Choice(db, idna, user, item).value in seen
  {
  }

  lemma {:induction false} ValidatedScopesAreCollected(
    db: Db, idna: Idna, user: Id, items: seq<ScopeRequest>, seen: seq<(Id, string)>)
    ensures var collected := Collected(Choices(db, idna, user, items), seen);
            var validated := ValidatedScopes(db, idna, user, items, seen);
            (validated.Success? <==> collected.Some?) && (collected.Some? ==> validated.value == collected.value)
    decreases |items|
  {
    if items != [] {
      var choice := Choice(db, idna, user, items[0]);
      assert Choices(db, idna, user, items)[1..] == Choices(db, idna, user, items[1..]);
      if choice.Some? {
        RepeatsIff(db, idna, user, items[0], seen);
        ValidatedScopesAreCollected(db, idna, user, items[1..], seen + [choice.value]);
      }
    }
  }

  lemma ChoiceIff(db: Db, idna: Idna, user: Id, item: ScopeRequest, key: (Id, string))
    ensures Choice(db, idna, user, item) == Some(key) <==> key.0 == item.domain && MayBeScope(db, idna, user, item, key.1)
  {
    CheckedScopeIff(db, idna, user, item, key.1);
  }

  ghost predicate AllMayBe(db: Db, idna: Idna, user: Id, items: seq<ScopeRequest>, keys: seq<(Id, string)>)
    requires |keys| == |items|
  {
    forall i :: 0 <= i < |items| ==> keys[i].0 == items[i].domain && MayBeScope(db, idna, user, items[i], keys[i].1)
  }

  lemma AllChosenIff(db: Db, idna: Idna, user: Id, items: seq<ScopeRequest>, keys: seq<(Id, string)>)
    requires |keys| == |items|
    ensures AllMayBe(db, idna, user, items, keys) <==>
            forall i :: 0 <= i < |items| ==> Choices(db, idna, user, items)[i] == Some(keys[i])
  {
    forall i | 0 <= i < |items|
      ensures Choices(db, idna, user, items)[i] == Some(keys[i]) <==>
              keys[i].0 == items[i].domain && MayBeScope(db, idna, user, items[i], keys[i].1)
    {
      ChoiceIff(db, idna, user, items[i], keys[i]);
    }
  }

  /** A request for scopes is accepted exactly when each may be given and none is repeated,
      and then gives exactly the normal addresses asked for, in order. */
  lemma ScopesAcceptedIff(db: Db, idna: Idna, user: Id, items: seq<ScopeRequest>, keys: seq<(Id, string)>)
    ensures ValidatedScopes(db, idna, user, items, []) == Result.Success(keys) <==>
            |keys| == |items| && AllMayBe(db, idna, user, items, keys) && AllDifferent(keys)
  {
    assert [] + keys == keys;
    ValidatedScopesAreCollected(db, idna, user, items, []);
    CollectedIff(Choices(db, idna, user, items), [], keys);
    if |keys| == |items| {
      AllChosenIff(db, idna, user, items, keys);
    }
  }

  /** A new credential has exactly the scopes asked for and no revocation. */
  lemma CreatedCredential(db: Db, idna: Idna, actor: Id, newId: Id, items: seq<ScopeRequest>, expiresAt: Option<int>,
                          now: int, keys: seq<(Id, string)>)
    requires Sound(db) && newId !in db.credentials
    requires ValidatedScopes(db, idna, actor, items, []) == Result.Success(keys)
    ensures var req := Request.CreateCredential(actor, newId, items, expiresAt, now);
            && (Status(db, idna, req) == 200 <==>
                  && actor in db.users && db.users[actor].active
                  && 1 <= |items| <= 100 && (expiresAt.Some? ==> now < expiresAt.value))
            && (Status(db, idna, req) == 200 ==>
                  var after := Changed(db, idna, req);
                  && after == db.(credentials := db.credentials[newId := Credential(actor, expiresAt, None)],
                                  scopes := after.scopes)
                  && (forall s :: s in after.scopes && s.credential != newId <==> s in db.scopes)
                  && (forall s :: s in after.scopes && s.credential == newId <==>
                        s.credential == newId && (s.domain, s.address) in keys))
  {
  }

  /** An unrevoked credential's own user may replace its scopes: by exactly those asked for. */
  lemma ReplacedScopes(db: Db, idna: Idna, actor: Id, credential: Id, items: seq<ScopeRequest>, keys: seq<(Id, string)>)
    requires ValidatedScopes(db, idna, actor, items, []) == Result.Success(keys)
    ensures var req := UpdateScopes(actor, credential, items);
            && (Status(db, idna, req) == 200 <==>
                  && actor in db.users && db.users[actor].active && 1 <= |items| <= 100
                  && credential in db.credentials && db.credentials[credential].user == actor
                  && db.credentials[credential].revokedAt == None)
            && (Status(db, idna, req) == 200 ==>
                  var after := Changed(db, idna, req);
                  && after == db.(scopes := after.scopes)
                  && (forall s: Scope :: s.credential != credential ==> (s in after.scopes <==> s in db.scopes))
                  && (forall s: Scope :: s.credential == credential ==> (s in after.scopes <==> (s.domain, s.address) in keys)))
  {
  }

  /** Without acceptable scopes neither request succeeds. */
  lemma BadScopesAreRefused(db: Db, idna: Idna, actor: Id, credential: Id, items: seq<ScopeRequest>,
                            expiresAt: Option<int>, now: int)
    requires ValidatedScopes(db, idna, actor, items, []).Failure?
    ensures Status(db, idna, Request.CreateCredential(actor, credential, items, expiresAt, now)) != 200
    ensures Status(db, idna, UpdateScopes(actor, credential, items)) != 200
  {
  }

  /** A credential's own user may revoke it; the first revocation sets the moment, and
      nothing else changes. */
  lemma RevokedCredential(db: Db, idna: Idna, actor: Id, credential: Id, now: int)
    ensures var req := Request.RevokeCredential(actor, credential, now);
            && (Status(db, idna, req) == 200 <==>
                  && actor in db.users && db.users[actor].active
                  && credential in db.credentials && db.credentials[credential].user == actor)
            && (Status(db, idna, req) == 200 ==>
                  var after, was := Changed(db, idna, req), db.credentials[credential];
                  && after == db.(credentials := after.credentials)
                  && after.credentials.Keys == db.credentials.Keys
                  && (forall c :: c in db.credentials && c != credential ==> after.credentials[c] == db.credentials[c])
                  && after.credentials[credential].user == was.user
                  && after.credentials[credential].expiresAt == was.expiresAt
                  && after.credentials[credential].revokedAt == if was.revokedAt == None then Some(now) else was.revokedAt)
  {
  }

  // ---- What it means for the mail ------------------------------------------------------------

  /** From its revocation on, whatever is requested later, a credential authorizes nothing. */
  lemma RevocationIsFinal(db: Db, idna: Idna, actor: Id, credential: Id, now: int, requests: seq<Request>,
                          sender: string, later: int)
    requires Status(db, idna, Request.RevokeCredential(actor, credential, now)) == 200
    requires Possible(Apply(db, idna, Request.RevokeCredential(actor, credential, now)), idna, requests)
    ensures AuthorizeSender(After(Apply(db, idna, Request.RevokeCredential(actor, credential, now)), idna, requests),
                            idna, credential, sender, later).Failure?
  {
    RevokedCredential(db, idna, actor, credential, now);
    SpentCredentialNeverAuthorizes(
      Apply(db, idna, Request.RevokeCredential(actor, credential, now)), idna, requests, credential, later, sender, later);
  }

  /** Disabling an account stops all its credentials at once. */
  lemma DisablingStopsTheMail(db: Db, idna: Idna, actor: Id, user: Id, operator: Option<bool>, credential: Id,
                              sender: string, now: int)
    requires Status(db, idna, UpdateUser(actor, user, Some(false), operator)) == 200
    requires credential in db.credentials && db.credentials[credential].user == user
    ensures AuthorizeSender(Apply(db, idna, UpdateUser(actor, user, Some(false), operator)),
                            idna, credential, sender, now).Failure?
  {
    UpdatedUser(db, idna, actor, user, Some(false), operator);
  }

  /** A grant lets its user send, at once where the domain is approved. */
  lemma GrantLetsSend(db: Db, idna: Idna, actor: Id, domain: Id, newId: Id, user: Id, raw: string, address: string)
    requires Status(db, idna, Request.CreateGrant(actor, domain, newId, user, raw)) == 200
    requires DomainPart(address) == db.domains[domain].name && db.domains[domain].status == Approved
    requires raw == "*" || NormalizeAddress(idna, raw) == Some(address)
    ensures MaySend(Apply(db, idna, Request.CreateGrant(actor, domain, newId, user, raw)), user, domain, address)
  {
    var after := Apply(db, idna, Request.CreateGrant(actor, domain, newId, user, raw));
    assert newId in after.grants;
  }

  /** Rejecting a domain, or deleting it, stops all mail through it. */
  lemma RejectionStopsTheMail(db: Db, idna: Idna, req: Request, credential: Id, sender: string, now: int)
    requires Sound(db) && FreshIds(db, req) && Status(db, idna, req) == 200
    requires (req.SetDomainStatus? && req.status != Approved) || req.DeleteDomain?
    ensures AuthorizeSender(Apply(db, idna, req), idna, credential, sender, now) != Result.Success(req.domain)
  {
    RequestKeepsSound(db, idna, req);
    AuthorizedExactlyWhenPermitted(Apply(db, idna, req), idna, credential, sender, now, req.domain);
  }

  /** A refused sender: no address at all, or none of the rights. */
  lemma RefusedSender(db: Db, idna: Idna, credential: Id, sender: string, now: int)
    ensures var decision := AuthorizeSender(db, idna, credential, sender, now);
            decision.Failure? ==> decision.error == if NormalizeAddress(idna, sender) == None then 422 else 403
  {
  }
}

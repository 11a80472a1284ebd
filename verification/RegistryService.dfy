// The management handlers as they run: each checks, then assigns row fields and
// adds or deletes rows of the shared tables, one transaction at a time.

module RegistryService {

  import opened Names
  import opened Tables
  import opened Registry
  import opened Wrappers

  /** One turn of the scope loop, told from its first item. */
  lemma ScopesStep(db: Db, idna: Idna, user: Id, items: seq<ScopeRequest>, seen: seq<(Id, string)>)
    requires items != []
    ensures var item := items[0];
            var all := ValidatedScopes(db, idna, user, items, seen);
            if !LiveDomain(db, item.domain) then all == Result.Failure(NOT_FOUND)
            else
              var address := ScopeAddress(idna, item, db.domains[item.domain]);
              if address.None? || (item.domain, address.value) in seen then all == Result.Failure(UNPROCESSABLE)
              else
                var checked := CheckedScope(db, idna, user, item);
                if checked.Failure? then all == Result.Failure(checked.error)
                else
                  && checked.value == (item.domain, address.value)
                  && all == ValidatedScopes(db, idna, user, items[1..], seen + [checked.value])
  {
  }

  class RegistryTables {
    const idna: Idna
    var users: map<Id, User>
    var domains: map<Id, Domain>
    var admins: set<(Id, Id)>
    var addresses: map<Id, SenderAddress>
    var grants: map<Id, SenderGrant>
    var credentials: map<Id, Credential>
    var scopes: set<Scope>

    constructor (idna: Idna)
      ensures this.idna == idna
      ensures Snapshot() == Db(map[], map[], {}, map[], map[], map[], {})
    {
      this.idna := idna;
      users, domains, admins, addresses := map[], map[], {}, map[];
      grants, credentials, scopes := map[], map[], {};
    }

    function Snapshot(): Db
      reads this
    {
      Db(users, domains, admins, addresses, grants, credentials, scopes)
    }

    method CreateUser(actor: Id, newId: Id) returns (status: int)
      modifies this
      ensures status == Status(old(Snapshot()), idna, Request.CreateUser(actor, newId))
      ensures Snapshot() == Apply(old(Snapshot()), idna, Request.CreateUser(actor, newId))
    {
      if !Signed(Snapshot(), actor) { return UNAUTHENTICATED; }
      if !users[actor].isOperator { return FORBIDDEN; }
      users := users[newId := User(false, false, false)];
      return OK;
    }

    /** The account side of accepting an invitation. */
    method ActivateInvited(user: Id) returns (status: int)
      modifies this
      ensures status == Status(old(Snapshot()), idna, Request.AcceptInvitation(user))
      ensures Snapshot() == Apply(old(Snapshot()), idna, Request.AcceptInvitation(user))
    {
      if user !in users || users[user].hasPassword { return 400; }
      users := users[user := users[user].(hasPassword := true)];
      users := users[user := users[user].(active := true)];
      return OK;
    }

    method UpdateUser(actor: Id, user: Id, active: Option<bool>, operator: Option<bool>) returns (status: int)
      modifies this
      ensures status == Status(old(Snapshot()), idna, Request.UpdateUser(actor, user, active, operator))
      ensures Snapshot() == Apply(old(Snapshot()), idna, Request.UpdateUser(actor, user, active, operator))
    {
      if !Signed(Snapshot(), actor) { return UNAUTHENTICATED; }
      if active.None? && operator.None? { return UNPROCESSABLE; }
      if !users[actor].isOperator { return FORBIDDEN; }
      var operators := set u | u in users && users[u].isOperator;
      if user !in users { return NOT_FOUND; }
      var disabling := Sets(active, false) && users[user].active;
      var demoting := Sets(operator, false) && users[user].isOperator;
      var inForce := set u | u in operators && users[u].active;
      assert inForce == ActiveOperators(Snapshot());
      if disabling || demoting {
        if users[user].isOperator {
          if |inForce| <= 1 { return CONFLICT; }
        }
      }
      if disabling {
        if exists d :: d in domains && Live(domains[d]) && domains[d].owner == user { return CONFLICT; }
      }
      var row := users[user];
      if active.Some? {
        row := row.(active := active.value);
      }
      if operator.Some? {
        row := row.(isOperator := operator.value);
      }
      assert row == Updated(users[user], active, operator);
      users := users[user := row];
      return OK;
    }

    method CreateDomain(actor: Id, newId: Id, name: string) returns (status: int)
      modifies this
      ensures status == Status(old(Snapshot()), idna, Request.CreateDomain(actor, newId, name))
      ensures Snapshot() == Apply(old(Snapshot()), idna, Request.CreateDomain(actor, newId, name))
    {
      if !Signed(Snapshot(), actor) { return UNAUTHENTICATED; }
      var normal := NormalizeDomain(idna, name);
      if normal.None? { return UNPROCESSABLE; }
      if exists d :: d in domains && domains[d].activeName == normal { return CONFLICT; }
      domains := domains[newId := Domain(normal.value, normal, actor, AwaitingApproval, None)];
      return OK;
    }

    method SetDomainStatus(actor: Id, domain: Id, to: DomainStatus) returns (status: int)
      modifies this
      ensures status == Status(old(Snapshot()), idna, Request.SetDomainStatus(actor, domain, to))
      ensures Snapshot() == Apply(old(Snapshot()), idna, Request.SetDomainStatus(actor, domain, to))
    {
      if !Signed(Snapshot(), actor) { return UNAUTHENTICATED; }
      if !users[actor].isOperator { return FORBIDDEN; }
      if !LiveDomain(Snapshot(), domain) { return NOT_FOUND; }
      if to == Approved && domains[domain].status == Approved { return CONFLICT; }
      domains := domains[domain := domains[domain].(status := to)];
      return OK;
    }

    method TransferOwner(actor: Id, domain: Id, user: Id) returns (status: int)
      modifies this
      ensures status == Status(old(Snapshot()), idna, Request.TransferOwner(actor, domain, user))
      ensures Snapshot() == Apply(old(Snapshot()), idna, Request.TransferOwner(actor, domain, user))
    {
      status := DomainGate(Snapshot(), actor, domain, true);
      if status != OK { return; }
      status := UserGate(Snapshot(), user);
      if status != OK { return; }
      if user == domains[domain].owner { return CONFLICT; }
      domains := domains[domain := domains[domain].(owner := user)];
      admins := admins - {(domain, user)};
    }

    method AddAdmin(actor: Id, domain: Id, user: Id) returns (status: int)
      modifies this
      ensures status == Status(old(Snapshot()), idna, Request.AddAdmin(actor, domain, user))
      ensures Snapshot() == Apply(old(Snapshot()), idna, Request.AddAdmin(actor, domain, user))
    {
      status := DomainGate(Snapshot(), actor, domain, true);
      if status != OK { return; }
      status := UserGate(Snapshot(), user);
      if status != OK { return; }
      if user == domains[domain].owner { return CONFLICT; }
      if (domain, user) in admins { return CONFLICT; }
      admins := admins + {(domain, user)};
    }

    method RemoveAdmin(actor: Id, domain: Id, user: Id) returns (status: int)
      modifies this
      ensures status == Status(old(Snapshot()), idna, Request.RemoveAdmin(actor, domain, user))
      ensures Snapshot() == Apply(old(Snapshot()), idna, Request.RemoveAdmin(actor, domain, user))
    {
      status := DomainGate(Snapshot(), actor, domain, true);
      if status != OK { return; }
      if (domain, user) !in admins { return NOT_FOUND; }
      admins := admins - {(domain, user)};
    }

    method DeleteDomain(actor: Id, domain: Id, now: int) returns (status: int)
      modifies this
      ensures status == Status(old(Snapshot()), idna, Request.DeleteDomain(actor, domain, now))
      ensures Snapshot() == Apply(old(Snapshot()), idna, Request.DeleteDomain(actor, domain, now))
    {
      status := DomainGate(Snapshot(), actor, domain, true);
      if status != OK { return; }
      domains := domains[domain := domains[domain].(activeName := None)];
      domains := domains[domain := domains[domain].(deletedAt := Some(now))];
    }

    method CreateAddress(actor: Id, domain: Id, newId: Id, raw: string) returns (status: int)
      modifies this
      ensures status == Status(old(Snapshot()), idna, Request.CreateAddress(actor, domain, newId, raw))
      ensures Snapshot() == Apply(old(Snapshot()), idna, Request.CreateAddress(actor, domain, newId, raw))
    {
      status := DomainGate(Snapshot(), actor, domain, false);
      if status != OK { return; }
      var address := AddressIn(idna, raw, domains[domain]);
      if address.None? { return UNPROCESSABLE; }
      if HasAddress(Snapshot(), domain, address.value) { return CONFLICT; }
      addresses := addresses[newId := SenderAddress(domain, address.value)];
    }

    /** Deletes the address with the exact grants and scopes tied to it. */
    method DeleteAddress(actor: Id, domain: Id, addressId: Id) returns (status: int)
      modifies this
      ensures status == Status(old(Snapshot()), idna, Request.DeleteAddress(actor, domain, addressId))
      ensures Snapshot() == Apply(old(Snapshot()), idna, Request.DeleteAddress(actor, domain, addressId))
    {
      status := DomainGate(Snapshot(), actor, domain, false);
      if status != OK { return; }
      if addressId !in addresses || addresses[addressId].domain != domain { return NOT_FOUND; }
      var address := addresses[addressId].address;
      var doomed := set g | g in grants && grants[g].domain == domain && grants[g].address == address;
      grants := grants - doomed;
      scopes := set s | s in scopes && !(s.domain == domain && s.address == address);
      addresses := addresses - {addressId};
    }

    method CreateGrant(actor: Id, domain: Id, newId: Id, user: Id, raw: string) returns (status: int)
      modifies this
      ensures status == Status(old(Snapshot()), idna, Request.CreateGrant(actor, domain, newId, user, raw))
      ensures Snapshot() == Apply(old(Snapshot()), idna, Request.CreateGrant(actor, domain, newId, user, raw))
    {
      status := DomainGate(Snapshot(), actor, domain, false);
      if status != OK { return; }
      status := UserGate(Snapshot(), user);
      if status != OK { return; }
      var address := raw;
      if address != ANY {
        var normal := AddressIn(idna, raw, domains[domain]);
        if normal.None? { return UNPROCESSABLE; }
        address := normal.value;
        if !HasAddress(Snapshot(), domain, address) { return UNPROCESSABLE; }
      }
      if HasGrant(Snapshot(), domain, user, address) { return CONFLICT; }
      grants := grants[newId := SenderGrant(domain, user, address)];
    }

    method DeleteGrant(actor: Id, domain: Id, grantId: Id) returns (status: int)
      modifies this
      ensures status == Status(old(Snapshot()), idna, Request.DeleteGrant(actor, domain, grantId))
      ensures Snapshot() == Apply(old(Snapshot()), idna, Request.DeleteGrant(actor, domain, grantId))
    {
      status := DomainGate(Snapshot(), actor, domain, false);
      if status != OK { return; }
      if grantId !in grants || grants[grantId].domain != domain { return NOT_FOUND; }
      grants := grants - {grantId};
    }

    /** `validated_scopes`: normalizes the requested scopes, refuses repeats, and
        checks each against the user's current grants. */
    method ValidateScopes(user: Id, items: seq<ScopeRequest>) returns (r: Result<seq<(Id, string)>, int>)
      ensures r == ValidatedScopes(Snapshot(), idna, user, items, [])
    {
      var unique: seq<(Id, string)> := [];
      var seen: set<(Id, string)> := {};
      var i := 0;
      while i < |items|
        invariant 0 <= i <= |items|
        invariant forall key :: key in seen <==> key in unique
        invariant ValidatedScopes(Snapshot(), idna, user, items, [])
               == ValidatedScopes(Snapshot(), idna, user, items[i..], unique)
      {
        var item := items[i];
        assert items[i..][0] == item && items[i..][1..] == items[i + 1..];
        ScopesStep(Snapshot(), idna, user, items[i..], unique);
        if !LiveDomain(Snapshot(), item.domain) { return Result.Failure(NOT_FOUND); }
        var address := ScopeAddress(idna, item, domains[item.domain]);
        if address.None? { return Result.Failure(UNPROCESSABLE); }
        var key := (item.domain, address.value);
        if key in seen { return Result.Failure(UNPROCESSABLE); }
        seen := seen + {key};
        var checked := CheckedScope(Snapshot(), idna, user, item);
        if checked.Failure? { return Result.Failure(checked.error); }
        unique := unique + [key];
        i := i + 1;
      }
      return Result.Success(unique);
    }

    method CreateCredential(actor: Id, newId: Id, items: seq<ScopeRequest>, expiresAt: Option<int>, now: int)
      returns (status: int)
      modifies this
      ensures status == Status(old(Snapshot()), idna, Request.CreateCredential(actor, newId, items, expiresAt, now))
      ensures Snapshot() == Apply(old(Snapshot()), idna, Request.CreateCredential(actor, newId, items, expiresAt, now))
    {
      if !Signed(Snapshot(), actor) { return UNAUTHENTICATED; }
      if !(1 <= |items| <= 100) || (expiresAt.Some? && expiresAt.value <= now) { return UNPROCESSABLE; }
      var validated := ValidateScopes(actor, items);
      if validated.Failure? { return validated.error; }
      credentials := credentials[newId := Credential(actor, expiresAt, None)];
      scopes := scopes + ScopeRows(newId, validated.value);
      return OK;
    }

    method UpdateCredentialScopes(actor: Id, credential: Id, items: seq<ScopeRequest>) returns (status: int)
      modifies this
      ensures status == Status(old(Snapshot()), idna, UpdateScopes(actor, credential, items))
      ensures Snapshot() == Apply(old(Snapshot()), idna, UpdateScopes(actor, credential, items))
    {
      if !Signed(Snapshot(), actor) { return UNAUTHENTICATED; }
      if !(1 <= |items| <= 100) { return UNPROCESSABLE; }
      if credential !in credentials || credentials[credential].user != actor { return NOT_FOUND; }
      if credentials[credential].revokedAt.Some? { return CONFLICT; }
      var validated := ValidateScopes(actor, items);
      if validated.Failure? { return validated.error; }
      scopes := set s | s in scopes && s.credential != credential;
      scopes := scopes + ScopeRows(credential, validated.value);
      return OK;
    }

    method RevokeCredential(actor: Id, credential: Id, now: int) returns (status: int)
      modifies this
      ensures status == Status(old(Snapshot()), idna, Request.RevokeCredential(actor, credential, now))
      ensures Snapshot() == Apply(old(Snapshot()), idna, Request.RevokeCredential(actor, credential, now))
    {
      if !Signed(Snapshot(), actor) { return UNAUTHENTICATED; }
      if credential !in credentials || credentials[credential].user != actor { return NOT_FOUND; }
      if credentials[credential].revokedAt.None? {
        credentials := credentials[credential := credentials[credential].(revokedAt := Some(now))];
      }
      return OK;
    }
  }
}

// The two models of the management requests agree: a row-lock transaction that runs alone
// goes through exactly when the atomic request succeeds, and leaves the same rows.

module SerialRuns {

  import opened Names
  import opened Tables
  import opened RowLocks
  import opened LockEffects
  import opened LockRuns
  import opened Wrappers
  import Registry
  import RegistryEffects

  /** The rows both models have; credentials and scopes are not part of the row-lock model. */
  function DbOf(w: World): Registry.Db {
    Registry.Db(w.users, w.domains, w.rights.admins, w.rights.addresses, w.rights.grants, map[], {})
  }

  lemma UpdateIsTheRequest(w: World, idna: Idna, t: TxId, actor: Id, target: Id, active: Option<bool>,
                           operator: Option<bool>, scan: seq<Id>)
    requires Idle(w) && target in w.users && (active.Some? || operator.Some?)
    requires forall u :: u in scan <==> u in w.users && w.users[u].isOperator
    ensures var run, req := Update(t, actor, target, active, operator, scan),
                            Registry.UpdateUser(actor, target, active, operator);
            && (Possible(w, run) <==> Registry.Status(DbOf(w), idna, req) == 200)
            && (Possible(w, run) ==> DbOf(After(w, run)) == Registry.Changed(DbOf(w), idna, req))
  {
    UpdateAlone(w, t, actor, target, active, operator, scan);
    RegistryEffects.UpdatedUser(DbOf(w), idna, actor, target, active, operator);
    assert forall u: Id :: RowLocks.IsActiveOperator(w, u) <==> RegistryEffects.IsActiveOperator(DbOf(w), u);
  }

  lemma RegistrationIsTheRequest(w: World, idna: Idna, t: TxId, actor: Id, raw: string, name: string, newId: Id)
    requires Idle(w) && newId !in w.domains && NormalizeDomain(idna, raw) == Some(name)
    ensures var run, req := Registration(t, actor, name, newId), Registry.CreateDomain(actor, newId, raw);
            && (Possible(w, run) <==> Registry.Status(DbOf(w), idna, req) == 200)
            && (Possible(w, run) ==> DbOf(After(w, run)) == Registry.Changed(DbOf(w), idna, req))
  {
    RegistrationAlone(w, t, actor, name, newId);
  }

  lemma TransferIsTheRequest(w: World, idna: Idna, t: TxId, owner: Id, domain: Id, user: Id)
    requires Idle(w) && user in w.users && owner in w.users && w.users[owner].active
    ensures var run, req := Transfer(t, owner, domain, user), Registry.TransferOwner(owner, domain, user);
            && (Possible(w, run) <==> Registry.Status(DbOf(w), idna, req) == 200)
            && (Possible(w, run) ==> DbOf(After(w, run)) == Registry.Changed(DbOf(w), idna, req))
  {
    TransferAlone(w, t, owner, domain, user);
  }

  lemma AdditionIsTheRequest(w: World, idna: Idna, t: TxId, owner: Id, domain: Id, user: Id)
    requires Idle(w) && user in w.users && owner in w.users && w.users[owner].active
    ensures var run, req := Addition(t, owner, domain, user), Registry.AddAdmin(owner, domain, user);
            && (Possible(w, run) <==> Registry.Status(DbOf(w), idna, req) == 200)
            && (Possible(w, run) ==> DbOf(After(w, run)) == Registry.Changed(DbOf(w), idna, req))
  {
    AdditionAlone(w, t, owner, domain, user);
    RegistryEffects.AddedAdmin(DbOf(w), idna, owner, domain, user);
  }

  /** For a manager of the domain. */
  lemma GrantIsTheRequest(w: World, idna: Idna, t: TxId, actor: Id, domain: Id, user: Id, raw: string, address: string,
                          newId: Id)
    requires Idle(w) && user in w.users && newId !in w.rights.grants
    requires RegistryEffects.IsManager(DbOf(w), actor, domain)
    requires if raw == "*" then address == "*" else
               address != "*" && RegistryEffects.IsAddressOf(idna, raw, w.domains[domain], address)
    ensures var run, req := Grant(t, domain, user, address, newId), Registry.CreateGrant(actor, domain, newId, user, raw);
            && (Possible(w, run) <==> Registry.Status(DbOf(w), idna, req) == 200)
            && (Possible(w, run) ==> DbOf(After(w, run)) == Registry.Changed(DbOf(w), idna, req))
  {
    GrantAlone(w, t, domain, user, address, newId);
    RegistryEffects.AddedGrant(DbOf(w), idna, actor, domain, newId, user, raw, address);
    var req := Registry.CreateGrant(actor, domain, newId, user, raw);
    if Registry.Status(DbOf(w), idna, req) == 200 {
      RegistryEffects.AddedGrantRow(DbOf(w), idna, actor, domain, newId, user, raw, address);
    }
  }

  /** For a manager of the domain. */
  lemma UnregistrationIsTheRequest(w: World, idna: Idna, t: TxId, actor: Id, domain: Id, addressId: Id, address: string)
    requires Idle(w) && RegistryEffects.IsManager(DbOf(w), actor, domain)
    requires addressId in w.rights.addresses ==> w.rights.addresses[addressId].address == address
    ensures var run, req := Unregistration(t, domain, addressId, address), Registry.DeleteAddress(actor, domain, addressId);
            && (Possible(w, run) <==> Registry.Status(DbOf(w), idna, req) == 200)
            && (Possible(w, run) ==> DbOf(After(w, run)) == Registry.Changed(DbOf(w), idna, req))
  {
    UnregistrationAlone(w, t, domain, addressId, address);
    var run, req := Unregistration(t, domain, addressId, address), Registry.DeleteAddress(actor, domain, addressId);
    if Possible(w, run) {
      var one, other := DbOf(After(w, run)), Registry.Changed(DbOf(w), idna, req);
      assert one.grants == other.grants && one.scopes == other.scopes;
    }
  }
}

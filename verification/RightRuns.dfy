// Rights in a domain under interleaving. Adding an admin and granting an address
// decide from rows they read without a lock: exactly when that goes wrong, for one
// commit and for every run.

module RightRuns {

  import opened Tables
  import opened RowLocks
  import opened LockRuns
  import opened Wrappers

  // ---- Owners are not admins of their own domains ---------------------------------------

  predicate OwnerApart(w: World, d: Id) {
    d in w.domains ==> (d, w.domains[d].owner) !in w.rights.admins
  }

  ghost predicate OwnersApart(w: World) {
    forall d :: OwnerApart(w, d)
  }

  ghost predicate AdminsRefer(w: World) {
    forall p :: p in w.rights.admins ==> p.0 in w.domains
  }

  /** An addition that commits while the user does not own the domain. The decision was
      taken on the owner read at the start, before the user's row was locked. */
  predicate AdminTimely(w: World, a: Action) {
    a.Commit? && a.t in w.txs && w.txs[a.t].AddingAdmin? ==>
      w.txs[a.t].domain in w.domains && w.domains[w.txs[a.t].domain].owner != w.txs[a.t].user
  }

  lemma CommitKeepsAdminsRefer(w: World, a: Action)
    requires Can(w, a) && a.Commit? && AdminsRefer(w)
    ensures AdminsRefer(Do(w, a))
  {
  }

  lemma StepKeepsAdminsRefer(w: World, a: Action)
    requires Can(w, a) && AdminsRefer(w)
    ensures AdminsRefer(Do(w, a))
  {
    if a.Commit? {
      CommitKeepsAdminsRefer(w, a);
    }
  }

  lemma CommitKeepsOwnerApart(w: World, a: Action, d: Id)
    requires Can(w, a) && a.Commit? && AdminsRefer(w) && OwnerApart(w, d) && AdminTimely(w, a)
    ensures OwnerApart(Do(w, a), d)
  {
  }

  lemma StepKeepsOwnerApart(w: World, a: Action, d: Id)
    requires Can(w, a) && AdminsRefer(w) && OwnerApart(w, d) && AdminTimely(w, a)
    ensures OwnerApart(Do(w, a), d)
  {
    if a.Commit? {
      CommitKeepsOwnerApart(w, a, d);
    }
  }

  /** Every step but an untimely addition keeps owners and admins apart. */
  lemma StepKeepsOwnersApartIff(w: World, a: Action)
    requires Can(w, a) && AdminsRefer(w) && OwnersApart(w)
    ensures OwnersApart(Do(w, a)) <==> AdminTimely(w, a)
  {
    if AdminTimely(w, a) {
      forall d
        ensures OwnerApart(Do(w, a), d)
      {
        assert OwnerApart(w, d);
        StepKeepsOwnerApart(w, a, d);
      }
    } else {
      assert !OwnerApart(Do(w, a), w.txs[a.t].domain);
    }
  }

  ghost predicate OwnersApartThroughout(w: World, actions: seq<Action>)
    requires Possible(w, actions)
    decreases |actions|
  {
    OwnersApart(w) && (actions != [] ==> OwnersApartThroughout(Do(w, actions[0]), actions[1..]))
  }

  ghost predicate AdminsTimelyThroughout(w: World, actions: seq<Action>)
    requires Possible(w, actions)
    decreases |actions|
  {
    actions != [] ==> AdminTimely(w, actions[0]) && AdminsTimelyThroughout(Do(w, actions[0]), actions[1..])
  }

  /** Under every interleaving of additions, transfers, registrations and the rest, no
      owner is ever an admin of the same domain exactly when every addition commits
      while its user is not the owner. */
  lemma {:induction false} OwnersStayApartIff(w: World, actions: seq<Action>)
    requires AdminsRefer(w) && OwnersApart(w) && Possible(w, actions)
    ensures OwnersApartThroughout(w, actions) <==> AdminsTimelyThroughout(w, actions)
    decreases |actions|
  {
    if actions != [] {
      StepKeepsAdminsRefer(w, actions[0]);
      StepKeepsOwnersApartIff(w, actions[0]);
      if AdminTimely(w, actions[0]) {
        OwnersStayApartIff(Do(w, actions[0]), actions[1..]);
      }
    }
  }

  // ---- Exact grants name registered addresses --------------------------------------------

  predicate GrantRegistered(w: World, g: Id) {
    g in w.rights.grants && w.rights.grants[g].address != ANY ==>
      Registered(w, w.rights.grants[g].domain, w.rights.grants[g].address)
  }

  ghost predicate GrantsRegistered(w: World) {
    forall g :: GrantRegistered(w, g)
  }

  /** Addresses are exact, and none is registered twice in a domain. */
  ghost predicate AddressesSound(w: World) {
    && (forall a :: a in w.rights.addresses ==> w.rights.addresses[a].address != ANY)
    && (forall a, b :: a in w.rights.addresses && b in w.rights.addresses && a != b ==>
          w.rights.addresses[a] != w.rights.addresses[b])
  }

  /** A grant that commits while its address is registered, or a deletion of an address
      that commits when no grant for it was added since its grants were deleted. */
  ghost predicate GrantTimely(w: World, a: Action) {
    a.Commit? && a.t in w.txs ==>
      match w.txs[a.t]
      case Granting(domain, _, address, _, _) => address == ANY || Registered(w, domain, address)
      case Unregistering(domain, _, address, swept) => swept.Some? && GrantsOf(w, domain, address) <= swept.value
      case _ => true
  }

  ghost predicate OnlyLost(w: World, w': World) {
    forall i :: i in w'.rights.addresses ==>
      i in w.rights.addresses && w'.rights.addresses[i] == w.rights.addresses[i]
  }

  lemma CommitOnlyLosesAddresses(w: World, a: Action)
    requires Can(w, a) && a.Commit?
    ensures OnlyLost(w, Do(w, a))
  {
  }

  lemma AddressesOnlyLost(w: World, a: Action)
    requires Can(w, a) && !a.CreateAddress?
    ensures OnlyLost(w, Do(w, a))
  {
    if a.Commit? {
      CommitOnlyLosesAddresses(w, a);
    }
  }

  lemma CreationKeepsAddressesSound(w: World, a: Action)
    requires Can(w, a) && AddressesSound(w) && a.CreateAddress?
    ensures AddressesSound(Do(w, a))
  {
    assert forall i :: i in w.rights.addresses ==> w.rights.addresses[i] != SenderAddress(a.domain, a.address);
  }

  lemma StepKeepsAddressesSound(w: World, a: Action)
    requires Can(w, a) && AddressesSound(w)
    ensures AddressesSound(Do(w, a))
  {
    if a.CreateAddress? {
      CreationKeepsAddressesSound(w, a);
    } else {
      AddressesOnlyLost(w, a);
    }
  }

  /** A registered address stays registered unless it is deleted. */
  lemma AddressStays(w: World, a: Action, domain: Id, address: string)
    requires Can(w, a) && Registered(w, domain, address)
    requires a.Commit? && w.txs[a.t].Unregistering? ==>
               w.txs[a.t].domain != domain || w.txs[a.t].address != address
    ensures Registered(Do(w, a), domain, address)
  {
    var i :| i in w.rights.addresses && w.rights.addresses[i] == SenderAddress(domain, address);
    assert i in Do(w, a).rights.addresses;
  }

  lemma StepKeepsGrantRegistered(w: World, a: Action, g: Id)
    requires Can(w, a) && GrantRegistered(w, g) && GrantTimely(w, a)
    ensures GrantRegistered(Do(w, a), g)
  {
    var w' := Do(w, a);
    if g in w'.rights.grants && w'.rights.grants[g].address != ANY {
      var grant := w'.rights.grants[g];
      if a.Commit? && w.txs[a.t].Unregistering? {
        assert g !in w.txs[a.t].swept.value;
        assert g !in GrantsOf(w, w.txs[a.t].domain, w.txs[a.t].address);
      }
      AddressStays(w, a, grant.domain, grant.address);
    }
  }

  lemma UntimelyGrantIsUnregistered(w: World, a: Action)
    requires Can(w, a) && a.Commit? && w.txs[a.t].Granting? && !GrantTimely(w, a)
    ensures !GrantRegistered(Do(w, a), a.newId)
  {
  }

  lemma UntimelyDeletionLeavesAGrant(w: World, a: Action)
    requires Can(w, a) && a.Commit? && w.txs[a.t].Unregistering? && !GrantTimely(w, a) && AddressesSound(w)
    ensures exists g :: !GrantRegistered(Do(w, a), g)
  {
    var tx := w.txs[a.t];
    var g :| g in GrantsOf(w, tx.domain, tx.address) && g !in tx.swept.value;
    assert w.rights.addresses[tx.addressId] == SenderAddress(tx.domain, tx.address);
    assert !GrantRegistered(Do(w, a), g);
  }

  /** Every step but an untimely grant or deletion keeps exact grants registered. */
  lemma StepKeepsGrantsRegisteredIff(w: World, a: Action)
    requires Can(w, a) && AddressesSound(w) && GrantsRegistered(w)
    ensures GrantsRegistered(Do(w, a)) <==> GrantTimely(w, a)
  {
    if GrantTimely(w, a) {
      forall g
        ensures GrantRegistered(Do(w, a), g)
      {
        assert GrantRegistered(w, g);
        StepKeepsGrantRegistered(w, a, g);
      }
    } else if w.txs[a.t].Granting? {
      UntimelyGrantIsUnregistered(w, a);
    } else {
      UntimelyDeletionLeavesAGrant(w, a);
    }
  }

  ghost predicate GrantsRegisteredThroughout(w: World, actions: seq<Action>)
    requires Possible(w, actions)
    decreases |actions|
  {
    GrantsRegistered(w) && (actions != [] ==> GrantsRegisteredThroughout(Do(w, actions[0]), actions[1..]))
  }

  ghost predicate GrantsTimelyThroughout(w: World, actions: seq<Action>)
    requires Possible(w, actions)
    decreases |actions|
  {
    actions != [] ==> GrantTimely(w, actions[0]) && GrantsTimelyThroughout(Do(w, actions[0]), actions[1..])
  }

  /** Under every interleaving of grants and address deletions with the rest, every
      exact grant names a registered address throughout exactly when each grant commits
      while its address is registered and no grant slips between the two deletes of an
      address deletion. */
  lemma {:induction false} GrantsStayRegisteredIff(w: World, actions: seq<Action>)
    requires AddressesSound(w) && GrantsRegistered(w) && Possible(w, actions)
    ensures GrantsRegisteredThroughout(w, actions) <==> GrantsTimelyThroughout(w, actions)
    decreases |actions|
  {
    if actions != [] {
      StepKeepsAddressesSound(w, actions[0]);
      StepKeepsGrantsRegisteredIff(w, actions[0]);
      if GrantTimely(w, actions[0]) {
        GrantsStayRegisteredIff(Do(w, actions[0]), actions[1..]);
      }
    }
  }

  // ---- A transfer that overlaps an addition ------------------------------------------------

  const DOMAIN := Domain("example.org", Some("example.org"), 0, Approved, None)

  const ADDRESS := "a@example.org"

  /** A domain of the operator's with one address, a member, and nothing in flight. */
  const OWNED := BEFORE.(domains := map[0 := DOMAIN], rights := NO_RIGHTS.(addresses := map[0 := SenderAddress(0, ADDRESS)]))

  function Adding(account: Option<User>): Tx {
    AddingAdmin(0, 0, 1, account)
  }

  function Handing(account: Option<User>, seen: Option<Domain>): Tx {
    Transferring(0, 0, 1, account, seen)
  }

  const LATE_ADMIN := [
    Begin(0, Adding(None)), Begin(1, Handing(None, None)), ReadAccount(1), ReadDomain(1), Commit(1, 0, 0, 0, 0),
    ReadAccount(0), Commit(0, 0, 0, 0, 0)]

  /** The state of that run before its step `k`. */
  function LateAdminWorld(k: nat): World {
    var handed := OWNED.(domains := map[0 := DOMAIN.(owner := 1)]);
    match k
    case 0 => OWNED
    case 1 => OWNED.(txs := map[0 := Adding(None)])
    case 2 => OWNED.(txs := map[0 := Adding(None), 1 := Handing(None, None)])
    case 3 => OWNED.(txs := map[0 := Adding(None), 1 := Handing(Some(MEMBER), None)], locks := map[UserRow(1) := 1])
    case 4 => OWNED.(txs := map[0 := Adding(None), 1 := Handing(Some(MEMBER), Some(DOMAIN))],
                     locks := map[UserRow(1) := 1, DomainRow(0) := 1])
    case 5 => handed.(txs := map[0 := Adding(None)])
    case 6 => handed.(txs := map[0 := Adding(Some(MEMBER))], locks := map[UserRow(1) := 0])
    case _ => handed.(rights := handed.rights.(admins := {(0, 1)}))
  }

  lemma TransferCommits()
    ensures Can(LateAdminWorld(4), LATE_ADMIN[4]) && Do(LateAdminWorld(4), LATE_ADMIN[4]) == LateAdminWorld(5)
  {
    var w := LateAdminWorld(4);
    assert Deleted(w, w.txs[1]) == {} && w.invitations - {} == map[];
    var committed := Committed(w, 1, w.txs[1], 0, 0, 0, 0);
    assert committed.domains == LateAdminWorld(5).domains && committed.rights == LateAdminWorld(5).rights;
    assert Ended(committed, 1).txs == LateAdminWorld(5).txs;
    assert Ended(committed, 1).locks == map[];
  }

  lemma AdditionCommits()
    ensures Can(LateAdminWorld(6), LATE_ADMIN[6]) && Do(LateAdminWorld(6), LATE_ADMIN[6]) == LateAdminWorld(7)
  {
    var w := LateAdminWorld(6);
    assert Deleted(w, w.txs[0]) == {};
    var committed := Committed(w, 0, w.txs[0], 0, 0, 0, 0);
    assert committed.rights == LateAdminWorld(7).rights;
    assert Ended(committed, 0).txs == map[];
    assert Ended(committed, 0).locks == map[];
  }

  lemma LateAdminBegins(k: nat)
    requires k < 3
    ensures Can(LateAdminWorld(k), LATE_ADMIN[k]) && Do(LateAdminWorld(k), LATE_ADMIN[k]) == LateAdminWorld(k + 1)
  {
  }

  lemma LateAdminStep(k: nat)
    requires k < 7
    ensures Can(LateAdminWorld(k), LATE_ADMIN[k]) && Do(LateAdminWorld(k), LATE_ADMIN[k]) == LateAdminWorld(k + 1)
  {
    if k < 3 {
      LateAdminBegins(k);
    } else if k == 4 {
      TransferCommits();
    } else if k == 6 {
      AdditionCommits();
    }
  }

  lemma {:induction false} LateAdminFrom(k: nat)
    requires k <= 7
    ensures Possible(LateAdminWorld(k), LATE_ADMIN[k..])
    ensures After(LateAdminWorld(k), LATE_ADMIN[k..]) == LateAdminWorld(7)
    decreases 7 - k
  {
    if k < 7 {
      LateAdminStep(k);
      LateAdminFrom(k + 1);
      assert LATE_ADMIN[k..][0] == LATE_ADMIN[k] && LATE_ADMIN[k..][1..] == LATE_ADMIN[k + 1..];
    }
  }

  /** A transfer commits between an addition's read of the owner and its lock on the
      user: the new owner ends up an admin of the same domain. */
  lemma OverlappingAdditionMakesTheOwnerAnAdmin()
    ensures Quiet(OWNED) && AdminsRefer(OWNED) && OwnersApart(OWNED) && Possible(OWNED, LATE_ADMIN)
    ensures var v := After(OWNED, LATE_ADMIN);
            v.txs == map[] && 0 in v.domains && v.domains[0].owner == 1 && (0, 1) in v.rights.admins
  {
    assert IsActiveOperator(OWNED, 0);
    assert LATE_ADMIN[0..] == LATE_ADMIN;
    LateAdminFrom(0);
  }

  // ---- A deletion that overlaps a grant --------------------------------------------------------

  function Giving(account: Option<User>, checked: bool): Tx {
    Granting(0, 1, ADDRESS, account, checked)
  }

  function Dropping(swept: Option<set<Id>>): Tx {
    Unregistering(0, 0, ADDRESS, swept)
  }

  const LATE_GRANT := [
    Begin(0, Giving(None, false)), Begin(1, Dropping(None)), ReadAccount(0), CheckAddress(0), SweepGrants(1),
    Commit(1, 0, 0, 0, 0), Commit(0, 0, 0, 0, 0)]

  /** The state of that run before its step `k`. */
  function LateGrantWorld(k: nat): World {
    var reading := OWNED.(locks := map[UserRow(1) := 0]);
    match k
    case 0 => OWNED
    case 1 => OWNED.(txs := map[0 := Giving(None, false)])
    case 2 => OWNED.(txs := map[0 := Giving(None, false), 1 := Dropping(None)])
    case 3 => reading.(txs := map[0 := Giving(Some(MEMBER), false), 1 := Dropping(None)])
    case 4 => reading.(txs := map[0 := Giving(Some(MEMBER), true), 1 := Dropping(None)])
    case 5 => reading.(txs := map[0 := Giving(Some(MEMBER), true), 1 := Dropping(Some({}))])
    case 6 => reading.(txs := map[0 := Giving(Some(MEMBER), true)], rights := NO_RIGHTS)
    case _ => OWNED.(rights := NO_RIGHTS.(grants := map[0 := SenderGrant(0, 1, ADDRESS)]))
  }

  lemma AddressIsChecked()
    ensures Can(LateGrantWorld(3), LATE_GRANT[3]) && Do(LateGrantWorld(3), LATE_GRANT[3]) == LateGrantWorld(4)
  {
    assert LateGrantWorld(3).rights.addresses[0] == SenderAddress(0, ADDRESS);
    assert Registered(LateGrantWorld(3), 0, ADDRESS);
  }

  lemma NoGrantsYet(w: World)
    requires w.rights.grants.Keys == {}
    ensures GrantsOf(w, 0, ADDRESS) == {}
  {
  }

  lemma GrantsAreSwept()
    ensures Can(LateGrantWorld(4), LATE_GRANT[4]) && Do(LateGrantWorld(4), LATE_GRANT[4]) == LateGrantWorld(5)
  {
    NoGrantsYet(LateGrantWorld(4));
  }

  lemma DeletionCommits()
    ensures Can(LateGrantWorld(5), LATE_GRANT[5]) && Do(LateGrantWorld(5), LATE_GRANT[5]) == LateGrantWorld(6)
  {
    var w := LateGrantWorld(5);
    assert Deleted(w, w.txs[1]) == {};
    var committed := Committed(w, 1, w.txs[1], 0, 0, 0, 0);
    assert committed.rights == NO_RIGHTS;
    assert Ended(committed, 1).txs == LateGrantWorld(6).txs;
    assert Ended(committed, 1).locks == LateGrantWorld(6).locks;
  }

  lemma GrantCommits()
    ensures Can(LateGrantWorld(6), LATE_GRANT[6]) && Do(LateGrantWorld(6), LATE_GRANT[6]) == LateGrantWorld(7)
  {
    var w := LateGrantWorld(6);
    assert Deleted(w, w.txs[0]) == {};
    var committed := Committed(w, 0, w.txs[0], 0, 0, 0, 0);
    assert committed.rights == LateGrantWorld(7).rights;
    assert Ended(committed, 0).txs == map[];
    assert Ended(committed, 0).locks == map[];
  }

  lemma LateGrantStep(k: nat)
    requires k < 7
    ensures Can(LateGrantWorld(k), LATE_GRANT[k]) && Do(LateGrantWorld(k), LATE_GRANT[k]) == LateGrantWorld(k + 1)
  {
    match k
    case 3 => AddressIsChecked();
    case 4 => GrantsAreSwept();
    case 5 => DeletionCommits();
    case 6 => GrantCommits();
    case _ =>
  }

  lemma {:induction false} LateGrantFrom(k: nat)
    requires k <= 7
    ensures Possible(LateGrantWorld(k), LATE_GRANT[k..])
    ensures After(LateGrantWorld(k), LATE_GRANT[k..]) == LateGrantWorld(7)
    decreases 7 - k
  {
    if k < 7 {
      LateGrantStep(k);
      LateGrantFrom(k + 1);
      assert LATE_GRANT[k..][0] == LATE_GRANT[k] && LATE_GRANT[k..][1..] == LATE_GRANT[k + 1..];
    }
  }

  /** A deletion commits between a grant's check of the address and its insert: an
      exact grant for an address that is not registered is left. */
  lemma OverlappingDeletionLeavesAGrant()
    ensures Quiet(OWNED) && AddressesSound(OWNED) && GrantsRegistered(OWNED) && Possible(OWNED, LATE_GRANT)
    ensures var v := After(OWNED, LATE_GRANT);
            && v.txs == map[]
            && 0 in v.rights.grants && v.rights.grants[0] == SenderGrant(0, 1, ADDRESS)
            && !Registered(v, 0, ADDRESS)
  {
    assert IsActiveOperator(OWNED, 0);
    assert LATE_GRANT[0..] == LATE_GRANT;
    LateGrantFrom(0);
  }
}

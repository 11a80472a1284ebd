// Account and invitation transactions under interleaving. Each one is split at
// its locking reads (`FOR UPDATE`): it takes a row's lock, sees the committed row,
// and keeps the lock until it commits or aborts. Transactions decide and write
// from the rows they read, so the locks are what makes their decisions hold.

module RowLocks {

  import opened Tables
  import opened Wrappers

  type TxId = nat

  datatype Row = UserRow(id: Id) | DomainRow(id: Id) | InvitationRow(id: Id)

  /** How far `update_user` has come. */
  datatype Phase = Scanning | ActorRead | TargetRead | Ready

  /** A transaction in flight, with the rows it has read under lock. */
  datatype Tx =
    | Updating(actor: Id, target: Id, active: Option<bool>, operator: Option<bool>,
               operators: map<Id, User>, seen: Option<User>, phase: Phase)
    | Transferring(owner: Id, domain: Id, user: Id, account: Option<User>, seenDomain: Option<Domain>)
    | Accepting(token: nat, invitation: Id, user: Id, account: Option<User>, found: Option<Invitation>)
    | Reissuing(invitation: Id, user: Id, account: Option<User>, found: Option<Invitation>)
    | Revoking(invitation: Id, found: Option<Invitation>)
    | Registering(actor: Id, name: string)   // reads no row under lock
    | AddingAdmin(owner: Id, domain: Id, user: Id, account: Option<User>)   // `owner` as read at the start
    | Granting(domain: Id, user: Id, address: string, account: Option<User>, checked: bool)
    | Unregistering(domain: Id, addressId: Id, address: string, swept: Option<set<Id>>)

  /** What committed transactions did, in commit order. */
  datatype Fact =
    | AcceptedBy(invitation: Id, user: Id)
    | Disabled(user: Id, existing: set<Id>)   // the user's invitations when the disable committed

  /** The rows that give rights in a domain. */
  datatype Rights = Rights(
    admins: set<(Id, Id)>,          // (domain, user)
    addresses: map<Id, SenderAddress>,
    grants: map<Id, SenderGrant>)

  datatype World = World(
    users: map<Id, User>,
    domains: map<Id, Domain>,
    invitations: map<Id, Invitation>,
    rights: Rights,
    issued: set<Id>,                // every invitation id ever drawn
    txs: map<TxId, Tx>,
    locks: map<Row, TxId>,
    log: seq<Fact>)

  datatype Action =
    | Begin(t: TxId, tx: Tx)
    | ReadOperator(t: TxId, user: Id)
    | ReadActor(t: TxId)
    | ReadTarget(t: TxId)
    | CheckDomains(t: TxId)
    | ReadAccount(t: TxId)
    | ReadDomain(t: TxId)
    | ReadInvitation(t: TxId, now: int)
    | CheckAddress(t: TxId)
    | SweepGrants(t: TxId)
    | Commit(t: TxId, now: int, newId: Id, token: nat, expiresAt: int)
    | Abort(t: TxId)
    // Transactions with a single write, taken whole.
    | CreateUser(user: Id, newId: Id, token: nat, expiresAt: int)
    | DeleteDomain(domain: Id, now: int)
    | PurgeInvitations(now: int)
    | RemoveAdmin(domain: Id, user: Id)
    | CreateAddress(domain: Id, newId: Id, address: string)
    | DeleteGrant(grant: Id)

  // ---- Locks -------------------------------------------------------------------------

  predicate Free(w: World, row: Row, t: TxId) {
    row in w.locks ==> w.locks[row] == t
  }

  predicate Unlocked(w: World, row: Row) {
    row !in w.locks
  }

  predicate Holds(w: World, row: Row, t: TxId) {
    row in w.locks && w.locks[row] == t
  }

  function Locked(w: World, row: Row, t: TxId, tx: Tx): World {
    w.(locks := w.locks[row := t], txs := w.txs[t := tx])
  }

  /** Commit and abort end a transaction and free its rows. */
  function Ended(w: World, t: TxId): World {
    w.(txs := w.txs - {t}, locks := map row | row in w.locks && w.locks[row] != t :: w.locks[row])
  }

  // ---- The decisions of each transaction ------------------------------------------------

  predicate Disabling(tx: Tx)
    requires tx.Updating? && tx.seen.Some?
  {
    Sets(tx.active, false) && tx.seen.value.active
  }

  predicate Demoting(tx: Tx)
    requires tx.Updating? && tx.seen.Some?
  {
    Sets(tx.operator, false) && tx.seen.value.isOperator
  }

  function InForce(operators: map<Id, User>): set<Id> {
    set u | u in operators && operators[u].active
  }

  /** The last active operator among the locked rows is neither demoted nor disabled. */
  predicate LeavesAnOperator(tx: Tx)
    requires tx.Updating? && tx.seen.Some?
  {
    (Disabling(tx) || Demoting(tx)) && tx.seen.value.isOperator ==> |InForce(tx.operators)| > 1
  }

  ghost predicate OwnsNothing(w: World, user: Id) {
    forall d :: d in w.domains && Live(w.domains[d]) ==> w.domains[d].owner != user
  }

  predicate Registered(w: World, domain: Id, address: string) {
    exists a :: a in w.rights.addresses && w.rights.addresses[a] == SenderAddress(domain, address)
  }

  function GrantsOf(w: World, domain: Id, address: string): set<Id> {
    set g | g in w.rights.grants && w.rights.grants[g].domain == domain && w.rights.grants[g].address == address
  }

  predicate NameFree(w: World, name: string) {
    forall d :: d in w.domains ==> w.domains[d].activeName != Some(name)
  }

  predicate Opening(w: World, tx: Tx) {
    match tx
    case Updating(_, _, _, _, operators, seen, phase) => operators == map[] && seen.None? && phase.Scanning?
    case Transferring(owner, domain, _, account, seenDomain) =>
      account.None? && seenDomain.None? && domain in w.domains && w.domains[domain].owner == owner
    case Accepting(token, invitation, user, account, found) =>
      account.None? && found.None? && invitation in w.invitations
      && w.invitations[invitation].token == token && w.invitations[invitation].user == user
    case Reissuing(invitation, user, account, found) =>
      account.None? && found.None? && invitation in w.invitations && w.invitations[invitation].user == user
    case Revoking(_, found) => found.None?
    case Registering(actor, name) => actor in w.users && w.users[actor].active && NameFree(w, name)
    case AddingAdmin(owner, domain, _, account) =>
      account.None? && domain in w.domains && Live(w.domains[domain]) && w.domains[domain].owner == owner
    case Granting(domain, _, _, account, checked) =>
      account.None? && !checked && domain in w.domains && Live(w.domains[domain])
    case Unregistering(domain, addressId, address, swept) =>
      swept.None? && domain in w.domains && Live(w.domains[domain])
      && addressId in w.rights.addresses && w.rights.addresses[addressId] == SenderAddress(domain, address)
  }

  /** The invitation rows a commit deletes. */
  function Deleted(w: World, tx: Tx): set<Id> {
    match tx
    case Updating(_, target, active, _, _, _, _) =>
      if Sets(active, false)
      then set i | i in w.invitations && w.invitations[i].user == target && w.invitations[i].usedAt.None?
      else {}
    case Reissuing(_, user, _, _) => set i | i in w.invitations && w.invitations[i].user == user
    case _ => {}
  }

  predicate MayCommit(w: World, t: TxId, tx: Tx, newId: Id) {
    && (forall i :: i in Deleted(w, tx) ==> Free(w, InvitationRow(i), t))
    && match tx
       case Updating(_, target, _, _, _, _, phase) => phase.Ready? && target in w.users
       case Transferring(_, domain, _, _, seenDomain) => seenDomain.Some? && domain in w.domains
       case Accepting(_, invitation, user, _, found) =>
         found.Some? && user in w.users && invitation in w.invitations
       case Reissuing(_, _, _, found) => found.Some? && newId !in w.issued
       case Revoking(invitation, found) => found.Some? && invitation in w.invitations
       case Registering(actor, name) =>
         // The unique key refuses a name taken meanwhile, and the insert waits for
         // the row its foreign key names, whatever that row says by then.
         newId !in w.domains && NameFree(w, name) && actor in w.users && Free(w, UserRow(actor), t)
       case AddingAdmin(owner, domain, user, account) =>
         account.Some? && user != owner && (domain, user) !in w.rights.admins
         && domain in w.domains && Free(w, DomainRow(domain), t)
       case Granting(domain, user, address, _, checked) =>
         checked && newId !in w.rights.grants && domain in w.domains && Free(w, DomainRow(domain), t)
         && forall g :: g in w.rights.grants ==> w.rights.grants[g] != SenderGrant(domain, user, address)
       case Unregistering(domain, addressId, address, swept) =>
         swept.Some? && addressId in w.rights.addresses
         && w.rights.addresses[addressId] == SenderAddress(domain, address)
  }

  /** The tables after a commit; only changed columns are written. */
  function Committed(w: World, t: TxId, tx: Tx, now: int, newId: Id, token: nat, expiresAt: int): World
    requires MayCommit(w, t, tx, newId)
  {
    var kept := w.invitations - Deleted(w, tx);
    match tx
    case Updating(_, target, active, operator, _, _, _) =>
      w.(users := w.users[target := Updated(w.users[target], active, operator)],
         invitations := kept,
         log := if Sets(active, false)
                then w.log + [Disabled(target, set i | i in w.invitations && w.invitations[i].user == target)]
                else w.log)
    case Transferring(_, domain, user, _, _) =>
      w.(domains := w.domains[domain := w.domains[domain].(owner := user)],
         rights := w.rights.(admins := w.rights.admins - {(domain, user)}))
    case Accepting(_, invitation, user, _, _) =>
      w.(users := w.users[user := w.users[user].(hasPassword := true, active := true)],
         invitations := w.invitations[invitation := w.invitations[invitation].(usedAt := Some(now))],
         log := w.log + [AcceptedBy(invitation, user)])
    case Reissuing(_, user, _, _) =>
      w.(invitations := kept[newId := Invitation(user, token, expiresAt, None)], issued := w.issued + {newId})
    case Revoking(invitation, _) =>
      w.(invitations := w.invitations[invitation := w.invitations[invitation].(expiresAt := now)])
    case Registering(actor, name) =>
      w.(domains := w.domains[newId := Domain(name, Some(name), actor, AwaitingApproval, None)])
    case AddingAdmin(_, domain, user, _) =>
      w.(rights := w.rights.(admins := w.rights.admins + {(domain, user)}))
    case Granting(domain, user, address, _, _) =>
      w.(rights := w.rights.(grants := w.rights.grants[newId := SenderGrant(domain, user, address)]))
    case Unregistering(_, addressId, _, swept) =>
      w.(rights := w.rights.(grants := w.rights.grants - swept.value,
                             addresses := w.rights.addresses - {addressId}))
  }

  predicate ReadsAccount(tx: Tx) {
    tx.Transferring? || tx.Accepting? || tx.Reissuing? || tx.AddingAdmin? || tx.Granting?
  }

  // ---- Steps ---------------------------------------------------------------------------------

  ghost predicate Can(w: World, a: Action) {
    match a
    case Begin(t, tx) => t !in w.txs && Opening(w, tx)
    case ReadOperator(t, u) =>
      && t in w.txs && w.txs[t].Updating? && w.txs[t].phase.Scanning?
      && u in w.users && w.users[u].isOperator && Free(w, UserRow(u), t)
    case ReadActor(t) =>
      && t in w.txs && w.txs[t].Updating? && w.txs[t].phase.Scanning?
      && w.txs[t].actor in w.users && Free(w, UserRow(w.txs[t].actor), t)
      && w.users[w.txs[t].actor].active && w.users[w.txs[t].actor].isOperator
    case ReadTarget(t) =>
      && t in w.txs && w.txs[t].Updating? && w.txs[t].phase.ActorRead?
      && w.txs[t].target in w.users && Free(w, UserRow(w.txs[t].target), t)
      && LeavesAnOperator(w.txs[t].(seen := Some(w.users[w.txs[t].target])))
    case CheckDomains(t) =>
      && t in w.txs && w.txs[t].Updating? && w.txs[t].phase.TargetRead? && w.txs[t].seen.Some?
      && (Disabling(w.txs[t]) ==> OwnsNothing(w, w.txs[t].target))
    case ReadAccount(t) =>
      && t in w.txs && ReadsAccount(w.txs[t])
      && w.txs[t].account.None? && w.txs[t].user in w.users && Free(w, UserRow(w.txs[t].user), t)
      && (!w.txs[t].Accepting? && !w.txs[t].Reissuing? ==> w.users[w.txs[t].user].active && w.users[w.txs[t].user].hasPassword)
    case ReadDomain(t) =>
      && t in w.txs && w.txs[t].Transferring? && w.txs[t].account.Some?
      && w.txs[t].domain in w.domains && Free(w, DomainRow(w.txs[t].domain), t)
      && Live(w.domains[w.txs[t].domain])
      && w.domains[w.txs[t].domain].owner == w.txs[t].owner != w.txs[t].user
    case ReadInvitation(t, now) =>
      && t in w.txs && (w.txs[t].Accepting? || w.txs[t].Reissuing? || w.txs[t].Revoking?)
      && w.txs[t].invitation in w.invitations && Free(w, InvitationRow(w.txs[t].invitation), t)
      && (!w.txs[t].Revoking? ==> w.txs[t].account.Some? && !w.txs[t].account.value.hasPassword)
      && (!w.txs[t].Reissuing? ==> w.invitations[w.txs[t].invitation].usedAt.None?)
      && (w.txs[t].Accepting? ==>
            && w.invitations[w.txs[t].invitation].token == w.txs[t].token
            && w.invitations[w.txs[t].invitation].expiresAt > now)
    case CheckAddress(t) =>
      && t in w.txs && w.txs[t].Granting? && w.txs[t].account.Some? && !w.txs[t].checked
      && (w.txs[t].address == ANY || Registered(w, w.txs[t].domain, w.txs[t].address))
    case SweepGrants(t) => t in w.txs && w.txs[t].Unregistering? && w.txs[t].swept.None?
    case Commit(t, _, newId, _, _) => t in w.txs && MayCommit(w, t, w.txs[t], newId)
    case Abort(t) => t in w.txs
    case CreateUser(user, newId, _, _) => user !in w.users && newId !in w.issued
    case DeleteDomain(domain, _) => domain in w.domains && Live(w.domains[domain]) && Unlocked(w, DomainRow(domain))
    case PurgeInvitations(now) =>
      forall i :: i in w.invitations && w.invitations[i].expiresAt <= now ==> Unlocked(w, InvitationRow(i))
    case RemoveAdmin(_, _) => true
    case CreateAddress(domain, newId, address) =>
      domain in w.domains && newId !in w.rights.addresses && address != ANY && !Registered(w, domain, address)
    case DeleteGrant(_) => true
  }

  ghost function Do(w: World, a: Action): World
    requires Can(w, a)
  {
    match a
    case Begin(t, tx) => w.(txs := w.txs[t := tx])
    case ReadOperator(t, u) =>
      Locked(w, UserRow(u), t, w.txs[t].(operators := w.txs[t].operators[u := w.users[u]]))
    case ReadActor(t) => Locked(w, UserRow(w.txs[t].actor), t, w.txs[t].(phase := ActorRead))
    case ReadTarget(t) =>
      Locked(w, UserRow(w.txs[t].target), t, w.txs[t].(seen := Some(w.users[w.txs[t].target]), phase := TargetRead))
    case CheckDomains(t) => w.(txs := w.txs[t := w.txs[t].(phase := Ready)])
    case ReadAccount(t) =>
      Locked(w, UserRow(w.txs[t].user), t, w.txs[t].(account := Some(w.users[w.txs[t].user])))
    case ReadDomain(t) =>
      Locked(w, DomainRow(w.txs[t].domain), t, w.txs[t].(seenDomain := Some(w.domains[w.txs[t].domain])))
    case ReadInvitation(t, _) =>
      Locked(w, InvitationRow(w.txs[t].invitation), t, w.txs[t].(found := Some(w.invitations[w.txs[t].invitation])))
    case CheckAddress(t) => w.(txs := w.txs[t := w.txs[t].(checked := true)])
    case SweepGrants(t) =>
      w.(txs := w.txs[t := w.txs[t].(swept := Some(GrantsOf(w, w.txs[t].domain, w.txs[t].address)))])
    case Commit(t, now, newId, token, expiresAt) =>
      Ended(Committed(w, t, w.txs[t], now, newId, token, expiresAt), t)
    case Abort(t) => Ended(w, t)
    case CreateUser(user, newId, token, expiresAt) =>
      w.(users := w.users[user := User(false, false, false)],
         invitations := w.invitations[newId := Invitation(user, token, expiresAt, None)],
         issued := w.issued + {newId})
    case DeleteDomain(domain, now) =>
      w.(domains := w.domains[domain := w.domains[domain].(activeName := None, deletedAt := Some(now))])
    case PurgeInvitations(now) =>
      w.(invitations := map i | i in w.invitations && w.invitations[i].expiresAt > now :: w.invitations[i])
    case RemoveAdmin(domain, user) => w.(rights := w.rights.(admins := w.rights.admins - {(domain, user)}))
    case CreateAddress(domain, newId, address) =>
      w.(rights := w.rights.(addresses := w.rights.addresses[newId := SenderAddress(domain, address)]))
    case DeleteGrant(grant) => w.(rights := w.rights.(grants := w.rights.grants - {grant}))
  }

  // ---- The invariant ----------------------------------------------------------------------------

  /** A row read under lock is still locked and still what was read. */
  predicate UserKept(w: World, t: TxId, u: Id, row: User) {
    Holds(w, UserRow(u), t) && u in w.users && w.users[u] == row
  }

  predicate InvitationKept(w: World, t: TxId, i: Id, row: Invitation) {
    Holds(w, InvitationRow(i), t) && i in w.invitations && w.invitations[i] == row
  }

  /** An invitation id keeps naming the same user's invitation for as long as it exists. */
  predicate Names(w: World, invitation: Id, user: Id) {
    invitation in w.issued && (invitation in w.invitations ==> w.invitations[invitation].user == user)
  }

  ghost predicate TxSound(w: World, t: TxId) {
    t in w.txs ==>
      match w.txs[t]
      case Updating(_, target, _, _, operators, seen, phase) =>
        && (forall u :: u in operators ==> UserKept(w, t, u, operators[u]) && operators[u].isOperator)
        && (seen.Some? ==> UserKept(w, t, target, seen.value))
        && (phase.TargetRead? || phase.Ready? ==> seen.Some? && LeavesAnOperator(w.txs[t]))
        && (phase.Ready? && Disabling(w.txs[t]) ==> OwnsNothing(w, target))
      case Transferring(_, domain, user, account, seenDomain) =>
        && (account.Some? ==> UserKept(w, t, user, account.value) && account.value.active)
        && (seenDomain.Some? ==>
              && account.Some? && Live(seenDomain.value)
              && Holds(w, DomainRow(domain), t) && domain in w.domains && w.domains[domain] == seenDomain.value)
      case Accepting(_, invitation, user, account, found) =>
        && Names(w, invitation, user)
        && (account.Some? ==> UserKept(w, t, user, account.value))
        && (found.Some? ==>
              && account.Some? && !account.value.hasPassword && found.value.usedAt.None?
              && InvitationKept(w, t, invitation, found.value))
      case Reissuing(invitation, user, account, found) =>
        && Names(w, invitation, user)
        && (account.Some? ==> UserKept(w, t, user, account.value))
        && (found.Some? ==> account.Some? && InvitationKept(w, t, invitation, found.value))
      case Revoking(invitation, found) =>
        found.Some? ==> InvitationKept(w, t, invitation, found.value) && found.value.usedAt.None?
      case Registering(actor, _) => actor in w.users
      case AddingAdmin(_, _, user, account) => account.Some? ==> UserKept(w, t, user, account.value)
      case Granting(_, user, _, account, _) => account.Some? ==> UserKept(w, t, user, account.value)
      case Unregistering(_, _, _, _) => true
  }

  predicate IsActiveOperator(w: World, u: Id) {
    u in w.users && w.users[u].active && w.users[u].isOperator
  }

  predicate OwnerActive(w: World, d: Id) {
    d in w.domains && Live(w.domains[d]) ==>
      w.domains[d].owner in w.users && w.users[w.domains[d].owner].active
  }

  /** A user has at most one invitation row. */
  predicate OneInvitation(w: World, i: Id, j: Id) {
    i in w.invitations && j in w.invitations && w.invitations[i].user == w.invitations[j].user ==> i == j
  }

  predicate InvitationRefers(w: World, i: Id) {
    i in w.invitations ==> i in w.issued && w.invitations[i].user in w.users
  }

  /** Used up or gone: it cannot be accepted any more. */
  predicate Dead(w: World, i: Id) {
    i in w.issued && (i in w.invitations ==> w.invitations[i].usedAt.Some?)
  }

  /** What a logged fact leaves behind for good. */
  ghost predicate FactHolds(w: World, fact: Fact) {
    match fact
    case AcceptedBy(i, u) => Dead(w, i) && u in w.users && w.users[u].hasPassword
    case Disabled(_, existing) => forall i :: i in existing ==> Dead(w, i)
  }

  /** Two facts in commit order: no invitation and no user is accepted twice, and
      nothing that existed at a disable is accepted after it. */
  predicate FactsAgree(earlier: Fact, later: Fact) {
    && (earlier.AcceptedBy? && later.AcceptedBy? ==>
          earlier.invitation != later.invitation && earlier.user != later.user)
    && (earlier.Disabled? && later.AcceptedBy? ==> later.invitation !in earlier.existing)
  }

  ghost predicate Orderly(log: seq<Fact>) {
    forall a, b :: 0 <= a < b < |log| ==> FactsAgree(log[a], log[b])
  }

  ghost predicate Sound(w: World) {
    && (forall t :: TxSound(w, t))
    && (exists u :: IsActiveOperator(w, u))
    && (forall i, j :: OneInvitation(w, i, j))
    && (forall i :: InvitationRefers(w, i))
    && (forall k :: 0 <= k < |w.log| ==> FactHolds(w, w.log[k]))
    && Orderly(w.log)
  }
}

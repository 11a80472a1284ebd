// What each row-lock transaction needs and does when nothing else is going on: the
// handlers as they run in one piece.

module LockEffects {

  import opened Tables
  import opened RowLocks
  import opened LockRuns
  import opened SetFacts
  import opened Wrappers

  /** Nothing in flight. */
  predicate Idle(w: World) {
    w.txs == map[] && w.locks == map[]
  }

  /** One transaction in flight, holding these rows. */
  function Running(w: World, t: TxId, tx: Tx, rows: set<Row>): World {
    w.(txs := map[t := tx], locks := map row | row in rows :: t)
  }

  lemma BeginAlone(w: World, t: TxId, tx: Tx)
    requires Idle(w)
    ensures Can(w, Begin(t, tx)) <==> Opening(w, tx)
    ensures Opening(w, tx) ==> Do(w, Begin(t, tx)) == Running(w, t, tx, {})
  {
  }

  /** Each transaction's read of the account: an activated one where rights are given. */
  lemma AcceptingReadsAccount(w: World, t: TxId, token: nat, i: Id, user: Id)
    ensures var running := Running(w, t, Accepting(token, i, user, None, None), {});
            && (Can(running, ReadAccount(t)) <==> user in w.users)
            && (Can(running, ReadAccount(t)) ==>
                  Do(running, ReadAccount(t)) ==
                  Running(w, t, Accepting(token, i, user, Some(w.users[user]), None), {} + {UserRow(user)}))
  {
  }

  lemma ReissuingReadsAccount(w: World, t: TxId, i: Id, user: Id)
    ensures var running := Running(w, t, Reissuing(i, user, None, None), {});
            && (Can(running, ReadAccount(t)) <==> user in w.users)
            && (Can(running, ReadAccount(t)) ==>
                  Do(running, ReadAccount(t)) ==
                  Running(w, t, Reissuing(i, user, Some(w.users[user]), None), {} + {UserRow(user)}))
  {
  }

  lemma TransferringReadsAccount(w: World, t: TxId, owner: Id, domain: Id, user: Id)
    ensures var running := Running(w, t, Transferring(owner, domain, user, None, None), {});
            && (Can(running, ReadAccount(t)) <==> user in w.users && w.users[user].active && w.users[user].hasPassword)
            && (Can(running, ReadAccount(t)) ==>
                  Do(running, ReadAccount(t)) ==
                  Running(w, t, Transferring(owner, domain, user, Some(w.users[user]), None), {} + {UserRow(user)}))
  {
  }

  lemma AddingReadsAccount(w: World, t: TxId, owner: Id, domain: Id, user: Id)
    ensures var running := Running(w, t, AddingAdmin(owner, domain, user, None), {});
            && (Can(running, ReadAccount(t)) <==> user in w.users && w.users[user].active && w.users[user].hasPassword)
            && (Can(running, ReadAccount(t)) ==>
                  Do(running, ReadAccount(t)) ==
                  Running(w, t, AddingAdmin(owner, domain, user, Some(w.users[user])), {} + {UserRow(user)}))
  {
  }

  lemma GrantingReadsAccount(w: World, t: TxId, domain: Id, user: Id, address: string)
    ensures var running := Running(w, t, Granting(domain, user, address, None, false), {});
            && (Can(running, ReadAccount(t)) <==> user in w.users && w.users[user].active && w.users[user].hasPassword)
            && (Can(running, ReadAccount(t)) ==>
                  Do(running, ReadAccount(t)) ==
                  Running(w, t, Granting(domain, user, address, Some(w.users[user]), false), {} + {UserRow(user)}))
  {
  }

  lemma InvitationAlone(w: World, t: TxId, tx: Tx, rows: set<Row>, now: int)
    requires tx.Accepting? || tx.Reissuing? || tx.Revoking?
    requires !tx.Revoking? ==> tx.account.Some?
    ensures var running := Running(w, t, tx, rows);
            && (Can(running, ReadInvitation(t, now)) <==>
                  && tx.invitation in w.invitations
                  && (!tx.Revoking? ==> !tx.account.value.hasPassword)
                  && (!tx.Reissuing? ==> w.invitations[tx.invitation].usedAt.None?)
                  && (tx.Accepting? ==> w.invitations[tx.invitation].token == tx.token
                                        && now < w.invitations[tx.invitation].expiresAt))
            && (tx.invitation in w.invitations && Can(running, ReadInvitation(t, now)) ==>
                  Do(running, ReadInvitation(t, now)) ==
                  Running(w, t, tx.(found := Some(w.invitations[tx.invitation])), rows + {InvitationRow(tx.invitation)}))
  {
  }

  lemma DomainAlone(w: World, t: TxId, tx: Tx, rows: set<Row>)
    requires tx.Transferring? && tx.account.Some?
    ensures var running := Running(w, t, tx, rows);
            && (Can(running, ReadDomain(t)) <==>
                  && tx.domain in w.domains && Live(w.domains[tx.domain])
                  && w.domains[tx.domain].owner == tx.owner && tx.owner != tx.user)
            && (tx.domain in w.domains && Can(running, ReadDomain(t)) ==>
                  Do(running, ReadDomain(t)) ==
                  Running(w, t, tx.(seenDomain := Some(w.domains[tx.domain])), rows + {DomainRow(tx.domain)}))
  {
  }

  /** A commit alone writes what it writes, and leaves nothing in flight. */
  lemma CommitAlone(w: World, t: TxId, tx: Tx, rows: set<Row>, now: int, newId: Id, token: nat, expiresAt: int)
    ensures var running := Running(w, t, tx, rows);
            && (Can(running, Commit(t, now, newId, token, expiresAt)) <==> MayCommit(running, t, tx, newId))
            && (MayCommit(running, t, tx, newId) ==>
                  Do(running, Commit(t, now, newId, token, expiresAt)) ==
                  Committed(running, t, tx, now, newId, token, expiresAt).(txs := map[], locks := map[]))
  {
    var running := Running(w, t, tx, rows);
    if MayCommit(running, t, tx, newId) {
      var committed := Committed(running, t, tx, now, newId, token, expiresAt);
      assert committed.txs == running.txs && committed.locks == running.locks;
      assert Ended(committed, t).txs == map[] && Ended(committed, t).locks == map[];
    }
  }

  lemma NoDeletions(w: World, tx: Tx)
    requires !tx.Reissuing? && (tx.Updating? ==> tx.active != Some(false))
    ensures Deleted(w, tx) == {} && w.invitations - Deleted(w, tx) == w.invitations
  {
  }

  /** The last step, and the run that is over. */
  lemma Ends(w: World, a: Action)
    ensures Possible(w, [a]) <==> Can(w, a)
    ensures Possible(w, [a]) ==> After(w, [a]) == Do(w, a)
  {
    assert [a][1..] == [];
  }

  lemma Starts(w: World, a: Action, rest: seq<Action>)
    ensures Possible(w, [a] + rest) <==> Can(w, a) && Possible(Do(w, a), rest)
    ensures Possible(w, [a] + rest) ==> After(w, [a] + rest) == After(Do(w, a), rest)
  {
    assert ([a] + rest)[1..] == rest;
  }

  // ---- Invitations -----------------------------------------------------------------------

  /** Accepting an invitation. */
  function Acceptance(t: TxId, token: nat, i: Id, user: Id, now: int): seq<Action> {
    [Begin(t, Accepting(token, i, user, None, None))] + AcceptanceFromTheAccount(t, now)
  }

  function AcceptanceFromTheAccount(t: TxId, now: int): seq<Action> {
    [ReadAccount(t)] + ([ReadInvitation(t, now)] + [Commit(t, now, 0, 0, 0)])
  }

  /** The world once the user's password is set and the invitation used up. */
  function Accepted(w: World, i: Id, user: Id, now: int): World
    requires i in w.invitations && user in w.users
  {
    w.(users := w.users[user := User(true, true, w.users[user].isOperator)],
       invitations := w.invitations[i := w.invitations[i].(usedAt := Some(now))],
       txs := map[], locks := map[], log := w.log + [AcceptedBy(i, user)])
  }

  lemma AcceptanceCommits(w: World, t: TxId, token: nat, i: Id, user: Id, account: User, found: Invitation,
                          rows: set<Row>, now: int)
    requires user in w.users && i in w.invitations
    ensures var running := Running(w, t, Accepting(token, i, user, Some(account), Some(found)), rows);
            && Possible(running, [Commit(t, now, 0, 0, 0)])
            && After(running, [Commit(t, now, 0, 0, 0)]) == Accepted(w, i, user, now)
  {
    var tx := Accepting(token, i, user, Some(account), Some(found));
    var running := Running(w, t, tx, rows);
    NoDeletions(running, tx);
    CommitAlone(w, t, tx, rows, now, 0, 0, 0);
    Ends(running, Commit(t, now, 0, 0, 0));
  }

  lemma AcceptanceReads(w: World, t: TxId, token: nat, i: Id, user: Id, now: int)
    requires user in w.users && i in w.invitations
    ensures var running, rest := Running(w, t, Accepting(token, i, user, None, None), {}), AcceptanceFromTheAccount(t, now);
            && (Possible(running, rest) <==>
                  && w.invitations[i].token == token && w.invitations[i].usedAt.None?
                  && now < w.invitations[i].expiresAt && !w.users[user].hasPassword)
            && (Possible(running, rest) ==> After(running, rest) == Accepted(w, i, user, now))
  {
    var tx := Accepting(token, i, user, None, None);
    Starts(Running(w, t, tx, {}), ReadAccount(t), [ReadInvitation(t, now)] + [Commit(t, now, 0, 0, 0)]);
    AcceptingReadsAccount(w, t, token, i, user);
    var tx1, rows1 := Accepting(token, i, user, Some(w.users[user]), None), {} + {UserRow(user)};
    Starts(Running(w, t, tx1, rows1), ReadInvitation(t, now), [Commit(t, now, 0, 0, 0)]);
    InvitationAlone(w, t, tx1, rows1, now);
    AcceptanceCommits(w, t, token, i, user, w.users[user], w.invitations[i], rows1 + {InvitationRow(i)}, now);
  }

  /** Alone, an acceptance goes through exactly for the right token of an unused,
      unexpired invitation of a user without a password; it sets the password, activates
      the user, and uses the invitation up. */
  lemma AcceptanceAlone(w: World, t: TxId, token: nat, i: Id, user: Id, now: int)
    requires Idle(w) && user in w.users
    ensures Possible(w, Acceptance(t, token, i, user, now)) <==>
            && i in w.invitations && w.invitations[i].user == user && w.invitations[i].token == token
            && w.invitations[i].usedAt == None && now < w.invitations[i].expiresAt
            && !w.users[user].hasPassword
    ensures Possible(w, Acceptance(t, token, i, user, now)) ==>
              After(w, Acceptance(t, token, i, user, now)) ==
              w.(users := w.users[user := User(true, true, w.users[user].isOperator)],
                 invitations := w.invitations[i := Invitation(user, token, w.invitations[i].expiresAt, Some(now))],
                 log := w.log + [AcceptedBy(i, user)])
  {
    var tx := Accepting(token, i, user, None, None);
    Starts(w, Begin(t, tx), AcceptanceFromTheAccount(t, now));
    BeginAlone(w, t, tx);
    if i in w.invitations {
      AcceptanceReads(w, t, token, i, user, now);
    }
  }

  /** Issuing a replacement invitation. */
  function Reissue(t: TxId, i: Id, user: Id, now: int, newId: Id, token: nat, expiresAt: int): seq<Action> {
    [Begin(t, Reissuing(i, user, None, None))] + ReissueFromTheAccount(t, now, newId, token, expiresAt)
  }

  function ReissueFromTheAccount(t: TxId, now: int, newId: Id, token: nat, expiresAt: int): seq<Action> {
    [ReadAccount(t)] + ([ReadInvitation(t, now)] + [Commit(t, now, newId, token, expiresAt)])
  }

  /** Everything but the user's invitations as it was, and the new one the user's only one. */
  ghost predicate Reissued(w: World, after: World, user: Id, newId: Id, token: nat, expiresAt: int) {
    && after == w.(invitations := after.invitations, issued := w.issued + {newId}, txs := map[], locks := map[])
    && newId in after.invitations && after.invitations[newId] == Invitation(user, token, expiresAt, None)
    && (forall j :: j in after.invitations && after.invitations[j].user == user ==> j == newId)
    && (forall j :: j in w.invitations && w.invitations[j].user != user ==>
          j == newId || (j in after.invitations && after.invitations[j] == w.invitations[j]))
    && (forall j :: j in after.invitations ==> j == newId || j in w.invitations)
  }

  lemma ReissueCommits(w: World, t: TxId, i: Id, user: Id, account: User, found: Invitation, rows: set<Row>,
                       now: int, newId: Id, token: nat, expiresAt: int)
    requires newId !in w.issued
    ensures var running := Running(w, t, Reissuing(i, user, Some(account), Some(found)), rows);
            && Possible(running, [Commit(t, now, newId, token, expiresAt)])
            && Reissued(w, After(running, [Commit(t, now, newId, token, expiresAt)]), user, newId, token, expiresAt)
  {
    var tx := Reissuing(i, user, Some(account), Some(found));
    var running := Running(w, t, tx, rows);
    CommitAlone(w, t, tx, rows, now, newId, token, expiresAt);
    Ends(running, Commit(t, now, newId, token, expiresAt));
    assert forall j :: j in Deleted(running, tx) <==> j in w.invitations && w.invitations[j].user == user;
  }

  lemma ReissueReads(w: World, t: TxId, i: Id, user: Id, now: int, newId: Id, token: nat, expiresAt: int)
    requires user in w.users && i in w.invitations && newId !in w.issued
    ensures var running := Running(w, t, Reissuing(i, user, None, None), {});
            var rest := ReissueFromTheAccount(t, now, newId, token, expiresAt);
            && (Possible(running, rest) <==> !w.users[user].hasPassword)
            && (Possible(running, rest) ==> Reissued(w, After(running, rest), user, newId, token, expiresAt))
  {
    var tx := Reissuing(i, user, None, None);
    var last := Commit(t, now, newId, token, expiresAt);
    Starts(Running(w, t, tx, {}), ReadAccount(t), [ReadInvitation(t, now)] + [last]);
    ReissuingReadsAccount(w, t, i, user);
    var tx1, rows1 := Reissuing(i, user, Some(w.users[user]), None), {} + {UserRow(user)};
    Starts(Running(w, t, tx1, rows1), ReadInvitation(t, now), [last]);
    InvitationAlone(w, t, tx1, rows1, now);
    ReissueCommits(w, t, i, user, w.users[user], w.invitations[i], rows1 + {InvitationRow(i)}, now, newId, token, expiresAt);
  }

  /** Alone, a reissue goes through exactly for an invitation of a user without a password,
      and leaves the new invitation as the user's only one. */
  lemma ReissueAlone(w: World, t: TxId, i: Id, user: Id, now: int, newId: Id, token: nat, expiresAt: int)
    requires Idle(w) && user in w.users && newId !in w.issued
    ensures var run := Reissue(t, i, user, now, newId, token, expiresAt);
            && (Possible(w, run) <==>
                  i in w.invitations && w.invitations[i].user == user && !w.users[user].hasPassword)
            && (Possible(w, run) ==> Reissued(w, After(w, run), user, newId, token, expiresAt))
  {
    var tx := Reissuing(i, user, None, None);
    Starts(w, Begin(t, tx), ReissueFromTheAccount(t, now, newId, token, expiresAt));
    BeginAlone(w, t, tx);
    if i in w.invitations {
      ReissueReads(w, t, i, user, now, newId, token, expiresAt);
    }
  }

  /** Revoking an invitation. */
  function Revocation(t: TxId, i: Id, now: int): seq<Action> {
    [Begin(t, Revoking(i, None))] + ([ReadInvitation(t, now)] + [Commit(t, now, 0, 0, 0)])
  }

  lemma RevocationCommits(w: World, t: TxId, i: Id, found: Invitation, rows: set<Row>, now: int)
    requires i in w.invitations
    ensures var running := Running(w, t, Revoking(i, Some(found)), rows);
            && Possible(running, [Commit(t, now, 0, 0, 0)])
            && After(running, [Commit(t, now, 0, 0, 0)]) ==
               w.(invitations := w.invitations[i := w.invitations[i].(expiresAt := now)], txs := map[], locks := map[])
  {
    var tx := Revoking(i, Some(found));
    var running := Running(w, t, tx, rows);
    NoDeletions(running, tx);
    CommitAlone(w, t, tx, rows, now, 0, 0, 0);
    Ends(running, Commit(t, now, 0, 0, 0));
  }

  /** Alone, a revocation goes through exactly for an unused invitation, and ends it now. */
  lemma RevocationAlone(w: World, t: TxId, i: Id, now: int)
    requires Idle(w)
    ensures Possible(w, Revocation(t, i, now)) <==> i in w.invitations && w.invitations[i].usedAt == None
    ensures Possible(w, Revocation(t, i, now)) ==>
              After(w, Revocation(t, i, now)) ==
              w.(invitations := w.invitations[i := w.invitations[i].(expiresAt := now)])
  {
    var tx := Revoking(i, None);
    Starts(w, Begin(t, tx), [ReadInvitation(t, now)] + [Commit(t, now, 0, 0, 0)]);
    BeginAlone(w, t, tx);
    Starts(Running(w, t, tx, {}), ReadInvitation(t, now), [Commit(t, now, 0, 0, 0)]);
    InvitationAlone(w, t, tx, {}, now);
    if i in w.invitations {
      RevocationCommits(w, t, i, w.invitations[i], {} + {InvitationRow(i)}, now);
    }
  }

  // ---- Domains and rights ------------------------------------------------------------------

  /** Transferring a domain. */
  function Transfer(t: TxId, owner: Id, domain: Id, user: Id): seq<Action> {
    [Begin(t, Transferring(owner, domain, user, None, None))] + TransferFromTheAccount(t)
  }

  function TransferFromTheAccount(t: TxId): seq<Action> {
    [ReadAccount(t)] + ([ReadDomain(t)] + [Commit(t, 0, 0, 0, 0)])
  }

  function Transferred(w: World, domain: Id, user: Id): World
    requires domain in w.domains
  {
    w.(domains := w.domains[domain := w.domains[domain].(owner := user)],
       rights := w.rights.(admins := w.rights.admins - {(domain, user)}), txs := map[], locks := map[])
  }

  lemma TransferCommits(w: World, t: TxId, owner: Id, domain: Id, user: Id, account: User, seen: Domain, rows: set<Row>)
    requires domain in w.domains
    ensures var running := Running(w, t, Transferring(owner, domain, user, Some(account), Some(seen)), rows);
            && Possible(running, [Commit(t, 0, 0, 0, 0)])
            && After(running, [Commit(t, 0, 0, 0, 0)]) == Transferred(w, domain, user)
  {
    var tx := Transferring(owner, domain, user, Some(account), Some(seen));
    var running := Running(w, t, tx, rows);
    NoDeletions(running, tx);
    CommitAlone(w, t, tx, rows, 0, 0, 0, 0);
    Ends(running, Commit(t, 0, 0, 0, 0));
  }

  lemma TransferReads(w: World, t: TxId, owner: Id, domain: Id, user: Id)
    requires user in w.users && domain in w.domains
    ensures var running, rest := Running(w, t, Transferring(owner, domain, user, None, None), {}), TransferFromTheAccount(t);
            && (Possible(running, rest) <==>
                  && w.users[user].active && w.users[user].hasPassword
                  && w.domains[domain].deletedAt == None && w.domains[domain].owner == owner && owner != user)
            && (Possible(running, rest) ==> After(running, rest) == Transferred(w, domain, user))
  {
    var tx := Transferring(owner, domain, user, None, None);
    Starts(Running(w, t, tx, {}), ReadAccount(t), [ReadDomain(t)] + [Commit(t, 0, 0, 0, 0)]);
    TransferringReadsAccount(w, t, owner, domain, user);
    var tx1, rows1 := Transferring(owner, domain, user, Some(w.users[user]), None), {} + {UserRow(user)};
    Starts(Running(w, t, tx1, rows1), ReadDomain(t), [Commit(t, 0, 0, 0, 0)]);
    DomainAlone(w, t, tx1, rows1);
    TransferCommits(w, t, owner, domain, user, w.users[user], w.domains[domain], rows1 + {DomainRow(domain)});
  }

  /** Alone, a transfer goes through exactly from the owner of a live domain to another
      activated account; it sets the owner, who stops being an admin. */
  lemma TransferAlone(w: World, t: TxId, owner: Id, domain: Id, user: Id)
    requires Idle(w) && user in w.users
    ensures Possible(w, Transfer(t, owner, domain, user)) <==>
            && domain in w.domains && w.domains[domain].deletedAt == None && w.domains[domain].owner == owner
            && w.users[user].active && w.users[user].hasPassword && user != owner
    ensures Possible(w, Transfer(t, owner, domain, user)) ==>
              After(w, Transfer(t, owner, domain, user)) ==
              w.(domains := w.domains[domain := w.domains[domain].(owner := user)],
                 rights := w.rights.(admins := w.rights.admins - {(domain, user)}))
  {
    var tx := Transferring(owner, domain, user, None, None);
    Starts(w, Begin(t, tx), TransferFromTheAccount(t));
    BeginAlone(w, t, tx);
    if domain in w.domains {
      TransferReads(w, t, owner, domain, user);
    }
  }

  /** Registering a domain. */
  function Registration(t: TxId, actor: Id, name: string, newId: Id): seq<Action> {
    [Begin(t, Registering(actor, name))] + [Commit(t, 0, newId, 0, 0)]
  }

  /** Alone, a registration goes through exactly for an active user and a free name. */
  lemma RegistrationAlone(w: World, t: TxId, actor: Id, name: string, newId: Id)
    requires Idle(w) && newId !in w.domains
    ensures Possible(w, Registration(t, actor, name, newId)) <==>
            && actor in w.users && w.users[actor].active
            && forall d :: d in w.domains ==> w.domains[d].activeName != Some(name)
    ensures Possible(w, Registration(t, actor, name, newId)) ==>
              After(w, Registration(t, actor, name, newId)) ==
              w.(domains := w.domains[newId := Domain(name, Some(name), actor, AwaitingApproval, None)])
  {
    var tx := Registering(actor, name);
    Starts(w, Begin(t, tx), [Commit(t, 0, newId, 0, 0)]);
    BeginAlone(w, t, tx);
    var running := Running(w, t, tx, {});
    NoDeletions(running, tx);
    CommitAlone(w, t, tx, {}, 0, newId, 0, 0);
    Ends(running, Commit(t, 0, newId, 0, 0));
  }

  /** Adding an admin. */
  function Addition(t: TxId, owner: Id, domain: Id, user: Id): seq<Action> {
    [Begin(t, AddingAdmin(owner, domain, user, None))] + ([ReadAccount(t)] + [Commit(t, 0, 0, 0, 0)])
  }

  lemma AdditionCommits(w: World, t: TxId, owner: Id, domain: Id, user: Id, account: User, rows: set<Row>)
    requires domain in w.domains
    ensures var running := Running(w, t, AddingAdmin(owner, domain, user, Some(account)), rows);
            && (Possible(running, [Commit(t, 0, 0, 0, 0)]) <==> user != owner && (domain, user) !in w.rights.admins)
            && (Possible(running, [Commit(t, 0, 0, 0, 0)]) ==>
                  After(running, [Commit(t, 0, 0, 0, 0)]) ==
                  w.(rights := w.rights.(admins := w.rights.admins + {(domain, user)}), txs := map[], locks := map[]))
  {
    var tx := AddingAdmin(owner, domain, user, Some(account));
    var running := Running(w, t, tx, rows);
    NoDeletions(running, tx);
    CommitAlone(w, t, tx, rows, 0, 0, 0, 0);
    Ends(running, Commit(t, 0, 0, 0, 0));
  }

  /** Alone, an addition goes through exactly from the owner of a live domain to another
      activated account that is no admin yet. */
  lemma AdditionAlone(w: World, t: TxId, owner: Id, domain: Id, user: Id)
    requires Idle(w) && user in w.users
    ensures Possible(w, Addition(t, owner, domain, user)) <==>
            && domain in w.domains && w.domains[domain].deletedAt == None && w.domains[domain].owner == owner
            && w.users[user].active && w.users[user].hasPassword && user != owner && (domain, user) !in w.rights.admins
    ensures Possible(w, Addition(t, owner, domain, user)) ==>
              After(w, Addition(t, owner, domain, user)) ==
              w.(rights := w.rights.(admins := w.rights.admins + {(domain, user)}))
  {
    var tx := AddingAdmin(owner, domain, user, None);
    Starts(w, Begin(t, tx), [ReadAccount(t)] + [Commit(t, 0, 0, 0, 0)]);
    BeginAlone(w, t, tx);
    Starts(Running(w, t, tx, {}), ReadAccount(t), [Commit(t, 0, 0, 0, 0)]);
    AddingReadsAccount(w, t, owner, domain, user);
    if domain in w.domains {
      AdditionCommits(w, t, owner, domain, user, w.users[user], {} + {UserRow(user)});
    }
  }

  /** Granting an address. */
  function Grant(t: TxId, domain: Id, user: Id, address: string, newId: Id): seq<Action> {
    [Begin(t, Granting(domain, user, address, None, false))]
    + ([ReadAccount(t)] + ([CheckAddress(t)] + [Commit(t, 0, newId, 0, 0)]))
  }

  lemma GrantCommits(w: World, t: TxId, domain: Id, user: Id, address: string, account: User, rows: set<Row>, newId: Id)
    requires domain in w.domains && newId !in w.rights.grants
    ensures var running := Running(w, t, Granting(domain, user, address, Some(account), true), rows);
            var last := Commit(t, 0, newId, 0, 0);
            && (Possible(running, [last]) <==>
                  forall g :: g in w.rights.grants ==> w.rights.grants[g] != SenderGrant(domain, user, address))
            && (Possible(running, [last]) ==>
                  After(running, [last]) ==
                  w.(rights := w.rights.(grants := w.rights.grants[newId := SenderGrant(domain, user, address)]),
                     txs := map[], locks := map[]))
  {
    var tx := Granting(domain, user, address, Some(account), true);
    var running := Running(w, t, tx, rows);
    NoDeletions(running, tx);
    CommitAlone(w, t, tx, rows, 0, newId, 0, 0);
    Ends(running, Commit(t, 0, newId, 0, 0));
  }

  lemma GrantChecks(w: World, t: TxId, domain: Id, user: Id, address: string, account: User, rows: set<Row>)
    ensures var running := Running(w, t, Granting(domain, user, address, Some(account), false), rows);
            && (Can(running, CheckAddress(t)) <==> address == "*" || Registered(w, domain, address))
            && (Can(running, CheckAddress(t)) ==>
                  Do(running, CheckAddress(t)) == Running(w, t, Granting(domain, user, address, Some(account), true), rows))
  {
    assert Registered(Running(w, t, Granting(domain, user, address, Some(account), false), rows), domain, address)
           <==> Registered(w, domain, address);
  }

  /** Alone, a grant goes through exactly in a live domain, to an activated account, for the
      whole domain or a registered address, when it is not there yet. */
  lemma GrantAlone(w: World, t: TxId, domain: Id, user: Id, address: string, newId: Id)
    requires Idle(w) && user in w.users && newId !in w.rights.grants
    ensures Possible(w, Grant(t, domain, user, address, newId)) <==>
            && domain in w.domains && w.domains[domain].deletedAt == None
            && w.users[user].active && w.users[user].hasPassword
            && (address == "*" || exists a :: a in w.rights.addresses && w.rights.addresses[a] == SenderAddress(domain, address))
            && forall g :: g in w.rights.grants ==> w.rights.grants[g] != SenderGrant(domain, user, address)
    ensures Possible(w, Grant(t, domain, user, address, newId)) ==>
              After(w, Grant(t, domain, user, address, newId)) ==
              w.(rights := w.rights.(grants := w.rights.grants[newId := SenderGrant(domain, user, address)]))
  {
    var tx, last := Granting(domain, user, address, None, false), Commit(t, 0, newId, 0, 0);
    Starts(w, Begin(t, tx), [ReadAccount(t)] + ([CheckAddress(t)] + [last]));
    BeginAlone(w, t, tx);
    Starts(Running(w, t, tx, {}), ReadAccount(t), [CheckAddress(t)] + [last]);
    GrantingReadsAccount(w, t, domain, user, address);
    var tx1, rows1 := Granting(domain, user, address, Some(w.users[user]), false), {} + {UserRow(user)};
    Starts(Running(w, t, tx1, rows1), CheckAddress(t), [last]);
    GrantChecks(w, t, domain, user, address, w.users[user], rows1);
    if domain in w.domains {
      GrantCommits(w, t, domain, user, address, w.users[user], rows1, newId);
    }
  }

  /** Deleting an address. */
  function Unregistration(t: TxId, domain: Id, addressId: Id, address: string): seq<Action> {
    [Begin(t, Unregistering(domain, addressId, address, None))] + ([SweepGrants(t)] + [Commit(t, 0, 0, 0, 0)])
  }

  /** Alone, a deletion goes through exactly for an address of a live domain; the address and
      every grant for it go, and nothing else. */
  lemma UnregistrationAlone(w: World, t: TxId, domain: Id, addressId: Id, address: string)
    requires Idle(w)
    ensures var run := Unregistration(t, domain, addressId, address);
            && (Possible(w, run) <==>
                  && domain in w.domains && w.domains[domain].deletedAt == None
                  && addressId in w.rights.addresses && w.rights.addresses[addressId] == SenderAddress(domain, address))
            && (Possible(w, run) ==>
                  var after := After(w, run);
                  && after == w.(rights := w.rights.(addresses := w.rights.addresses - {addressId},
                                                     grants := after.rights.grants))
                  && (forall g :: g in after.rights.grants <==>
                        g in w.rights.grants
                        && !(w.rights.grants[g].domain == domain && w.rights.grants[g].address == address))
                  && (forall g :: g in after.rights.grants ==> after.rights.grants[g] == w.rights.grants[g]))
  {
    var tx, last := Unregistering(domain, addressId, address, None), Commit(t, 0, 0, 0, 0);
    Starts(w, Begin(t, tx), [SweepGrants(t)] + [last]);
    BeginAlone(w, t, tx);
    SweepAlone(w, t, domain, addressId, address);
    Starts(Running(w, t, tx, {}), SweepGrants(t), [last]);
    UnregistrationCommits(w, t, domain, addressId, address, GrantsOf(w, domain, address));
  }

  lemma SweepAlone(w: World, t: TxId, domain: Id, addressId: Id, address: string)
    ensures var running := Running(w, t, Unregistering(domain, addressId, address, None), {});
            && Can(running, SweepGrants(t))
            && Do(running, SweepGrants(t)) ==
               Running(w, t, Unregistering(domain, addressId, address, Some(GrantsOf(w, domain, address))), {})
  {
    var running := Running(w, t, Unregistering(domain, addressId, address, None), {});
    assert GrantsOf(running, domain, address) == GrantsOf(w, domain, address);
  }

  lemma UnregistrationCommits(w: World, t: TxId, domain: Id, addressId: Id, address: string, swept: set<Id>)
    ensures var running := Running(w, t, Unregistering(domain, addressId, address, Some(swept)), {});
            var last := Commit(t, 0, 0, 0, 0);
            && (Possible(running, [last]) <==>
                  addressId in w.rights.addresses && w.rights.addresses[addressId] == SenderAddress(domain, address))
            && (Possible(running, [last]) ==>
                  After(running, [last]) ==
                  w.(rights := w.rights.(grants := w.rights.grants - swept, addresses := w.rights.addresses - {addressId}),
                     txs := map[], locks := map[]))
  {
    var tx := Unregistering(domain, addressId, address, Some(swept));
    var running := Running(w, t, tx, {});
    NoDeletions(running, tx);
    CommitAlone(w, t, tx, {}, 0, 0, 0, 0);
    Ends(running, Commit(t, 0, 0, 0, 0));
  }

  // ---- Accounts ----------------------------------------------------------------------------

  /** Scanning the operators, in some order. */
  function Scan(t: TxId, users: seq<Id>): seq<Action> {
    seq(|users|, i requires 0 <= i < |users| => ReadOperator(t, users[i]))
  }

  /** Updating an account: the scan of the operators, then the rest. */
  function Update(t: TxId, actor: Id, target: Id, active: Option<bool>, operator: Option<bool>, scan: seq<Id>): seq<Action> {
    [Begin(t, Updating(actor, target, active, operator, map[], None, Scanning))] + (Scan(t, scan) + UpdateFromTheActor(t))
  }

  function UpdateFromTheActor(t: TxId): seq<Action> {
    [ReadActor(t)] + ([ReadTarget(t)] + ([CheckDomains(t)] + [Commit(t, 0, 0, 0, 0)]))
  }

  lemma OperatorAlone(w: World, t: TxId, actor: Id, target: Id, active: Option<bool>, operator: Option<bool>,
                      operators: map<Id, User>, rows: set<Row>, u: Id)
    ensures var running := Running(w, t, Updating(actor, target, active, operator, operators, None, Scanning), rows);
            && (Can(running, ReadOperator(t, u)) <==> u in w.users && w.users[u].isOperator)
            && (u in w.users && w.users[u].isOperator ==>
                  Do(running, ReadOperator(t, u)) ==
                  Running(w, t, Updating(actor, target, active, operator, operators[u := w.users[u]], None, Scanning),
                          rows + {UserRow(u)}))
  {
  }

  function Scanned(w: World, operators: map<Id, User>, scan: seq<Id>): map<Id, User>
    requires forall i :: 0 <= i < |scan| ==> scan[i] in w.users
    decreases |scan|
  {
    if scan == [] then operators else Scanned(w, operators[scan[0] := w.users[scan[0]]], scan[1..])
  }

  function ScannedRows(rows: set<Row>, scan: seq<Id>): set<Row>
    decreases |scan|
  {
    if scan == [] then rows else ScannedRows(rows + {UserRow(scan[0])}, scan[1..])
  }

  lemma {:induction false} ScannedHolds(w: World, operators: map<Id, User>, scan: seq<Id>, u: Id)
    requires forall i :: 0 <= i < |scan| ==> scan[i] in w.users
    requires forall v :: v in operators ==> v in w.users && operators[v] == w.users[v]
    ensures u in Scanned(w, operators, scan) <==> u in operators || u in scan
    ensures u in Scanned(w, operators, scan) ==> u in w.users && Scanned(w, operators, scan)[u] == w.users[u]
    decreases |scan|
  {
    if scan != [] {
      ScannedHolds(w, operators[scan[0] := w.users[scan[0]]], scan[1..], u);
    }
  }

  lemma {:induction false} ScanAlone(
    w: World, t: TxId, actor: Id, target: Id, active: Option<bool>, operator: Option<bool>,
    operators: map<Id, User>, rows: set<Row>, scan: seq<Id>, rest: seq<Action>)
    requires forall i :: 0 <= i < |scan| ==> scan[i] in w.users && w.users[scan[i]].isOperator
    ensures var before := Running(w, t, Updating(actor, target, active, operator, operators, None, Scanning), rows);
            var after := Running(w, t, Updating(actor, target, active, operator, Scanned(w, operators, scan), None, Scanning),
                                 ScannedRows(rows, scan));
            && (Possible(before, Scan(t, scan) + rest) <==> Possible(after, rest))
            && (Possible(after, rest) ==> After(before, Scan(t, scan) + rest) == After(after, rest))
    decreases |scan|
  {
    if scan == [] {
      assert Scan(t, scan) + rest == rest;
    } else {
      var u := scan[0];
      var before := Running(w, t, Updating(actor, target, active, operator, operators, None, Scanning), rows);
      assert Scan(t, scan) + rest == [ReadOperator(t, u)] + (Scan(t, scan[1..]) + rest);
      Starts(before, ReadOperator(t, u), Scan(t, scan[1..]) + rest);
      OperatorAlone(w, t, actor, target, active, operator, operators, rows, u);
      ScanAlone(w, t, actor, target, active, operator, operators[u := w.users[u]], rows + {UserRow(u)}, scan[1..], rest);
    }
  }

  /** The update disables or demotes. */
  predicate TakesAway(user: User, active: Option<bool>, operator: Option<bool>) {
    (active == Some(false) && user.active) || (operator == Some(false) && user.isOperator)
  }

  lemma ActorAlone(w: World, t: TxId, actor: Id, target: Id, active: Option<bool>, operator: Option<bool>,
                   operators: map<Id, User>, rows: set<Row>)
    ensures var running := Running(w, t, Updating(actor, target, active, operator, operators, None, Scanning), rows);
            && (Can(running, ReadActor(t)) <==> actor in w.users && w.users[actor].active && w.users[actor].isOperator)
            && (Can(running, ReadActor(t)) ==>
                  Do(running, ReadActor(t)) ==
                  Running(w, t, Updating(actor, target, active, operator, operators, None, ActorRead), rows + {UserRow(actor)}))
  {
  }

  lemma TargetAlone(w: World, t: TxId, actor: Id, target: Id, active: Option<bool>, operator: Option<bool>,
                    operators: map<Id, User>, rows: set<Row>)
    ensures var running := Running(w, t, Updating(actor, target, active, operator, operators, None, ActorRead), rows);
            && (Can(running, ReadTarget(t)) <==>
                  && target in w.users
                  && (TakesAway(w.users[target], active, operator) && w.users[target].isOperator ==> |InForce(operators)| > 1))
            && (target in w.users && Can(running, ReadTarget(t)) ==>
                  Do(running, ReadTarget(t)) ==
                  Running(w, t, Updating(actor, target, active, operator, operators, Some(w.users[target]), TargetRead),
                          rows + {UserRow(target)}))
  {
  }

  lemma DomainsAlone(w: World, t: TxId, actor: Id, target: Id, active: Option<bool>, operator: Option<bool>,
                     operators: map<Id, User>, rows: set<Row>, seen: User)
    ensures var running := Running(w, t, Updating(actor, target, active, operator, operators, Some(seen), TargetRead), rows);
            && (Can(running, CheckDomains(t)) <==>
                  (active == Some(false) && seen.active ==>
                     forall d :: d in w.domains && w.domains[d].deletedAt == None ==> w.domains[d].owner != target))
            && (Can(running, CheckDomains(t)) ==>
                  Do(running, CheckDomains(t)) ==
                  Running(w, t, Updating(actor, target, active, operator, operators, Some(seen), Ready), rows))
  {
  }

  /** What an account update leaves: the columns it was given, and for a disabled account no
      unused invitation. */
  ghost predicate IsUpdated(w: World, after: World, target: Id, active: Option<bool>, operator: Option<bool>)
    requires target in w.users
  {
    && after == w.(users := after.users, invitations := after.invitations, txs := map[], locks := map[], log := after.log)
    && after.users == w.users[target := User(w.users[target].hasPassword,
                                             if active == None then w.users[target].active else active == Some(true),
                                             if operator == None then w.users[target].isOperator else operator == Some(true))]
    && (forall i :: i in after.invitations <==>
          i in w.invitations && !(active == Some(false) && w.invitations[i].user == target && w.invitations[i].usedAt == None))
    && (forall i :: i in after.invitations ==> after.invitations[i] == w.invitations[i])
    && (if active == Some(false)
        then |after.log| == |w.log| + 1 && after.log[..|w.log|] == w.log && after.log[|w.log|].Disabled?
             && after.log[|w.log|].user == target
             && forall i :: i in after.log[|w.log|].existing <==> i in w.invitations && w.invitations[i].user == target
        else after.log == w.log)
  }

  lemma UpdateCommits(w: World, t: TxId, actor: Id, target: Id, active: Option<bool>, operator: Option<bool>,
                      operators: map<Id, User>, rows: set<Row>, seen: User)
    requires target in w.users
    ensures var running := Running(w, t, Updating(actor, target, active, operator, operators, Some(seen), Ready), rows);
            && Possible(running, [Commit(t, 0, 0, 0, 0)])
            && IsUpdated(w, After(running, [Commit(t, 0, 0, 0, 0)]), target, active, operator)
  {
    var tx := Updating(actor, target, active, operator, operators, Some(seen), Ready);
    var running := Running(w, t, tx, rows);
    CommitAlone(w, t, tx, rows, 0, 0, 0, 0);
    Ends(running, Commit(t, 0, 0, 0, 0));
    assert forall i :: i in Deleted(running, tx) <==>
      active == Some(false) && i in w.invitations && w.invitations[i].user == target && w.invitations[i].usedAt == None;
  }

  /** The rest of an update, once the operators are scanned. */
  lemma UpdateReads(w: World, t: TxId, actor: Id, target: Id, active: Option<bool>, operator: Option<bool>,
                    operators: map<Id, User>, rows: set<Row>)
    requires target in w.users
    ensures var running := Running(w, t, Updating(actor, target, active, operator, operators, None, Scanning), rows);
            && (Possible(running, UpdateFromTheActor(t)) <==>
                  && actor in w.users && w.users[actor].active && w.users[actor].isOperator
                  && (TakesAway(w.users[target], active, operator) && w.users[target].isOperator ==> |InForce(operators)| > 1)
                  && (active == Some(false) && w.users[target].active ==>
                        forall d :: d in w.domains && w.domains[d].deletedAt == None ==> w.domains[d].owner != target))
            && (Possible(running, UpdateFromTheActor(t)) ==>
                  IsUpdated(w, After(running, UpdateFromTheActor(t)), target, active, operator))
  {
    var last := [Commit(t, 0, 0, 0, 0)];
    var running := Running(w, t, Updating(actor, target, active, operator, operators, None, Scanning), rows);
    Starts(running, ReadActor(t), [ReadTarget(t)] + ([CheckDomains(t)] + last));
    ActorAlone(w, t, actor, target, active, operator, operators, rows);
    var rows1 := rows + {UserRow(actor)};
    Starts(Running(w, t, Updating(actor, target, active, operator, operators, None, ActorRead), rows1),
           ReadTarget(t), [CheckDomains(t)] + last);
    TargetAlone(w, t, actor, target, active, operator, operators, rows1);
    var rows2, seen := rows1 + {UserRow(target)}, w.users[target];
    Starts(Running(w, t, Updating(actor, target, active, operator, operators, Some(seen), TargetRead), rows2),
           CheckDomains(t), last);
    DomainsAlone(w, t, actor, target, active, operator, operators, rows2, seen);
    UpdateCommits(w, t, actor, target, active, operator, operators, rows2, seen);
  }

  lemma TwoInForce(w: World, scan: seq<Id>)
    requires forall u :: u in scan <==> u in w.users && w.users[u].isOperator
    requires forall i :: 0 <= i < |scan| ==> scan[i] in w.users
    ensures |InForce(Scanned(w, map[], scan))| > 1 <==>
            exists u, v :: u != v && IsActiveOperator(w, u) && IsActiveOperator(w, v)
  {
    var inForce := InForce(Scanned(w, map[], scan));
    forall u: Id
      ensures u in inForce <==> IsActiveOperator(w, u)
    {
      ScannedHolds(w, map[], scan, u);
    }
    if |inForce| > 1 {
      var u :| u in inForce;
      DifferenceSize(inForce, {u});
      var v :| v in inForce - {u};
      assert IsActiveOperator(w, u) && IsActiveOperator(w, v);
    }
    if u: Id, v: Id :| u != v && IsActiveOperator(w, u) && IsActiveOperator(w, v) {
      SubsetSize({u, v}, inForce);
    }
  }

  /** Alone, with every operator scanned, an update goes through exactly for an active
      operator, unless it disables or demotes an operator while fewer than two are active,
      or disables the owner of a live domain. */
  lemma UpdateAlone(w: World, t: TxId, actor: Id, target: Id, active: Option<bool>, operator: Option<bool>, scan: seq<Id>)
    requires Idle(w) && target in w.users
    requires forall u :: u in scan <==> u in w.users && w.users[u].isOperator
    ensures var run := Update(t, actor, target, active, operator, scan);
            && (Possible(w, run) <==>
                  && IsActiveOperator(w, actor)
                  && (TakesAway(w.users[target], active, operator) && w.users[target].isOperator ==>
                        exists u, v :: u != v && IsActiveOperator(w, u) && IsActiveOperator(w, v))
                  && (active == Some(false) && w.users[target].active ==>
                        forall d :: d in w.domains && w.domains[d].deletedAt == None ==> w.domains[d].owner != target))
            && (Possible(w, run) ==> IsUpdated(w, After(w, run), target, active, operator))
  {
    var tx := Updating(actor, target, active, operator, map[], None, Scanning);
    assert forall i :: 0 <= i < |scan| ==> scan[i] in scan;
    Starts(w, Begin(t, tx), Scan(t, scan) + UpdateFromTheActor(t));
    BeginAlone(w, t, tx);
    ScanAlone(w, t, actor, target, active, operator, map[], {}, scan, UpdateFromTheActor(t));
    UpdateReads(w, t, actor, target, active, operator, Scanned(w, map[], scan), ScannedRows({}, scan));
    TwoInForce(w, scan);
  }

  // ---- Single writes, and giving up --------------------------------------------------------

  /** The transactions with one write, taken whole, and an abort. */
  lemma SingleWritesDo(w: World, a: Action)
    requires Can(w, a)
    ensures a.CreateUser? ==>
              Do(w, a) == w.(users := w.users[a.user := User(false, false, false)],
                             invitations := w.invitations[a.newId := Invitation(a.user, a.token, a.expiresAt, None)],
                             issued := w.issued + {a.newId})
    ensures a.DeleteDomain? ==>
              && a.domain in w.domains
              && Do(w, a) == w.(domains := w.domains[a.domain :=
                   w.domains[a.domain].(activeName := None, deletedAt := Some(a.now))])
    ensures a.RemoveAdmin? ==>
              Do(w, a) == w.(rights := w.rights.(admins := w.rights.admins - {(a.domain, a.user)}))
    ensures a.CreateAddress? ==>
              Do(w, a) == w.(rights := w.rights.(
                addresses := w.rights.addresses[a.newId := SenderAddress(a.domain, a.address)]))
    ensures a.DeleteGrant? ==> Do(w, a) == w.(rights := w.rights.(grants := w.rights.grants - {a.grant}))
  {
  }

  lemma PurgeDropsExpired(w: World, now: int, i: Id)
    requires Can(w, PurgeInvitations(now))
    ensures var after := Do(w, PurgeInvitations(now));
            && after == w.(invitations := after.invitations)
            && (i in after.invitations <==> i in w.invitations && now < w.invitations[i].expiresAt)
            && (i in after.invitations ==> after.invitations[i] == w.invitations[i])
  {
  }

  /** A transaction may give up at any moment; it leaves no write and no lock. */
  lemma AbortAlone(w: World, t: TxId, tx: Tx, rows: set<Row>)
    ensures Can(Running(w, t, tx, rows), Abort(t))
    ensures Do(Running(w, t, tx, rows), Abort(t)) == w.(txs := map[], locks := map[])
  {
    var after := Ended(Running(w, t, tx, rows), t);
    assert after.txs == map[] && after.locks == map[];
  }
}

// Under every interleaving that respects the row locks: an operator stays in
// force, live domains keep active owners, and invitations are used once.

module LockRuns {

  import opened Tables
  import opened RowLocks
  import opened SetFacts
  import opened Wrappers

  // ---- Locked rows stay as they were read ----------------------------------------------

  lemma LockingKeepsOthers(w: World, row: Row, t: TxId, tx: Tx, other: TxId)
    requires TxSound(w, other) && Free(w, row, t) && other != t
    ensures TxSound(Locked(w, row, t, tx), other)
  {
  }

  predicate IsRead(a: Action) {
    || a.ReadOperator? || a.ReadActor? || a.ReadTarget? || a.CheckDomains?
    || a.ReadAccount? || a.ReadDomain? || a.ReadInvitation? || a.CheckAddress? || a.SweepGrants?
  }

  /** The transaction that reads: its row is now locked and as committed. */
  lemma ReadKeepsReader(w: World, a: Action)
    requires Sound(w) && Can(w, a) && IsRead(a)
    ensures TxSound(Do(w, a), a.t)
  {
    assert TxSound(w, a.t);
  }

  lemma ReadKeepsOthers(w: World, a: Action, t: TxId)
    requires Sound(w) && Can(w, a) && IsRead(a) && t != a.t
    ensures TxSound(Do(w, a), t)
  {
    assert TxSound(w, t);
    var tx := w.txs[a.t];
    var tx' := Do(w, a).txs[a.t];
    match a
    case ReadOperator(t0, u) => LockingKeepsOthers(w, UserRow(u), t0, tx', t);
    case ReadActor(t0) => LockingKeepsOthers(w, UserRow(tx.actor), t0, tx', t);
    case ReadTarget(t0) => LockingKeepsOthers(w, UserRow(tx.target), t0, tx', t);
    case ReadAccount(t0) => LockingKeepsOthers(w, UserRow(tx.user), t0, tx', t);
    case ReadDomain(t0) => LockingKeepsOthers(w, DomainRow(tx.domain), t0, tx', t);
    case ReadInvitation(t0, _) => LockingKeepsOthers(w, InvitationRow(tx.invitation), t0, tx', t);
    case _ =>
  }

  lemma BeginKeepsTx(w: World, started: TxId, tx: Tx, t: TxId)
    requires Sound(w) && Can(w, Begin(started, tx))
    ensures TxSound(Do(w, Begin(started, tx)), t)
  {
    assert TxSound(w, t);
    if tx.Accepting? || tx.Reissuing? {
      assert InvitationRefers(w, tx.invitation);
    }
  }

  lemma CreationKeepsTx(w: World, a: Action, t: TxId)
    requires TxSound(w, t) && Can(w, a) && a.CreateUser? && InvitationRefers(w, a.newId)
    ensures TxSound(Do(w, a), t)
  {
  }

  lemma DeletionKeepsTx(w: World, a: Action, t: TxId)
    requires TxSound(w, t) && Can(w, a) && a.DeleteDomain?
    ensures TxSound(Do(w, a), t)
  {
  }

  lemma PurgeKeepsTx(w: World, a: Action, t: TxId)
    requires TxSound(w, t) && Can(w, a) && a.PurgeInvitations?
    ensures TxSound(Do(w, a), t)
  {
  }

  lemma SingleWritesKeepTx(w: World, a: Action, t: TxId)
    requires Can(w, a) && (a.CreateUser? || a.DeleteDomain? || a.PurgeInvitations?)
    requires TxSound(w, t) && (a.CreateUser? ==> InvitationRefers(w, a.newId))
    ensures TxSound(Do(w, a), t)
  {
    match a
    case CreateUser(_, _, _, _) => CreationKeepsTx(w, a, t);
    case DeleteDomain(_, _) => DeletionKeepsTx(w, a, t);
    case PurgeInvitations(_) => PurgeKeepsTx(w, a, t);
  }

  lemma AbortKeepsTx(w: World, ended: TxId, t: TxId)
    requires Sound(w) && ended in w.txs
    ensures TxSound(Ended(w, ended), t)
  {
    assert TxSound(w, t);
  }

  /** A commit writes only rows its transaction holds, or rows nobody holds. */
  lemma UpdateKeepsTx(w: World, a: Action, t: TxId)
    requires Sound(w) && Can(w, a) && a.Commit? && w.txs[a.t].Updating?
    ensures TxSound(Do(w, a), t)
  {
    assert TxSound(w, a.t) && TxSound(w, t);
  }

  lemma TransferKeepsTx(w: World, a: Action, t: TxId)
    requires Sound(w) && Can(w, a) && a.Commit? && w.txs[a.t].Transferring?
    ensures TxSound(Do(w, a), t)
  {
    assert TxSound(w, a.t) && TxSound(w, t);
  }

  lemma AcceptKeepsTx(w: World, a: Action, t: TxId)
    requires Sound(w) && Can(w, a) && a.Commit? && w.txs[a.t].Accepting?
    ensures TxSound(Do(w, a), t)
  {
    assert TxSound(w, a.t) && TxSound(w, t);
  }

  lemma ReissueKeepsTx(w: World, a: Action, t: TxId)
    requires Sound(w) && Can(w, a) && a.Commit? && w.txs[a.t].Reissuing?
    ensures TxSound(Do(w, a), t)
  {
    assert TxSound(w, a.t) && TxSound(w, t);
    assert InvitationRefers(w, a.newId);
  }

  lemma RevokeKeepsTx(w: World, a: Action, t: TxId)
    requires Sound(w) && Can(w, a) && a.Commit? && w.txs[a.t].Revoking?
    ensures TxSound(Do(w, a), t)
  {
    assert TxSound(w, a.t) && TxSound(w, t);
  }

  /** Registration holds no row, but its insert waits for the owner's row: so it
      commits nothing against a disable that has checked the user's domains. */
  lemma RegisterKeepsTx(w: World, a: Action, t: TxId)
    requires Sound(w) && Can(w, a) && a.Commit? && w.txs[a.t].Registering?
    ensures TxSound(Do(w, a), t)
  {
    assert TxSound(w, t);
  }

  /** A step that writes only rights and leaves the transaction's locks alone. */
  lemma RightsKeepTx(w: World, w': World, t: TxId)
    requires TxSound(w, t)
    requires w' == w.(rights := w'.rights, txs := w'.txs, locks := w'.locks)
    requires t in w'.txs ==> t in w.txs && w'.txs[t] == w.txs[t]
    requires forall row :: Holds(w, row, t) && t in w'.txs ==> Holds(w', row, t)
    ensures TxSound(w', t)
  {
  }

  lemma RightsCommitKeepsTx(w: World, a: Action, t: TxId)
    requires TxSound(w, t) && Can(w, a) && a.Commit?
    requires w.txs[a.t].AddingAdmin? || w.txs[a.t].Granting? || w.txs[a.t].Unregistering?
    ensures TxSound(Do(w, a), t)
  {
    var w' := Do(w, a);
    assert w'.invitations == w.invitations;
    RightsKeepTx(w, w', t);
  }

  lemma RightsWriteKeepsTx(w: World, a: Action, t: TxId)
    requires TxSound(w, t) && Can(w, a) && (a.RemoveAdmin? || a.CreateAddress? || a.DeleteGrant?)
    ensures TxSound(Do(w, a), t)
  {
    RightsKeepTx(w, Do(w, a), t);
  }

  lemma StepKeepsTx(w: World, a: Action, t: TxId)
    requires Sound(w) && Can(w, a)
    ensures TxSound(Do(w, a), t)
  {
    assert TxSound(w, t);
    if IsRead(a) {
      if t == a.t { ReadKeepsReader(w, a); } else { ReadKeepsOthers(w, a, t); }
    } else if a.Begin? {
      BeginKeepsTx(w, a.t, a.tx, t);
    } else if a.Abort? {
      AbortKeepsTx(w, a.t, t);
    } else if a.Commit? {
      match w.txs[a.t]
      case Updating(_, _, _, _, _, _, _) => UpdateKeepsTx(w, a, t);
      case Transferring(_, _, _, _, _) => TransferKeepsTx(w, a, t);
      case Accepting(_, _, _, _, _) => AcceptKeepsTx(w, a, t);
      case Reissuing(_, _, _, _) => ReissueKeepsTx(w, a, t);
      case Revoking(_, _) => RevokeKeepsTx(w, a, t);
      case Registering(_, _) => RegisterKeepsTx(w, a, t);
      case _ => RightsCommitKeepsTx(w, a, t);
    } else if a.CreateUser? || a.DeleteDomain? || a.PurgeInvitations? {
      assert a.CreateUser? ==> InvitationRefers(w, a.newId);
      SingleWritesKeepTx(w, a, t);
    } else {
      RightsWriteKeepsTx(w, a, t);
    }
  }

  // ---- An operator stays in force ------------------------------------------------------------

  lemma AnotherOperator(operators: map<Id, User>, target: Id) returns (u: Id)
    requires |InForce(operators)| > 1
    ensures u in InForce(operators) && u != target
  {
    var inForce := InForce(operators);
    SubsetSize(inForce * {target}, {target});
    assert inForce == (inForce - {target}) + inForce * {target};
    u :| u in InForce(operators) && u != target;
  }

  /** After an `update_user` commit some operator is active: the rows it locked may
      miss an operator promoted meanwhile, but then its count is only too low. */
  lemma UpdateLeavesAnOperator(w: World, a: Action)
    requires Sound(w) && Can(w, a) && a.Commit? && w.txs[a.t].Updating?
    ensures exists u :: IsActiveOperator(Do(w, a), u)
  {
    var tx := w.txs[a.t];
    assert TxSound(w, a.t);
    var w' := Do(w, a);
    if (Disabling(tx) || Demoting(tx)) && tx.seen.value.isOperator {
      var u := AnotherOperator(tx.operators, tx.target);
      assert UserKept(w, a.t, u, tx.operators[u]);
      assert IsActiveOperator(w', u);
    } else {
      var u :| IsActiveOperator(w, u);
      assert IsActiveOperator(w', u);
    }
  }

  lemma CommitKeepsOperator(w: World, a: Action, u: Id)
    requires Can(w, a) && IsActiveOperator(w, u) && a.Commit? && !w.txs[a.t].Updating?
    ensures IsActiveOperator(Do(w, a), u)
  {
  }

  lemma OperatorStays(w: World, a: Action, u: Id)
    requires Can(w, a) && IsActiveOperator(w, u) && !(a.Commit? && w.txs[a.t].Updating?)
    ensures IsActiveOperator(Do(w, a), u)
  {
    if a.Commit? {
      CommitKeepsOperator(w, a, u);
    }
  }

  lemma StepLeavesAnOperator(w: World, a: Action)
    requires Sound(w) && Can(w, a)
    ensures exists u :: IsActiveOperator(Do(w, a), u)
  {
    if a.Commit? && w.txs[a.t].Updating? {
      UpdateLeavesAnOperator(w, a);
    } else {
      var u :| IsActiveOperator(w, u);
      OperatorStays(w, a, u);
    }
  }

  // ---- Live domains keep active owners ---------------------------------------------------------

  ghost predicate OwnersActive(w: World) {
    forall d :: OwnerActive(w, d)
  }

  /** A registration that commits while its actor's account is active. The row lock is
      free by then, so the account could be read again before the insert. */
  predicate Timely(w: World, a: Action) {
    a.Commit? && a.t in w.txs && w.txs[a.t].Registering? ==>
      w.txs[a.t].actor in w.users && w.users[w.txs[a.t].actor].active
  }

  /** The domain a registration adds has an active owner exactly when the actor's
      account is still active at the commit. */
  lemma RegistrationOwnerActiveIff(w: World, a: Action)
    requires Sound(w) && Can(w, a) && a.Commit? && w.txs[a.t].Registering?
    ensures OwnerActive(Do(w, a), a.newId) <==> w.users[w.txs[a.t].actor].active
  {
    assert TxSound(w, a.t);
  }

  lemma CommitKeepsOwner(w: World, a: Action, d: Id)
    requires Can(w, a) && a.Commit? && TxSound(w, a.t) && OwnerActive(w, d) && Timely(w, a)
    ensures OwnerActive(Do(w, a), d)
  {
  }

  lemma StepKeepsOwner(w: World, a: Action, d: Id)
    requires Can(w, a) && OwnerActive(w, d) && Timely(w, a)
    requires a.Commit? ==> TxSound(w, a.t)
    ensures OwnerActive(Do(w, a), d)
  {
    if a.Commit? {
      CommitKeepsOwner(w, a, d);
    }
  }

  /** Every transaction but an untimely registration keeps the owners active. */
  lemma StepKeepsOwnersIff(w: World, a: Action)
    requires Sound(w) && Can(w, a) && OwnersActive(w)
    ensures OwnersActive(Do(w, a)) <==> Timely(w, a)
  {
    if Timely(w, a) {
      forall d
        ensures OwnerActive(Do(w, a), d)
      {
        assert OwnerActive(w, d) && (a.Commit? ==> TxSound(w, a.t));
        StepKeepsOwner(w, a, d);
      }
    } else {
      RegistrationOwnerActiveIff(w, a);
    }
  }

  // ---- Invitations -----------------------------------------------------------------------------

  lemma CommitKeepsInvitations(w: World, a: Action, i: Id, j: Id)
    requires Can(w, a) && a.Commit? && TxSound(w, a.t)
    requires OneInvitation(w, i, j) && InvitationRefers(w, i) && InvitationRefers(w, j)
    ensures OneInvitation(Do(w, a), i, j) && InvitationRefers(Do(w, a), i)
  {
  }

  lemma StepKeepsInvitations(w: World, a: Action, i: Id, j: Id)
    requires Can(w, a) && (a.Commit? ==> TxSound(w, a.t))
    requires OneInvitation(w, i, j) && InvitationRefers(w, i) && InvitationRefers(w, j)
    ensures OneInvitation(Do(w, a), i, j) && InvitationRefers(Do(w, a), i)
  {
    if a.Commit? {
      CommitKeepsInvitations(w, a, i, j);
    }
  }

  lemma StepKeepsAllInvitations(w: World, a: Action)
    requires Sound(w) && Can(w, a)
    ensures forall i, j :: OneInvitation(Do(w, a), i, j)
    ensures forall i :: InvitationRefers(Do(w, a), i)
  {
    var w' := Do(w, a);
    assert a.Commit? ==> TxSound(w, a.t);
    forall i, j
      ensures OneInvitation(w', i, j)
    {
      assert OneInvitation(w, i, j) && InvitationRefers(w, i) && InvitationRefers(w, j);
      StepKeepsInvitations(w, a, i, j);
    }
    forall i
      ensures InvitationRefers(w', i)
    {
      assert OneInvitation(w, i, i) && InvitationRefers(w, i);
      StepKeepsInvitations(w, a, i, i);
    }
  }

  lemma CommitKeepsDead(w: World, a: Action, i: Id)
    requires Can(w, a) && a.Commit? && Dead(w, i)
    ensures Dead(Do(w, a), i)
  {
  }

  lemma DeadStaysDead(w: World, a: Action, i: Id)
    requires Can(w, a) && Dead(w, i)
    ensures Dead(Do(w, a), i)
  {
    if a.Commit? {
      CommitKeepsDead(w, a, i);
    }
  }

  lemma FactStays(w: World, a: Action, fact: Fact)
    requires Can(w, a) && FactHolds(w, fact)
    ensures FactHolds(Do(w, a), fact)
  {
    match fact
    case AcceptedBy(i, u) => DeadStaysDead(w, a, i);
    case Disabled(_, existing) =>
      forall i | i in existing
        ensures Dead(Do(w, a), i)
      {
        DeadStaysDead(w, a, i);
      }
  }

  /** The fact a commit adds holds, and nothing before it rules it out. */
  lemma AcceptedIsNew(w: World, a: Action, earlier: Fact)
    requires Sound(w) && Can(w, a) && a.Commit? && w.txs[a.t].Accepting? && FactHolds(w, earlier)
    ensures var fact := AcceptedBy(w.txs[a.t].invitation, w.txs[a.t].user);
            FactHolds(Do(w, a), fact) && FactsAgree(earlier, fact)
  {
    assert TxSound(w, a.t);
    assert InvitationRefers(w, w.txs[a.t].invitation);
  }

  lemma DisabledHolds(w: World, a: Action)
    requires Sound(w) && Can(w, a) && a.Commit? && w.txs[a.t].Updating? && Sets(w.txs[a.t].active, false)
    ensures Do(w, a).log == w.log + [Disabled(w.txs[a.t].target,
              set i | i in w.invitations && w.invitations[i].user == w.txs[a.t].target)]
    ensures FactHolds(Do(w, a), Do(w, a).log[|w.log|])
  {
    forall i | i in w.invitations && w.invitations[i].user == w.txs[a.t].target
      ensures Dead(Do(w, a), i)
    {
      assert InvitationRefers(w, i);
    }
  }

  lemma StepKeepsLog(w: World, a: Action)
    requires Sound(w) && Can(w, a)
    ensures var w' := Do(w, a);
            Orderly(w'.log) && forall k :: 0 <= k < |w'.log| ==> FactHolds(w', w'.log[k])
  {
    var w' := Do(w, a);
    forall k | 0 <= k < |w.log|
      ensures FactHolds(w', w.log[k])
    {
      FactStays(w, a, w.log[k]);
    }
    if a.Commit? && w.txs[a.t].Updating? && Sets(w.txs[a.t].active, false) {
      DisabledHolds(w, a);
    } else if a.Commit? && w.txs[a.t].Accepting? {
      var fact := AcceptedBy(w.txs[a.t].invitation, w.txs[a.t].user);
      assert w'.log == w.log + [fact];
      forall k | 0 <= k < |w.log|
        ensures FactsAgree(w.log[k], fact)
      {
        AcceptedIsNew(w, a, w.log[k]);
      }
      AcceptedIsNew(w, a, Disabled(0, {}));
    } else {
      assert w'.log == w.log;
    }
  }

  // ---- Every run ------------------------------------------------------------------------------------

  lemma StepKeepsSound(w: World, a: Action)
    requires Sound(w) && Can(w, a)
    ensures Sound(Do(w, a))
  {
    var w' := Do(w, a);
    forall t ensures TxSound(w', t) { StepKeepsTx(w, a, t); }
    StepLeavesAnOperator(w, a);
    StepKeepsAllInvitations(w, a);
    StepKeepsLog(w, a);
  }

  ghost predicate Possible(w: World, actions: seq<Action>)
    decreases |actions|
  {
    actions != [] ==> Can(w, actions[0]) && Possible(Do(w, actions[0]), actions[1..])
  }

  ghost function After(w: World, actions: seq<Action>): World
    requires Possible(w, actions)
    decreases |actions|
  {
    if actions == [] then w else After(Do(w, actions[0]), actions[1..])
  }

  lemma {:induction false} RunKeepsSound(w: World, actions: seq<Action>)
    requires Sound(w) && Possible(w, actions)
    ensures Sound(After(w, actions))
    decreases |actions|
  {
    if actions != [] {
      StepKeepsSound(w, actions[0]);
      RunKeepsSound(Do(w, actions[0]), actions[1..]);
    }
  }

  /** Nothing in flight, an operator in force, one invitation a user. */
  ghost predicate Quiet(w: World) {
    && w.txs == map[] && w.locks == map[] && w.log == []
    && (exists u :: IsActiveOperator(w, u))
    && (forall i, j :: OneInvitation(w, i, j))
    && (forall i :: InvitationRefers(w, i))
  }

  /** After every commit of every interleaving at least one active operator exists. */
  lemma AnOperatorAlwaysRemains(w: World, actions: seq<Action>)
    requires Quiet(w) && Possible(w, actions)
    ensures exists u :: IsActiveOperator(After(w, actions), u)
  {
    RunKeepsSound(w, actions);
  }

  /** Owners of live domains are active in every state of the run. */
  ghost predicate OwnersActiveThroughout(w: World, actions: seq<Action>)
    requires Possible(w, actions)
    decreases |actions|
  {
    OwnersActive(w) && (actions != [] ==> OwnersActiveThroughout(Do(w, actions[0]), actions[1..]))
  }

  /** Every registration of the run commits while its actor is active. */
  ghost predicate TimelyThroughout(w: World, actions: seq<Action>)
    requires Possible(w, actions)
    decreases |actions|
  {
    actions != [] ==> Timely(w, actions[0]) && TimelyThroughout(Do(w, actions[0]), actions[1..])
  }

  lemma {:induction false} RunKeepsOwnersIff(w: World, actions: seq<Action>)
    requires Sound(w) && OwnersActive(w) && Possible(w, actions)
    ensures OwnersActiveThroughout(w, actions) <==> TimelyThroughout(w, actions)
    decreases |actions|
  {
    if actions != [] {
      StepKeepsSound(w, actions[0]);
      StepKeepsOwnersIff(w, actions[0]);
      if Timely(w, actions[0]) {
        RunKeepsOwnersIff(Do(w, actions[0]), actions[1..]);
      }
    }
  }

  /** Under every interleaving of registrations, transfers, deletions and account
      updates, the owners of live domains are active throughout exactly when every
      registration commits while its actor is active. */
  lemma OwnersStayActiveIff(w: World, actions: seq<Action>)
    requires Quiet(w) && OwnersActive(w) && Possible(w, actions)
    ensures OwnersActiveThroughout(w, actions) <==> TimelyThroughout(w, actions)
  {
    RunKeepsOwnersIff(w, actions);
  }

  /** Transfers and account updates alone need no such care: both lock the user's row. */
  lemma {:induction false} OwnersStayActive(w: World, actions: seq<Action>, d: Id)
    requires Sound(w) && OwnersActive(w) && Possible(w, actions)
    requires forall t :: t in w.txs ==> !w.txs[t].Registering?
    requires forall k :: 0 <= k < |actions| && actions[k].Begin? ==> !actions[k].tx.Registering?
    ensures var v := After(w, actions);
            d in v.domains && Live(v.domains[d]) ==>
              v.domains[d].owner in v.users && v.users[v.domains[d].owner].active
    decreases |actions|
  {
    if actions == [] {
      assert OwnerActive(w, d);
    } else {
      var next, rest := Do(w, actions[0]), actions[1..];
      StepKeepsSound(w, actions[0]);
      StepKeepsOwnersIff(w, actions[0]);
      forall t | t in next.txs
        ensures !next.txs[t].Registering?
      {
        KindStays(w, actions[0], t);
      }
      assert forall k :: 0 <= k < |rest| ==> rest[k] == actions[k + 1];
      OwnersStayActive(next, rest, d);
    }
  }

  lemma ReadKeepsKind(w: World, a: Action, t: TxId)
    requires Can(w, a) && IsRead(a) && t in Do(w, a).txs
    ensures t in w.txs && (Do(w, a).txs[t].Registering? ==> w.txs[t].Registering?)
  {
  }

  lemma KindStays(w: World, a: Action, t: TxId)
    requires Can(w, a) && t in Do(w, a).txs
    ensures Do(w, a).txs[t].Registering? ==> (t in w.txs && w.txs[t].Registering?) || (a.Begin? && a.tx.Registering?)
  {
    if IsRead(a) {
      ReadKeepsKind(w, a, t);
    }
  }

  // ---- A registration that overlaps a disable --------------------------------------------------

  const OPERATOR := User(true, true, true)
  const MEMBER := User(true, true, false)

  const NO_RIGHTS := Rights({}, map[], map[])

  /** An operator, a member, and nothing in flight. */
  const BEFORE := World(map[0 := OPERATOR, 1 := MEMBER], map[], map[], NO_RIGHTS, {}, map[], map[], [])

  const REGISTRATION := Registering(1, "example.org")

  /** The operator's update that disables the member. */
  function Disable(seen: Option<User>, phase: Phase): Tx {
    Updating(0, 1, Some(false), None, map[], seen, phase)
  }

  const OVERLAP := [
    Begin(0, REGISTRATION), Begin(1, Disable(None, Scanning)),
    ReadActor(1), ReadTarget(1), CheckDomains(1), Commit(1, 0, 0, 0, 0),
    Commit(0, 0, 0, 0, 0)]

  /** The state of the overlap before its step `k`. */
  function OverlapWorld(k: nat): World {
    match k
    case 0 => BEFORE
    case 1 => BEFORE.(txs := map[0 := REGISTRATION])
    case 2 => BEFORE.(txs := map[0 := REGISTRATION, 1 := Disable(None, Scanning)])
    case 3 => BEFORE.(txs := map[0 := REGISTRATION, 1 := Disable(None, ActorRead)], locks := map[UserRow(0) := 1])
    case 4 => BEFORE.(txs := map[0 := REGISTRATION, 1 := Disable(Some(MEMBER), TargetRead)],
                      locks := map[UserRow(0) := 1, UserRow(1) := 1])
    case 5 => BEFORE.(txs := map[0 := REGISTRATION, 1 := Disable(Some(MEMBER), Ready)],
                      locks := map[UserRow(0) := 1, UserRow(1) := 1])
    case 6 => BEFORE.(users := map[0 := OPERATOR, 1 := MEMBER.(active := false)],
                      txs := map[0 := REGISTRATION], log := [Disabled(1, {})])
    case _ => BEFORE.(users := map[0 := OPERATOR, 1 := MEMBER.(active := false)], log := [Disabled(1, {})],
                      domains := map[0 := Domain("example.org", Some("example.org"), 1, AwaitingApproval, None)])
  }

  lemma DisableOfUninvited(w: World, t: TxId, tx: Tx, now: int, newId: Id, token: nat, expiresAt: int)
    requires MayCommit(w, t, tx, newId) && tx.Updating? && Sets(tx.active, false)
    requires forall i :: i in w.invitations ==> w.invitations[i].user != tx.target
    ensures Committed(w, t, tx, now, newId, token, expiresAt).log == w.log + [Disabled(tx.target, {})]
  {
    assert Committed(w, t, tx, now, newId, token, expiresAt).log[|w.log|].existing == {};
  }

  lemma DisableCommits()
    ensures Can(OverlapWorld(5), OVERLAP[5]) && Do(OverlapWorld(5), OVERLAP[5]) == OverlapWorld(6)
  {
    var w, tx := OverlapWorld(5), Disable(Some(MEMBER), Ready);
    assert Deleted(w, tx) == {} && w.invitations - {} == map[];
    DisableOfUninvited(w, 1, tx, 0, 0, 0, 0);
    var committed := Committed(w, 1, tx, 0, 0, 0, 0);
    assert committed.users == OverlapWorld(6).users;
    var ended := Ended(committed, 1);
    assert ended.txs == OverlapWorld(6).txs;
    assert ended.locks == OverlapWorld(6).locks;
  }

  lemma OverlapStep(k: nat)
    requires k < 7
    ensures Can(OverlapWorld(k), OVERLAP[k]) && Do(OverlapWorld(k), OVERLAP[k]) == OverlapWorld(k + 1)
  {
    if k == 5 {
      DisableCommits();
    }
  }

  lemma {:induction false} OverlapFrom(k: nat)
    requires k <= 7
    ensures Possible(OverlapWorld(k), OVERLAP[k..]) && After(OverlapWorld(k), OVERLAP[k..]) == OverlapWorld(7)
    decreases 7 - k
  {
    if k < 7 {
      OverlapStep(k);
      OverlapFrom(k + 1);
      assert OVERLAP[k..][0] == OVERLAP[k] && OVERLAP[k..][1..] == OVERLAP[k + 1..];
    }
  }

  /** Registering a domain reads its owner without a lock. Here the disable commits
      between that read and the insert, and the new domain's owner is inactive. */
  lemma OverlappingRegistrationLosesItsOwner()
    ensures Quiet(BEFORE) && OwnersActive(BEFORE) && Possible(BEFORE, OVERLAP)
    ensures var v := After(BEFORE, OVERLAP);
            && v.txs == map[]
            && 0 in v.domains && Live(v.domains[0]) && v.domains[0].owner == 1
            && 1 in v.users && !v.users[1].active
            && !OwnerActive(v, 0)
  {
    assert IsActiveOperator(BEFORE, 0);
    assert OVERLAP[0..] == OVERLAP;
    OverlapFrom(0);
  }

  // ---- Invitations over every run ----------------------------------------------------------------

  /** Under every interleaving a user has at most one invitation row. */
  lemma OneInvitationPerUser(w: World, actions: seq<Action>, i: Id, j: Id)
    requires Quiet(w) && Possible(w, actions)
    ensures var v := After(w, actions);
            i in v.invitations && j in v.invitations && v.invitations[i].user == v.invitations[j].user ==> i == j
  {
    RunKeepsSound(w, actions);
    assert OneInvitation(After(w, actions), i, j);
  }

  /** Under every interleaving of accepting, reissuing, revoking and disabling, for
      any two committed facts in order: no invitation is accepted twice, no user sets
      a password through invitations twice, and no invitation that existed when a
      disable committed is accepted after it. */
  lemma InvitationsAreUsedOnce(w: World, actions: seq<Action>, a: nat, b: nat)
    requires Quiet(w) && Possible(w, actions)
    requires a < b < |After(w, actions).log|
    ensures var log := After(w, actions).log;
            && (log[a].AcceptedBy? && log[b].AcceptedBy? ==>
                  log[a].invitation != log[b].invitation && log[a].user != log[b].user)
            && (log[a].Disabled? && log[b].AcceptedBy? ==> log[b].invitation !in log[a].existing)
  {
    RunKeepsSound(w, actions);
    assert FactsAgree(After(w, actions).log[a], After(w, actions).log[b]);
  }

  // ---- Revoked and expired invitations ----------------------------------------------------------

  /** The moment an action takes as now, if it looks at the clock. */
  function Clock(a: Action): Option<int> {
    match a
    case ReadInvitation(_, now) => Some(now)
    case Commit(_, now, _, _, _) => Some(now)
    case _ => None
  }

  /** An invitation that is used, gone or over by `clock`, and that nobody is about to accept. */
  ghost predicate Barred(w: World, i: Id, clock: int) {
    && i in w.issued
    && (i in w.invitations ==> w.invitations[i].usedAt.Some? || w.invitations[i].expiresAt <= clock)
    && forall t :: t in w.txs && w.txs[t].Accepting? && w.txs[t].invitation == i ==> w.txs[t].found.None?
  }

  /** A revocation bars its invitation the moment it commits: it held the row's lock,
      so no acceptance was under way on it. */
  lemma RevocationBars(w: World, a: Action)
    requires Sound(w) && Can(w, a) && a.Commit? && w.txs[a.t].Revoking?
    ensures Barred(Do(w, a), w.txs[a.t].invitation, a.now)
  {
    var i := w.txs[a.t].invitation;
    assert TxSound(w, a.t) && InvitationRefers(w, i);
    forall t | t in w.txs && t != a.t && w.txs[t].Accepting? && w.txs[t].invitation == i
      ensures w.txs[t].found.None?
    {
      assert TxSound(w, t);
    }
  }

  ghost predicate ClockAdvances(actions: seq<Action>, clock: int)
    decreases |actions|
  {
    actions != [] ==>
      && (Clock(actions[0]).Some? ==> clock <= Clock(actions[0]).value)
      && ClockAdvances(actions[1..], if Clock(actions[0]).Some? then Clock(actions[0]).value else clock)
  }

  /** A commit leaves the invitation used, gone or over, and is not its acceptance. */
  lemma CommittedKeepsBarred(w: World, t: TxId, tx: Tx, a: Action, i: Id, clock: int)
    requires a.Commit? && MayCommit(w, t, tx, a.newId) && Barred(w, i, clock) && clock <= a.now
    requires t in w.txs && w.txs[t] == tx
    ensures var w' := Committed(w, t, tx, a.now, a.newId, a.token, a.expiresAt);
            && i in w'.issued && w'.txs == w.txs
            && (i in w'.invitations ==> w'.invitations[i].usedAt.Some? || w'.invitations[i].expiresAt <= a.now)
            && (w'.log == w.log || (w'.log == w.log + [w'.log[|w.log|]]
                && (w'.log[|w.log|].AcceptedBy? ==> w'.log[|w.log|].invitation != i)))
  {
  }

  lemma CommitKeepsBarred(w: World, a: Action, i: Id, clock: int)
    requires Can(w, a) && a.Commit? && Barred(w, i, clock) && clock <= a.now
    ensures Barred(Do(w, a), i, a.now)
    ensures Do(w, a).log != w.log && Do(w, a).log[|w.log|].AcceptedBy? ==> Do(w, a).log[|w.log|].invitation != i
  {
    CommittedKeepsBarred(w, a.t, w.txs[a.t], a, i, clock);
  }

  lemma StepKeepsBarred(w: World, a: Action, i: Id, clock: int)
    requires Can(w, a) && Barred(w, i, clock)
    requires Clock(a).Some? ==> clock <= Clock(a).value
    ensures Barred(Do(w, a), i, if Clock(a).Some? then Clock(a).value else clock)
    ensures Do(w, a).log != w.log && Do(w, a).log[|w.log|].AcceptedBy? ==> Do(w, a).log[|w.log|].invitation != i
  {
    if a.Commit? {
      CommitKeepsBarred(w, a, i, clock);
    }
  }

  /** A barred invitation is never accepted, whatever runs afterwards. */
  lemma {:induction false} BarredIsNeverAccepted(w: World, actions: seq<Action>, i: Id, clock: int, k: nat)
    requires Possible(w, actions) && Barred(w, i, clock) && ClockAdvances(actions, clock)
    requires |w.log| <= k < |After(w, actions).log|
    ensures |w.log| <= |After(w, actions).log| && After(w, actions).log[..|w.log|] == w.log
    ensures After(w, actions).log[k].AcceptedBy? ==> After(w, actions).log[k].invitation != i
    decreases |actions|
  {
    LogOnlyGrows(w, actions);
    if actions != [] {
      var a := actions[0];
      var next := Do(w, a);
      StepKeepsBarred(w, a, i, clock);
      LogOnlyGrows(next, actions[1..]);
      if k >= |next.log| {
        BarredIsNeverAccepted(next, actions[1..], i, if Clock(a).Some? then Clock(a).value else clock, k);
      } else {
        assert next.log != w.log && k == |w.log|;
        assert After(w, actions).log[k] == next.log[k];
      }
    }
  }

  lemma {:induction false} LogOnlyGrows(w: World, actions: seq<Action>)
    requires Possible(w, actions)
    ensures |w.log| <= |After(w, actions).log| && After(w, actions).log[..|w.log|] == w.log
    decreases |actions|
  {
    if actions != [] {
      var next := Do(w, actions[0]);
      assert next.log[..|w.log|] == w.log;
      LogOnlyGrows(next, actions[1..]);
      assert After(w, actions).log[..|w.log|] == After(w, actions).log[..|next.log|][..|w.log|];
    }
  }
}

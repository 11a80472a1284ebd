// One DATA command from the client's side: record the attempt, relay it once,
// record how it ended, reply. Covers `handle_DATA`, `relay` and `_finalize`.

module Relay {

  import opened Upstream
  import opened Replies
  import opened Wrappers

  type AttemptId = nat

  datatype Status = Pending | Accepted | Failed | Unknown

  datatype Note = Note(code: int, stage: string, message: string)

  datatype Row = Row(status: Status, note: Option<Note>, createdAt: int, updatedAt: int)

  type Attempts = map<AttemptId, Row>

  /** A commit may take effect and still be reported as an error. */
  datatype CommitCall = Committed | CommittedThenRaised(fault: Fault) | RolledBack(fault: Fault)

  /** The outside answers to one relayed message. */
  datatype RelayScript = RelayScript(prepare: CommitCall, factory: Call, session: Script, finalize: CommitCall)

  datatype RelayEnd =
    | Relayed(code: int)
    | RelayFailed(failure: Failure, recorded: bool)  // `recorded`: the exception carries the attempt id

  // ---- The attempt table ------------------------------------------------------------

  function Inserted(rows: Attempts, id: AttemptId, now: int, commit: CommitCall): Attempts {
    if commit.RolledBack? then rows else rows[id := Row(Pending, None, now, now)]
  }

  function CommitResult(commit: CommitCall): Call {
    if commit.Committed? then Done else Raises(commit.fault)
  }

  function Finalized(rows: Attempts, id: AttemptId, status: Status, note: Option<Note>, now: int,
                     commit: CommitCall): Attempts
  {
    if id !in rows || commit.RolledBack? then rows
    else rows[id := Row(status, note, rows[id].createdAt, now)]
  }

  /** The last write of an attempt keeps its creation time and stamps the change. */
  lemma FinalWriteKeepsCreation(rows: Attempts, id: AttemptId, status: Status, note: Option<Note>, now: int,
                                commit: CommitCall)
    requires id in rows && !commit.RolledBack?
    ensures var after := Finalized(rows, id, status, note, now, commit);
            && after.Keys == rows.Keys
            && after[id].status == status && after[id].note == note
            && after[id].createdAt == rows[id].createdAt && after[id].updatedAt == now
            && (forall other :: other in rows && other != id ==> after[other] == rows[other])
  {
  }

  /** How `_finalize` returns: a row that is gone is an error of its own. */
  function FinalizeResult(present: bool, commit: CommitCall): Call {
    if !present && !commit.RolledBack? then Raises(Other) else CommitResult(commit)
  }

  const TEN_MINUTES: int := 600
  const DAY: int := 86_400

  const ABANDONED := Note(0, "relay", "Relay stopped before recording a final result")

  /** Maintenance: attempts pending for over ten minutes become unknown, then
      attempts older than the retention period are deleted. Times in seconds. */
  function Swept(rows: Attempts, now: int, retentionDays: int): Attempts {
    map id | id in rows && rows[id].createdAt >= now - retentionDays * DAY ::
      if rows[id].status == Pending && rows[id].updatedAt < now - TEN_MINUTES
      then Row(Unknown, Some(ABANDONED), rows[id].createdAt, now)
      else rows[id]
  }

  // ---- What relaying comes to ---------------------------------------------------------

  /** Why nothing reached DATA after the attempt was recorded, if nothing did. */
  ghost function StopsBefore(recipients: seq<string>, s: RelayScript): Option<Failure> {
    if s.factory.Raises? then Some(Raised(s.factory.fault))
    else if s.session.connect.Raises? then Some(Raised(s.session.connect.fault))
    else StopsBeforeData(recipients, s.session)
  }

  predicate NeverConnects(s: RelayScript) {
    s.factory.Raises? || s.session.connect.Raises?
  }

  function Surfaced(failure: Failure): Failure {
    if failure == Raised(Cancelled) then TimedOut else failure
  }

  /** What is left of an outcome once the session is closed: an exception of the
      closing would replace it, without an attempt id. */
  function Closed(end: RelayEnd, closing: Call): RelayEnd {
    if closing.Raises? then RelayFailed(Raised(closing.fault), false) else end
  }

  ghost function RelayOutcome(recipients: seq<string>, s: RelayScript): RelayEnd {
    if !s.prepare.Committed? then RelayFailed(Raised(s.prepare.fault), false)
    else if NeverConnects(s) then RelayFailed(Surfaced(StopsBefore(recipients, s).value), true)
    else Closed(TransactionOutcome(recipients, s), AfterQuit(s.session.quit))
  }

  /** How the upstream transaction ended, before the session is closed. */
  ghost function TransactionOutcome(recipients: seq<string>, s: RelayScript): RelayEnd {
    var stop := StopsBefore(recipients, s);
    if stop.Some? then RelayFailed(Surfaced(stop.value), true) else DataOutcome(s.session.data)
  }

  function DataOutcome(data: DataCall): RelayEnd {
    match DataVerdict(data)
    case Success(code) => Relayed(code)
    case Failure(failure) => RelayFailed(Surfaced(failure), true)
  }

  ghost function RelayCommands(recipients: seq<string>, s: RelayScript): seq<Event> {
    if !s.prepare.Committed? || NeverConnects(s) then []
    else [Connected] + Commands(recipients, s.session) + [QuitSent(s.session.quit)]
  }

  datatype Verdict = Verdict(status: Status, note: Option<Note>)

  datatype Plan =
    | Plan(verdict: Option<Verdict>, guard: Guard, reply: Reply)
    | Propagate   // the cancellation leaves the handler

  datatype Ended = Replied(reply: Reply) | Aborted

  const DATA_REJECTED := "Upstream SMTP rejected message data"

  /** What the handler records and replies once relaying has ended. */
  function PlanFor(end: RelayEnd): Plan {
    match end
    case Relayed(code) =>
      if Positive(code) then
        Plan(Some(Verdict(Accepted, None)), SwallowAll, Reply(250, "2.0.0", "Message accepted by upstream"))
      else
        var reported := if 400 <= code <= 599 then code else DEFAULT_CODE;
        Plan(Some(Verdict(Failed, Some(Note(code, "data", DATA_REJECTED)))), SwallowNone,
             Reply(reported, EnhancedStatus(reported), DATA_REJECTED))
    case RelayFailed(Raised(Cancelled), _) => Propagate
    case RelayFailed(Uncertain, recorded) =>
      Plan(if recorded then Some(Verdict(Unknown, Some(Note(451, "data", "Delivery result is unknown")))) else None,
           SwallowExceptions, Reply(451, "4.4.2", "Upstream delivery result is unknown"))
    case RelayFailed(failure, recorded) =>
      var reply := FailureReply(failure);
      Plan(if recorded then Some(Verdict(Failed, Some(Note(reply.code, "upstream", reply.text)))) else None,
           SwallowExceptions, reply)
  }

  /** How the handler ends, given how the final log write returned. */
  function Finish(plan: Plan, written: Call): Ended {
    match plan
    case Propagate => Aborted
    case Plan(_, guard, reply) =>
      var left := Guarded(guard, written);
      if left.Done? then Replied(reply)
      else if left.fault.Cancelled? then Aborted
      else Replied(FailureReply(Raised(left.fault)))
  }

  datatype Submission = Submission(authenticated: bool, hasContent: bool, headersMatch: bool) {
    /** The reply given before anything is relayed, if any. */
    function EarlyReply(): Option<Reply> {
      if !authenticated then Some(Reply(530, "5.7.0", "Authentication required"))
      else if !hasContent then Some(Reply(451, "4.3.0", "Message content unavailable"))
      else if !headersMatch then Some(Reply(550, "5.7.1", "From or Sender header does not match MAIL FROM"))
      else None
    }
  }

  ghost function HandleOutcome(sub: Submission, recipients: seq<string>, s: RelayScript): Ended {
    if sub.EarlyReply().Some? then Replied(sub.EarlyReply().value)
    else
      var plan := PlanFor(RelayOutcome(recipients, s));
      Finish(plan, if plan.Plan? && plan.verdict.Some? then FinalizeResult(true, s.finalize) else Done)
  }

  ghost function HandleRows(rows: Attempts, id: AttemptId, now: int, sub: Submission, recipients: seq<string>,
                            s: RelayScript): Attempts
  {
    if sub.EarlyReply().Some? then rows
    else
      var prepared := Inserted(rows, id, now, s.prepare);
      var plan := PlanFor(RelayOutcome(recipients, s));
      if plan.Plan? && plan.verdict.Some?
      then Finalized(prepared, id, plan.verdict.value.status, plan.verdict.value.note, now, s.finalize)
      else prepared
  }

  /** What the upstream server sees of one DATA command. */
  ghost function HandleCommands(sub: Submission, recipients: seq<string>, s: RelayScript): seq<Event> {
    if sub.EarlyReply().Some? then [] else RelayCommands(recipients, s)
  }

  // ---- What the client is told ----------------------------------------------------------

  /** The attempt was recorded and the upstream transaction got as far as DATA. */
  ghost predicate ReachesData(recipients: seq<string>, s: RelayScript) {
    && s.prepare == Committed && s.factory == Done && s.session.connect == Done
    && s.session.mail == Done && s.session.reauthorize == Done
    && forall i :: 0 <= i < |recipients| ==>
         !s.session.Rcpt(i).Broken? && 200 <= s.session.Rcpt(i).code <= 299
  }

  /** An authenticated message with matching headers reached DATA, and the upstream
      server answered it with a 2xx response. */
  ghost predicate UpstreamAccepted(sub: Submission, recipients: seq<string>, s: RelayScript) {
    && sub.authenticated && sub.hasContent && sub.headersMatch
    && ReachesData(recipients, s)
    && s.session.data.Response? && 200 <= s.session.data.code <= 299
  }

  /** What is refused before anything is relayed, and how. */
  lemma UncheckedIsRefused(sub: Submission, recipients: seq<string>, s: RelayScript)
    ensures var end := HandleOutcome(sub, recipients, s);
            && (!sub.authenticated ==> end == Replied(Reply(530, "5.7.0", "Authentication required")))
            && (sub.authenticated && !sub.hasContent ==>
                  end == Replied(Reply(451, "4.3.0", "Message content unavailable")))
            && (sub.authenticated && sub.hasContent && !sub.headersMatch ==>
                  end == Replied(Reply(550, "5.7.1", "From or Sender header does not match MAIL FROM")))
  {
  }

  /** Nothing is recorded, sent or accepted for a message that is not from an
      authenticated client, has no content, or whose headers do not match. */
  lemma NothingHappensUnchecked(rows: Attempts, id: AttemptId, now: int, sub: Submission, recipients: seq<string>,
                                s: RelayScript)
    requires !(sub.authenticated && sub.hasContent && sub.headersMatch)
    ensures HandleRows(rows, id, now, sub, recipients, s) == rows
    ensures HandleCommands(sub, recipients, s) == []
    ensures var end := HandleOutcome(sub, recipients, s); end.Replied? && 400 <= end.reply.code <= 599
  {
  }

  lemma ReachesDataUnlessStopped(recipients: seq<string>, s: RelayScript)
    ensures ReachesData(recipients, s) <==> s.prepare.Committed? && StopsBefore(recipients, s) == None
  {
    ReachesDataIff(recipients, s.session);
  }

  /** For every pattern of errors and cancellations the client is told 250 exactly
      when the upstream DATA call returned a 2xx response. */
  lemma SuccessIffUpstreamAccepted(sub: Submission, recipients: seq<string>, s: RelayScript)
    ensures (HandleOutcome(sub, recipients, s).Replied? && HandleOutcome(sub, recipients, s).reply.code == 250)
       <==> UpstreamAccepted(sub, recipients, s)
  {
    ReachesDataUnlessStopped(recipients, s);
  }

  /** The upstream server saw DATA and answered it with a 2xx response. */
  ghost predicate SawAcceptedData(commands: seq<Event>) {
    exists i :: 0 <= i < |commands| && commands[i].DataSent?
                && commands[i].outcome.Response? && 200 <= commands[i].outcome.code <= 299
  }

  lemma AcceptedDataAmong(sent: seq<Event>, reached: bool, data: DataCall, quit: Call)
    requires (exists i :: 0 <= i < |sent| && sent[i].DataSent?) <==> reached
    requires forall i :: 0 <= i < |sent| && sent[i].DataSent? ==> sent[i] == DataSent(data)
    ensures SawAcceptedData([Connected] + sent + [QuitSent(quit)]) <==>
            reached && data.Response? && Positive(data.code)
  {
    var all := [Connected] + sent + [QuitSent(quit)];
    assert forall i :: 0 <= i < |sent| ==> all[i + 1] == sent[i];
    assert forall i :: 1 <= i <= |sent| ==> all[i] == sent[i - 1];
  }

  lemma CommandsShowTheAnswer(recipients: seq<string>, s: RelayScript)
    requires s.prepare.Committed? && !NeverConnects(s)
    ensures SawAcceptedData(RelayCommands(recipients, s)) <==>
            StopsBefore(recipients, s) == None && s.session.data.Response? && Positive(s.session.data.code)
  {
    DataSentUnlessStopped(recipients, s.session);
    forall i | 0 <= i < |Commands(recipients, s.session)| && Commands(recipients, s.session)[i].DataSent?
      ensures Commands(recipients, s.session)[i] == DataSent(s.session.data)
    {
      SentDataGotTheAnswer(recipients, s.session, i);
    }
    AcceptedDataAmong(Commands(recipients, s.session), StopsBeforeData(recipients, s.session) == None,
                      s.session.data, s.session.quit);
  }

  /** The same in terms of what the upstream server saw: the client is told 250
      exactly when DATA is among its commands with a 2xx response. */
  lemma SuccessIffUpstreamSawIt(sub: Submission, recipients: seq<string>, s: RelayScript)
    ensures var end := HandleOutcome(sub, recipients, s);
            (end.Replied? && end.reply.code == 250 <==> SawAcceptedData(HandleCommands(sub, recipients, s)))
  {
    SuccessIffUpstreamAccepted(sub, recipients, s);
    ReachesDataUnlessStopped(recipients, s);
    if s.prepare.Committed? && !NeverConnects(s) {
      CommandsShowTheAnswer(recipients, s);
    }
  }

  lemma PlannedReplyIsProper(end: RelayEnd)
    ensures var plan := PlanFor(end);
            plan.Plan? ==> ClassMatches(plan.reply) && (plan.reply.code == 250 || 400 <= plan.reply.code <= 599)
  {
  }

  /** Whatever else happens, the reply is a failure with a matching status class. */
  lemma EveryOtherReplyIsAFailure(sub: Submission, recipients: seq<string>, s: RelayScript)
    ensures var end := HandleOutcome(sub, recipients, s);
            end.Replied? ==>
              ClassMatches(end.reply) && (end.reply.code == 250 || 400 <= end.reply.code <= 599)
  {
    PlannedReplyIsProper(RelayOutcome(recipients, s));
  }

  /** An upstream acceptance survives everything that follows it: the QUIT, the
      log write, a timeout or a cancellation in either. */
  lemma NothingAfterAcceptanceMatters(sub: Submission, recipients: seq<string>, s: RelayScript,
                                      quit: Call, finalize: CommitCall)
    requires UpstreamAccepted(sub, recipients, s)
    ensures HandleOutcome(sub, recipients, s.(session := s.session.(quit := quit), finalize := finalize))
         == Replied(Reply(250, "2.0.0", "Message accepted by upstream"))
  {
    var t := s.(session := s.session.(quit := quit), finalize := finalize);
    assert forall i: nat :: t.session.Rcpt(i) == s.session.Rcpt(i);
    ReachesDataUnlessStopped(recipients, t);
  }

  /** When the log writes go through, the row says what happened: accepted exactly
      when the upstream accepted, unknown exactly when DATA was cut off, failed
      otherwise, with the reply's code unless the upstream refused the data itself. */
  lemma OutcomeIsRecorded(rows: Attempts, id: AttemptId, now: int, sub: Submission, recipients: seq<string>,
                          s: RelayScript)
    requires sub.authenticated && sub.hasContent && sub.headersMatch && s.prepare.Committed? && s.finalize.Committed?
    ensures var after := HandleRows(rows, id, now, sub, recipients, s);
            var end := HandleOutcome(sub, recipients, s);
            var data := s.session.data;
            var refused := ReachesData(recipients, s) && data.Response? && !(200 <= data.code <= 299);
            && id in after && end.Replied?
            && after[id].createdAt == now && after[id].updatedAt == now
            && (UpstreamAccepted(sub, recipients, s) ==> after[id] == Row(Accepted, None, now, now))
            && (CutOff(recipients, s) ==>
                  && after[id] == Row(Unknown, Some(Note(451, "data", "Delivery result is unknown")), now, now)
                  && end == Replied(Reply(451, "4.4.2", "Upstream delivery result is unknown")))
            && (refused ==>
                  && after[id] == Row(Failed, Some(Note(data.code, "data", "Upstream SMTP rejected message data")), now, now)
                  && end.reply.code == (if 400 <= data.code <= 599 then data.code else 451)
                  && end.reply.text == "Upstream SMTP rejected message data")
            && (!UpstreamAccepted(sub, recipients, s) && !CutOff(recipients, s) && !refused ==>
                  after[id] == Row(Failed, Some(Note(end.reply.code, "upstream", end.reply.text)), now, now))
            && (forall other :: other in rows && other != id ==> other in after && after[other] == rows[other])
  {
    ReachesDataUnlessStopped(recipients, s);
  }

  /** DATA began, and then the connection was lost or the handler was cancelled. */
  ghost predicate CutOff(recipients: seq<string>, s: RelayScript) {
    ReachesData(recipients, s)
    && (s.session.data == NoResponse(Cancelled) || s.session.data == NoResponse(Disconnected)
        || s.session.data == NoResponse(CutShort))
  }

  /** A cut-off delivery is never recorded as failed, whatever the log write does. */
  lemma CutOffIsUnknown(rows: Attempts, id: AttemptId, now: int, sub: Submission, recipients: seq<string>,
                        s: RelayScript)
    requires sub.authenticated && sub.hasContent && sub.headersMatch && CutOff(recipients, s)
    ensures var after := HandleRows(rows, id, now, sub, recipients, s);
            id in after && after[id].status == if s.finalize.RolledBack? then Pending else Unknown
    ensures var end := HandleOutcome(sub, recipients, s);
            end == if !s.finalize.Committed? && s.finalize.fault.Cancelled? then Aborted
                   else Replied(Reply(451, "4.4.2", "Upstream delivery result is unknown"))
  {
    ReachesDataUnlessStopped(recipients, s);
  }

  /** The handler gives no reply exactly when it is cancelled while recording the
      attempt, or while recording how it failed. */
  lemma AbortedIff(sub: Submission, recipients: seq<string>, s: RelayScript)
    ensures HandleOutcome(sub, recipients, s) == Aborted <==>
            && sub.authenticated && sub.hasContent && sub.headersMatch
            && if s.prepare.Committed?
               then !UpstreamAccepted(sub, recipients, s) && !s.finalize.Committed? && s.finalize.fault.Cancelled?
               else s.prepare.fault.Cancelled?
  {
    ReachesDataUnlessStopped(recipients, s);
  }

  /** The reply to a delivery that failed before DATA or whose DATA call raised, unless
      the handler was cancelled: what its cause alone gives. */
  lemma FailureIsReported(sub: Submission, recipients: seq<string>, s: RelayScript)
    requires sub.authenticated && sub.hasContent && sub.headersMatch
    requires HandleOutcome(sub, recipients, s).Replied?
    ensures var reply := HandleOutcome(sub, recipients, s).reply;
            && (!s.prepare.Committed? ==> reply == FailureReply(Raised(s.prepare.fault)))
            && (s.prepare.Committed? && StopsBefore(recipients, s).Some? ==>
                  reply == if StopsBefore(recipients, s).value == Raised(Cancelled)
                           then Reply(451, "4.0.0", "Temporary upstream delivery failure")
                           else FailureReply(StopsBefore(recipients, s).value))
            && (ReachesData(recipients, s) && !CutOff(recipients, s) && s.session.data.NoResponse? ==>
                  reply == FailureReply(Raised(s.session.data.fault)))
            && ((ReachesData(recipients, s) && s.session.data.Response? && !(200 <= s.session.data.code <= 299)
                 && !s.finalize.Committed?) ==> reply == FailureReply(Raised(s.finalize.fault)))
  {
    ReachesDataUnlessStopped(recipients, s);
  }

  /** What the log holds when a write does not go through: nothing without the first
      commit, a pending row without the last. */
  lemma RowsWithoutAWrite(rows: Attempts, id: AttemptId, now: int, sub: Submission, recipients: seq<string>,
                          s: RelayScript)
    requires sub.authenticated && sub.hasContent && sub.headersMatch
    ensures var after := HandleRows(rows, id, now, sub, recipients, s);
            && (s.prepare.RolledBack? ==> after == rows)
            && (s.prepare.CommittedThenRaised? || (s.prepare.Committed? && s.finalize.RolledBack?) ==>
                  after == rows[id := Row(Pending, None, now, now)])
  {
  }

  /** The upstream session of a recorded message: nothing when no connection came about,
      else a connection first, one QUIT at the end, and the delivery in between. */
  lemma SessionIsOpenedAndClosed(sub: Submission, recipients: seq<string>, s: RelayScript)
    ensures var trace := HandleCommands(sub, recipients, s);
            if sub.authenticated && sub.hasContent && sub.headersMatch
               && s.prepare == Committed && s.factory == Done && s.session.connect == Done
            then
              && |trace| >= 2 && trace[0] == Connected && trace[|trace| - 1] == QuitSent(s.session.quit)
              && trace[1..|trace| - 1] == Commands(recipients, s.session)
              && (forall i :: 0 <= i < |trace| - 1 ==> !trace[i].QuitSent?)
            else trace == []
  {
    NoQuitInside(recipients, s.session);
  }

  lemma NoQuitInside(recipients: seq<string>, s: Script)
    ensures forall i :: 0 <= i < |Commands(recipients, s)| ==> !Commands(recipients, s)[i].QuitSent?
  {
  }

  // ---- The service and its handler ---------------------------------------------------------

  class RelayService {
    var attempts: Attempts

    constructor ()
      ensures attempts == map[]
    {
      attempts := map[];
    }

    method PrepareAttempt(id: AttemptId, now: int, commit: CommitCall) returns (r: Call)
      modifies this
      ensures attempts == Inserted(old(attempts), id, now, commit)
      ensures r == CommitResult(commit)
    {
      if commit.RolledBack? {
        return Raises(commit.fault);
      }
      attempts := attempts[id := Row(Pending, None, now, now)];
      return if commit.Committed? then Done else Raises(commit.fault);
    }

    method Finalize(id: AttemptId, status: Status, note: Option<Note>, now: int, commit: CommitCall)
      returns (r: Call)
      modifies this
      ensures attempts == Finalized(old(attempts), id, status, note, now, commit)
      ensures r == FinalizeResult(id in old(attempts), commit)
    {
      if commit.RolledBack? {
        return Raises(commit.fault);
      }
      if id !in attempts {
        return Raises(Other);   // "send attempt disappeared"
      }
      var row := attempts[id];
      row := row.(status := status);
      row := row.(note := note);
      row := row.(updatedAt := now);
      attempts := attempts[id := row];
      return if commit.Committed? then Done else Raises(commit.fault);
    }

    /** Record the attempt, relay it once, and close the upstream session. */
    method RelayMessage(id: AttemptId, now: int, recipients: seq<string>, s: RelayScript)
      returns (end: RelayEnd, ghost commands: seq<Event>)
      modifies this
      ensures attempts == Inserted(old(attempts), id, now, s.prepare)
      ensures end == RelayOutcome(recipients, s)
      ensures commands == RelayCommands(recipients, s)
    {
      commands := [];
      var prepared := PrepareAttempt(id, now, s.prepare);
      if prepared.Raises? {
        end := RelayFailed(Raised(prepared.fault), false);
        return;
      }
      var inner: Result<DeliveryResult, Failure>;
      var closed := Done;
      if s.factory.Raises? {
        inner := Result.Failure(Raised(s.factory.fault));
      } else {
        var upstream := new UpstreamSession();
        var connected := upstream.Connect(s.session);
        if connected.Raises? {
          inner := Result.Failure(Raised(connected.fault));
        } else {
          inner := upstream.Deliver(recipients, s.session);
        }
        closed := upstream.Close(s.session);
        commands := upstream.trace;
      }
      match inner {
        case Success(result) => end := Relayed(result.code);
        case Failure(failure) =>
          if failure == Raised(Cancelled) {
            end := RelayFailed(TimedOut, true);
          } else {
            end := RelayFailed(failure, true);
          }
      }
      end := Closed(end, closed);
    }

    /** Best effort: nothing the log write raises gets out. */
    method MarkAccepted(id: AttemptId, now: int, commit: CommitCall)
      modifies this
      ensures attempts == Finalized(old(attempts), id, Accepted, None, now, commit)
    {
      var _ := Finalize(id, Accepted, None, now, commit);
    }

    /** Ordinary exceptions are logged; a cancellation gets out. */
    method RecordFailure(id: AttemptId, status: Status, note: Note, now: int, commit: CommitCall)
      returns (cancelled: bool)
      modifies this
      ensures attempts == Finalized(old(attempts), id, status, Some(note), now, commit)
      ensures cancelled == (FinalizeResult(id in old(attempts), commit) == Raises(Cancelled))
    {
      var written := Finalize(id, status, Some(note), now, commit);
      cancelled := written == Raises(Cancelled);
    }

    /** The maintenance pass over this table. */
    method SweepAttempts(now: int, retentionDays: int)
      modifies this
      ensures attempts == Swept(old(attempts), now, retentionDays)
    {
      var stale := set id | id in attempts && attempts[id].status == Pending
                            && attempts[id].updatedAt < now - TEN_MINUTES;
      attempts := map id | id in attempts ::
        if id in stale then Row(Unknown, Some(ABANDONED), attempts[id].createdAt, now) else attempts[id];
      attempts := map id | id in attempts && !(attempts[id].createdAt < now - retentionDays * DAY) :: attempts[id];
    }

    /** `handle_DATA`, with no other transaction touching this attempt's row. */
    method HandleData(id: AttemptId, now: int, sub: Submission, recipients: seq<string>, s: RelayScript)
      returns (end: Ended, ghost commands: seq<Event>)
      requires id !in attempts
      modifies this
      ensures end == HandleOutcome(sub, recipients, s)
      ensures end.Replied? && end.reply.code == 250 <==> UpstreamAccepted(sub, recipients, s)
      ensures attempts == HandleRows(old(attempts), id, now, sub, recipients, s)
      ensures commands == HandleCommands(sub, recipients, s)
    {
      commands := [];
      if !sub.authenticated {
        return Replied(Reply(530, "5.7.0", "Authentication required")), [];
      }
      if !sub.hasContent {
        return Replied(Reply(451, "4.3.0", "Message content unavailable")), [];
      }
      if !sub.headersMatch {
        return Replied(Reply(550, "5.7.1", "From or Sender header does not match MAIL FROM")), [];
      }
      var relayed;
      relayed, commands := RelayMessage(id, now, recipients, s);
      match relayed {
        case Relayed(code) =>
          if 200 <= code < 300 {
            MarkAccepted(id, now, s.finalize);
            return Replied(Reply(250, "2.0.0", "Message accepted by upstream")), commands;
          }
          var written := Finalize(id, Failed, Some(Note(code, "data", DATA_REJECTED)), now, s.finalize);
          if written.Raises? {
            if written.fault.Cancelled? {
              return Aborted, commands;
            }
            // The exception of the log write is handled like any other failure,
            // but it carries no attempt id, so nothing more is recorded.
            return Replied(FailureReply(Raised(written.fault))), commands;
          }
          var reported := if 400 <= code <= 599 then code else DEFAULT_CODE;
          return Replied(Reply(reported, EnhancedStatus(reported), DATA_REJECTED)), commands;
        case RelayFailed(failure, recorded) =>
          if failure == Raised(Cancelled) {
            return Aborted, commands;
          }
          var reply, status, note;
          if failure.Uncertain? {
            reply := Reply(451, "4.4.2", "Upstream delivery result is unknown");
            status, note := Unknown, Note(451, "data", "Delivery result is unknown");
          } else {
            reply := FailureReply(failure);
            status, note := Failed, Note(reply.code, "upstream", reply.text);
          }
          if recorded {
            var cancelled := RecordFailure(id, status, note, now, s.finalize);
            if cancelled {
              return Aborted, commands;
            }
          }
          return Replied(reply), commands;
      }
    }
  }
}

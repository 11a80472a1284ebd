// Many deliveries at once, with maintenance passes and crashes in between.
// Each handler advances one awaited stage at a time; the log rows are shared
// with maintenance. Three views of a message are related: what the upstream
// server did, what the log row says, and what the client was told.

module DeliveryRuns {

  import opened Upstream
  import opened Replies
  import opened Relay
  import opened Wrappers

  /** What the upstream server has seen of one message's DATA. */
  datatype Fate = NotBegun | Begun | Concluded(data: DataCall)

  datatype Stage =
    | Arrived            // before the attempt is recorded
    | Recorded           // pending row committed, upstream transaction under way
    | InData             // DATA sent, no answer yet
    | Writing(plan: Plan)
    | Written(end: Ended)     // the last log write is over, the handler has not returned yet
    | Finished(end: Ended)
    | Crashed

  datatype Run = Run(sub: Submission, recipients: seq<string>, script: RelayScript, stage: Stage, fate: Fate)

  datatype World = World(rows: Attempts, runs: map<AttemptId, Run>)

  const EMPTY := World(map[], map[])

  datatype Event =
    | Arrives(id: AttemptId, sub: Submission, recipients: seq<string>, script: RelayScript)
    | Advances(id: AttemptId, now: int)
    | Crashes(id: AttemptId)
    | Maintains(now: int, retentionDays: int)

  predicate Active(stage: Stage) {
    !stage.Finished? && !stage.Crashed?
  }

  /** How the relaying of a recorded message ended, with the session closed. */
  function SessionEnd(run: Run, end: RelayEnd): RelayEnd {
    if NeverConnects(run.script) then end else Closed(end, AfterQuit(run.script.session.quit))
  }

  /** One stage of one handler; only the first and the `Writing` one touch the log. */
  ghost function Moved(rows: Attempts, id: AttemptId, run: Run, now: int): (Attempts, Run)
    requires Active(run.stage)
  {
    match run.stage
    case Arrived =>
      if run.sub.EarlyReply().Some? then
        (rows, run.(stage := Finished(Replied(run.sub.EarlyReply().value))))
      else if run.script.prepare.Committed? then
        (Inserted(rows, id, now, run.script.prepare), run.(stage := Recorded))
      else
        (Inserted(rows, id, now, run.script.prepare),
         run.(stage := Writing(PlanFor(RelayFailed(Raised(run.script.prepare.fault), false)))))
    case Recorded =>
      var stop := StopsBefore(run.recipients, run.script);
      if stop.Some?
      then (rows, run.(stage := Writing(PlanFor(SessionEnd(run, RelayFailed(Surfaced(stop.value), true))))))
      else (rows, run.(stage := InData, fate := Begun))
    case InData =>
      var data := run.script.session.data;
      (rows, run.(stage := Writing(PlanFor(SessionEnd(run, DataOutcome(data)))), fate := Concluded(data)))
    case Writing(plan) =>
      if plan.Plan? && plan.verdict.Some? then
        var written := FinalizeResult(id in rows, run.script.finalize);
        (Finalized(rows, id, plan.verdict.value.status, plan.verdict.value.note, now, run.script.finalize),
         run.(stage := Written(Finish(plan, written))))
      else
        (rows, run.(stage := Written(Finish(plan, Done))))
    case Written(end) => (rows, run.(stage := Finished(end)))
  }

  ghost predicate Enabled(w: World, e: Event) {
    match e
    case Arrives(id, _, _, _) => id !in w.runs && id !in w.rows
    case Advances(id, _) => id in w.runs && Active(w.runs[id].stage)
    case Crashes(id) => id in w.runs && Active(w.runs[id].stage)
    case Maintains(_, _) => true
  }

  ghost function Next(w: World, e: Event): World
    requires Enabled(w, e)
  {
    match e
    case Arrives(id, sub, recipients, script) =>
      w.(runs := w.runs[id := Run(sub, recipients, script, Arrived, NotBegun)])
    case Advances(id, now) =>
      var (rows, run) := Moved(w.rows, id, w.runs[id], now);
      World(rows, w.runs[id := run])
    case Crashes(id) => w.(runs := w.runs[id := w.runs[id].(stage := Crashed)])
    case Maintains(now, retentionDays) => w.(rows := Swept(w.rows, now, retentionDays))
  }

  ghost predicate Possible(w: World, events: seq<Event>)
    decreases |events|
  {
    events != [] ==> Enabled(w, events[0]) && Possible(Next(w, events[0]), events[1..])
  }

  ghost function After(w: World, events: seq<Event>): World
    requires Possible(w, events)
    decreases |events|
  {
    if events == [] then w else After(Next(w, events[0]), events[1..])
  }

  // ---- The machine and the handler agree ---------------------------------------------

  function Remaining(stage: Stage): nat {
    match stage
    case Arrived => 5
    case Recorded => 4
    case InData => 3
    case Writing(_) => 2
    case Written(_) => 1
    case _ => 0
  }

  /** Letting one handler run to its end with nobody else moving. */
  ghost function Alone(rows: Attempts, id: AttemptId, run: Run, now: int): (Attempts, Run)
    decreases Remaining(run.stage)
  {
    if !Active(run.stage) then (rows, run)
    else var (rows', run') := Moved(rows, id, run, now); Alone(rows', id, run', now)
  }

  /** Undisturbed, the staged handler does exactly what `handle_DATA` does. */
  lemma AloneIsTheHandler(rows: Attempts, id: AttemptId, sub: Submission, recipients: seq<string>,
                          script: RelayScript, now: int)
    requires id !in rows
    ensures var (rows', run') := Alone(rows, id, Run(sub, recipients, script, Arrived, NotBegun), now);
            && rows' == HandleRows(rows, id, now, sub, recipients, script)
            && run'.stage == Finished(HandleOutcome(sub, recipients, script))
  {
    var r0 := Run(sub, recipients, script, Arrived, NotBegun);
    if sub.EarlyReply() == None {
      var (rows1, r1) := Moved(rows, id, r0, now);
      if script.prepare.Committed? {
        AloneFromRecorded(rows1, id, r1, now);
        var ended: Run :| && ended.stage.Writing? && ended.script == script
                          && ended.stage.plan == PlanFor(RelayOutcome(recipients, script))
                          && Alone(rows1, id, r1, now) == Alone(rows1, id, ended, now);
        AloneFromWriting(rows1, id, ended, now);
      } else {
        AloneFromWriting(rows1, id, r1, now);
      }
    }
  }

  lemma AloneFromWriting(rows: Attempts, id: AttemptId, run: Run, now: int)
    requires run.stage.Writing?
    ensures var (rows', run') := Moved(rows, id, run, now);
            run'.stage.Written? && Alone(rows, id, run, now) == (rows', run'.(stage := Finished(run'.stage.end)))
  {
    var (rows', run') := Moved(rows, id, run, now);
    var done := run'.(stage := Finished(run'.stage.end));
    assert Alone(rows', id, done, now) == (rows', done);
    assert Alone(rows', id, run', now) == (rows', done);
  }

  /** From its recording on, the machine comes to write what `RelayOutcome` plans. */
  lemma AloneFromRecorded(rows: Attempts, id: AttemptId, run: Run, now: int)
    requires run.stage.Recorded? && run.script.prepare.Committed?
    ensures exists ended: Run ::
              && ended.stage.Writing? && ended.script == run.script
              && ended.stage.plan == PlanFor(RelayOutcome(run.recipients, run.script))
              && Alone(rows, id, run, now) == Alone(rows, id, ended, now)
  {
    var (_, next) := Moved(rows, id, run, now);
    if next.stage.InData? {
      var (_, ended) := Moved(rows, id, next, now);
      assert Alone(rows, id, next, now) == Alone(rows, id, ended, now);
      assert Alone(rows, id, run, now) == Alone(rows, id, ended, now);
    } else {
      assert Alone(rows, id, run, now) == Alone(rows, id, next, now);
    }
  }

  // ---- The three views agree in every reachable state ------------------------------------

  predicate AcceptedBy(fate: Fate) {
    fate.Concluded? && fate.data.Response? && Positive(fate.data.code)
  }

  /** The upstream server answered DATA with an explicit non-2xx code. */
  predicate RefusedBy(fate: Fate) {
    fate.Concluded? && match fate.data
                   case Response(code) => !Positive(code)
                   case NoResponse(Answered(code)) => !Positive(code)
                   case NoResponse(_) => false
  }

  /** The client library raised something that is neither an answer nor a lost connection. */
  predicate OddlyEnded(fate: Fate) {
    fate.Concluded? && match fate.data
                   case Response(_) => false
                   case NoResponse(Answered(code)) => Positive(code)
                   case NoResponse(fault) => fault.Denied? || fault.Invalid? || fault.Other?
  }

  /** The log row against what the upstream server did. */
  predicate RowIsTrue(row: Row, fate: Fate) {
    && (row.status == Accepted ==> AcceptedBy(fate))
    && (row.status == Failed ==> fate.NotBegun? || RefusedBy(fate) || OddlyEnded(fate))
  }

  /** The reply against what the upstream server did. */
  predicate ReplyIsTrue(end: Ended, fate: Fate) {
    && (end.Replied? && end.reply.code == 250 <==> AcceptedBy(fate))
    && (end.Replied? && end.reply.code != 250 ==> 400 <= end.reply.code <= 599)
    && !fate.Begun?
  }

  /** A plan about to be written fits what the upstream server did. */
  ghost predicate PlanFits(run: Run) {
    run.stage.Writing? ==>
      var plan := run.stage.plan;
      || (run.fate == Concluded(run.script.session.data) && plan == PlanFor(DataOutcome(run.script.session.data)))
      || (run.fate.NotBegun?
          && exists failure: Failure, recorded: bool :: !failure.Uncertain? && plan == PlanFor(RelayFailed(failure, recorded)))
  }

  ghost predicate StageFits(run: Run) {
    match run.stage
    case Arrived => run.fate.NotBegun?
    case Recorded => run.fate.NotBegun?
    case InData => run.fate.Begun?
    case Writing(_) => PlanFits(run)
    case Written(end) => ReplyIsTrue(end, run.fate)
    case Finished(end) => ReplyIsTrue(end, run.fate)
    case Crashed => true
  }

  /** The last log write is over, or its process is gone. */
  predicate PastWriting(stage: Stage) {
    stage.Written? || stage.Finished? || stage.Crashed?
  }

  /** The final row and the reply, once there is one, say the same. */
  predicate ReplyMatchesRow(row: Row, stage: Stage) {
    (stage.Written? || stage.Finished?) ==>
      && (row.status == Accepted ==> stage.end == Replied(Reply(250, "2.0.0", "Message accepted by upstream")))
      && (row.status == Failed ==> !(stage.end.Replied? && stage.end.reply.code == 250))
  }

  ghost predicate Agrees(w: World, id: AttemptId) {
    && (id in w.rows ==> id in w.runs && !w.runs[id].stage.Arrived?)
    && (id in w.runs ==> StageFits(w.runs[id]))
    && (id in w.rows && id in w.runs ==>
          var row, run := w.rows[id], w.runs[id];
          && RowIsTrue(row, run.fate)
          && (row.status == Accepted || row.status == Failed ==> PastWriting(run.stage))
          && ReplyMatchesRow(row, run.stage))
  }

  ghost predicate AllAgree(w: World) {
    forall id :: Agrees(w, id)
  }

  lemma WrittenPlanIsTrue(run: Run, present: bool)
    requires PlanFits(run) && run.stage.Writing?
    ensures var plan := run.stage.plan;
            var written := if plan.Plan? && plan.verdict.Some? then FinalizeResult(present, run.script.finalize) else Done;
            && ReplyIsTrue(Finish(plan, written), run.fate)
            && (plan.Plan? && plan.verdict.Some? ==>
                  && RowIsTrue(Row(plan.verdict.value.status, None, 0, 0), run.fate)
                  && plan.verdict.value.status != Pending
                  && (plan.verdict.value.status == Accepted ==>
                        Finish(plan, written) == Replied(Reply(250, "2.0.0", "Message accepted by upstream"))))
  {
  }

  lemma AdvanceKeepsAgreement(w: World, id: AttemptId, now: int)
    requires Agrees(w, id) && Enabled(w, Advances(id, now))
    ensures Agrees(Next(w, Advances(id, now)), id)
  {
    var run := w.runs[id];
    var next := Next(w, Advances(id, now)).runs[id];
    if run.stage.Writing? {
      WrittenPlanIsTrue(run, id in w.rows);
    } else if run.stage.Arrived? && run.sub.EarlyReply() == None && !run.script.prepare.Committed? {
      assert next.stage.plan == PlanFor(RelayFailed(Raised(run.script.prepare.fault), false));
    } else if run.stage.Recorded? && StopsBefore(run.recipients, run.script).Some? {
      var failure := Surfaced(StopsBefore(run.recipients, run.script).value);
      assert SessionEnd(run, RelayFailed(failure, true)) == RelayFailed(failure, true);
      assert next.stage.plan == PlanFor(RelayFailed(failure, true));
    }
  }

  lemma StepKeepsAgreement(w: World, e: Event, id: AttemptId)
    requires AllAgree(w) && Enabled(w, e)
    ensures Agrees(Next(w, e), id)
  {
    assert Agrees(w, id);
    if e.Advances? && e.id == id {
      AdvanceKeepsAgreement(w, id, e.now);
    }
  }

  /** In every reachable state the log row, the reply and the upstream server's
      view of each message agree. */
  lemma {:induction false} ViewsAgree(w: World, events: seq<Event>)
    requires AllAgree(w) && Possible(w, events)
    ensures AllAgree(After(w, events))
    decreases |events|
  {
    if events != [] {
      forall id
        ensures Agrees(Next(w, events[0]), id)
      {
        StepKeepsAgreement(w, events[0], id);
      }
      ViewsAgree(Next(w, events[0]), events[1..]);
    }
  }

  /** The same for every run of an empty log. */
  lemma ViewsAlwaysAgree(events: seq<Event>, id: AttemptId)
    requires Possible(EMPTY, events)
    ensures Agrees(After(EMPTY, events), id)
  {
    ViewsAgree(EMPTY, events);
  }

  /** The ways a DATA call is meant to end: an answer, a refusal with its code, a
      lost connection, or a cancellation. */
  predicate UsualEnding(data: DataCall) {
    match data
    case Response(_) => true
    case NoResponse(Answered(code)) => !Positive(code)
    case NoResponse(fault) => fault.Cancelled? || fault.Disconnected? || fault.CutShort?
  }

  /** A row left as failed after DATA began reflects an explicit refusal exactly
      when the DATA call ended in one of the usual ways. */
  lemma FailedRowIsARefusalIffUsual(w: World, events: seq<Event>, id: AttemptId)
    requires AllAgree(w) && Possible(w, events)
    ensures var v := After(w, events);
            id in v.rows && v.rows[id].status == Failed ==>
              id in v.runs && (v.runs[id].fate.NotBegun? ||
                (v.runs[id].fate.Concluded? && (RefusedBy(v.runs[id].fate) <==> UsualEnding(v.runs[id].fate.data))))
  {
    ViewsAgree(w, events);
    assert Agrees(After(w, events), id);
  }

  /** Over every run, a message whose DATA was cut off by a lost connection or a
      cancellation is never recorded as accepted or failed, nor answered 250. */
  lemma CutOffIsNeverFinal(events: seq<Event>, id: AttemptId, fault: Fault)
    requires Possible(EMPTY, events) && fault in {Cancelled, Disconnected, CutShort}
    requires id in After(EMPTY, events).runs && After(EMPTY, events).runs[id].fate == Concluded(NoResponse(fault))
    ensures var v := After(EMPTY, events);
            && (id in v.rows ==> v.rows[id].status == Pending || v.rows[id].status == Unknown)
            && (v.runs[id].stage.Finished? && v.runs[id].stage.end.Replied? ==> v.runs[id].stage.end.reply.code != 250)
  {
    ViewsAlwaysAgree(events, id);
  }

  const SENDER := Submission(true, true, true)

  /** Everything goes well, but the client library raises the 251 that answers DATA. */
  const ODD := RelayScript(Committed, Done,
    Script(Done, Done, [RcptReply(250)], Done, Done, NoResponse(Answered(251)), Done), Committed)

  const ODD_RUN := [
    Arrives(0, SENDER, ["a@example.com"], ODD),
    Advances(0, 1), Advances(0, 2), Advances(0, 3), Advances(0, 4), Advances(0, 5)]

  const ODD_REPLY := Reply(451, "4.0.0", "Upstream SMTP rejected the request")

  /** The state of the odd run after its arrival and `k` advances. */
  function OddWorld(k: nat): World {
    var rows := if k == 0 then map[]
                else if k < 4 then map[0 := Row(Pending, None, 1, 1)]
                else map[0 := Row(Failed, Some(Note(451, "upstream", ODD_REPLY.text)), 1, 4)];
    var data := NoResponse(Answered(251));
    var (stage, fate) := match k
                         case 0 => (Arrived, NotBegun)
                         case 1 => (Recorded, NotBegun)
                         case 2 => (InData, Begun)
                         case 3 => (Writing(PlanFor(RelayFailed(Raised(Answered(251)), true))), Concluded(data))
                         case 4 => (Written(Replied(ODD_REPLY)), Concluded(data))
                         case _ => (Finished(Replied(ODD_REPLY)), Concluded(data));
    World(rows, map[0 := Run(SENDER, ["a@example.com"], ODD, stage, fate)])
  }

  lemma OddStep(k: nat)
    requires k < 5
    ensures Enabled(OddWorld(k), Advances(0, k + 1)) && Next(OddWorld(k), Advances(0, k + 1)) == OddWorld(k + 1)
  {
    if k == 1 {
      assert ODD.session.Rcpt(0) == RcptReply(250);
      assert StopsBefore(["a@example.com"], ODD) == None;
    }
  }

  lemma {:induction false} OddRunFrom(k: nat)
    requires k <= 5
    ensures Possible(OddWorld(k), ODD_RUN[k + 1..]) && After(OddWorld(k), ODD_RUN[k + 1..]) == OddWorld(5)
    decreases 5 - k
  {
    if k < 5 {
      OddStep(k);
      OddRunFrom(k + 1);
      assert ODD_RUN[k + 1..][0] == Advances(0, k + 1) && ODD_RUN[k + 1..][1..] == ODD_RUN[k + 2..];
    }
  }

  /** A run in which the upstream server answers DATA with 251: the row says failed
      and the client is told 451. */
  lemma PositiveAnswerRecordedAsFailed()
    ensures Possible(EMPTY, ODD_RUN)
    ensures var v := After(EMPTY, ODD_RUN);
            && 0 in v.rows && v.rows[0].status == Failed
            && 0 in v.runs && v.runs[0].fate == Concluded(NoResponse(Answered(251)))
            && v.runs[0].stage == Finished(Replied(ODD_REPLY))
  {
    OddRunFrom(0);
    assert Next(EMPTY, ODD_RUN[0]) == OddWorld(0);
  }

  // ---- How a row's status may change -------------------------------------------------------

  ghost predicate OwnFinalization(w: World, e: Event, id: AttemptId) {
    e.Advances? && e.id == id && id in w.runs && w.runs[id].stage.Writing?
  }

  /** A row that says accepted or failed is never changed again; an unknown row is
      changed only by its own finalization; a pending one by that or by maintenance,
      which makes it unknown. */
  lemma StatusOnlyRefines(w: World, e: Event, id: AttemptId)
    requires AllAgree(w) && Enabled(w, e) && id in w.rows && id in Next(w, e).rows
    ensures var before, after := w.rows[id], Next(w, e).rows[id];
            && (before.status == Accepted || before.status == Failed ==> after == before)
            && (before.status == Unknown && after != before ==> OwnFinalization(w, e, id))
            && (before.status == Pending && after != before ==>
                  OwnFinalization(w, e, id) || (e.Maintains? && after.status == Unknown))
            && (before.status != Pending ==> after.status != Pending)
  {
    assert Agrees(w, id);
    if e.Advances? && e.id == id && w.runs[id].stage.Writing? {
      WrittenPlanIsTrue(w.runs[id], true);
    }
  }

  /** Over any run, an accepted or failed row stays as it is until it is deleted. */
  lemma {:induction false} FinalRowsStay(w: World, events: seq<Event>, id: AttemptId)
    requires AllAgree(w) && Possible(w, events)
    requires id in w.runs && !w.runs[id].stage.Arrived?
    requires id in w.rows ==> w.rows[id].status == Accepted || w.rows[id].status == Failed
    requires id !in w.rows ==> PastWriting(w.runs[id].stage)
    ensures id in After(w, events).rows ==> id in w.rows && After(w, events).rows[id] == w.rows[id]
    decreases |events|
  {
    if events != [] {
      var next := Next(w, events[0]);
      forall other
        ensures Agrees(next, other)
      {
        StepKeepsAgreement(w, events[0], other);
      }
      assert Agrees(w, id);
      if id in w.rows && id in next.rows {
        StatusOnlyRefines(w, events[0], id);
      }
      FinalRowsStay(next, events[1..], id);
    }
  }

  /** A maintenance pass leaves no attempt pending for more than ten minutes, keeps
      every row within retention, and touches nothing but stale pending rows. */
  lemma MaintenanceClearsStalePending(w: World, now: int, retentionDays: int, id: AttemptId)
    ensures var after := Next(w, Maintains(now, retentionDays)).rows;
            && (id in after && after[id].status == Pending ==> after[id].updatedAt >= now - 600)
            && (id in after <==> id in w.rows && w.rows[id].createdAt >= now - retentionDays * 86_400)
            && (id in after && after[id] != w.rows[id] ==>
                  && w.rows[id].status == Pending && w.rows[id].updatedAt < now - 600
                  && after[id].status == Unknown && after[id].updatedAt == now
                  && after[id].createdAt == w.rows[id].createdAt)
  {
  }

  ghost predicate NoPendingBefore(w: World, horizon: int) {
    forall id :: id in w.rows && w.rows[id].status == Pending ==> w.rows[id].updatedAt >= horizon
  }

  ghost predicate NoAdvanceBefore(events: seq<Event>, horizon: int) {
    forall i :: 0 <= i < |events| && events[i].Advances? ==> events[i].now >= horizon
  }

  lemma {:induction false} PendingStaysRecent(w: World, events: seq<Event>, horizon: int)
    requires AllAgree(w) && Possible(w, events) && NoPendingBefore(w, horizon) && NoAdvanceBefore(events, horizon)
    ensures NoPendingBefore(After(w, events), horizon)
    decreases |events|
  {
    if events != [] {
      var next := Next(w, events[0]);
      forall id | id in next.rows && next.rows[id].status == Pending
        ensures next.rows[id].updatedAt >= horizon
      {
        assert Agrees(w, id);
        if id in w.rows {
          StatusOnlyRefines(w, events[0], id);
        }
      }
      forall id
        ensures Agrees(next, id)
      {
        StepKeepsAgreement(w, events[0], id);
      }
      assert forall i :: 0 <= i < |events[1..]| ==> events[1..][i] == events[i + 1];
      PendingStaysRecent(next, events[1..], horizon);
    }
  }

  /** Once a pass has run, no attempt is ever again found pending from more than ten
      minutes before it, whatever arrives, crashes or is swept afterwards. */
  lemma NothingStalePendingAfterAPass(w: World, now: int, retentionDays: int, events: seq<Event>, id: AttemptId)
    requires AllAgree(w) && Possible(w, [Maintains(now, retentionDays)] + events)
    requires NoAdvanceBefore(events, now - 600)
    ensures var v := After(w, [Maintains(now, retentionDays)] + events);
            id in v.rows && v.rows[id].status == Pending ==> v.rows[id].updatedAt >= now - 600
  {
    var pass := Maintains(now, retentionDays);
    assert ([pass] + events)[1..] == events;
    forall other
      ensures Agrees(Next(w, pass), other)
    {
      StepKeepsAgreement(w, pass, other);
    }
    forall other | other in Next(w, pass).rows && Next(w, pass).rows[other].status == Pending
      ensures Next(w, pass).rows[other].updatedAt >= now - 600
    {
      MaintenanceClearsStalePending(w, now, retentionDays, other);
    }
    PendingStaysRecent(Next(w, pass), events, now - 600);
  }

  // ---- One finalization an attempt ----------------------------------------------------------

  /** How often the handler of an attempt does its last log write. */
  ghost function Finalizations(w: World, events: seq<Event>, id: AttemptId): nat
    requires Possible(w, events)
    decreases |events|
  {
    if events == [] then 0
    else (if OwnFinalization(w, events[0], id) then 1 else 0) + Finalizations(Next(w, events[0]), events[1..], id)
  }

  /** In every run each attempt is finalized by its handler at most once, and never
      once that write is over or its process is gone. */
  lemma {:induction false} FinalizedAtMostOnce(w: World, events: seq<Event>, id: AttemptId)
    requires Possible(w, events)
    ensures Finalizations(w, events, id) <= if id in w.runs && PastWriting(w.runs[id].stage) then 0 else 1
    decreases |events|
  {
    if events != [] {
      FinalizedAtMostOnce(Next(w, events[0]), events[1..], id);
    }
  }

  /** A process may be gone at any stage of a handler that has not ended; the log keeps
      what was committed, and the handler never moves again. */
  lemma CrashStopsTheHandler(w: World, id: AttemptId, now: int)
    ensures Enabled(w, Crashes(id)) <==>
              id in w.runs && !w.runs[id].stage.Finished? && !w.runs[id].stage.Crashed?
    ensures Enabled(w, Crashes(id)) ==>
              var after := Next(w, Crashes(id));
              && after.rows == w.rows && after.runs.Keys == w.runs.Keys
              && after.runs[id].stage == Crashed && after.runs[id].fate == w.runs[id].fate
              && (forall other :: other in w.runs && other != id ==> after.runs[other] == w.runs[other])
              && !Enabled(after, Advances(id, now))
  {
  }
}

// One relayed message seen from the upstream side: connect, MAIL, every RCPT,
// the re-authorization, DATA, QUIT. Each awaited call is an oracle that may
// answer, fail in any of the ways the code tells apart, or be cancelled.

module Upstream {

  import opened Wrappers

  /** What an awaited call can raise, by the classes the handlers tell apart. */
  datatype Fault =
    | Cancelled                    // asyncio.CancelledError
    | Denied(status: int)          // AppError
    | Answered(code: int)          // a response exception of the SMTP library
    | Disconnected                 // OSError, timeouts, server disconnects
    | CutShort                     // asyncio.IncompleteReadError
    | Invalid                      // ValueError
    | Other                        // any other exception

  datatype Call = Done | Raises(fault: Fault)

  /** RCPT either answers, is refused with a code, or breaks. */
  datatype RcptCall = RcptReply(code: int) | Refused(code: int) | Broken(fault: Fault)

  datatype DataCall = Response(code: int) | NoResponse(fault: Fault)

  datatype RecipientResult = RecipientResult(recipient: string, code: int)

  datatype DeliveryResult = DeliveryResult(code: int, recipients: seq<RecipientResult>)

  /** What `deliver` can end with besides a result. */
  datatype Failure =
    | Raised(fault: Fault)
    | Rejected(results: seq<RecipientResult>)   // RecipientRejected
    | Uncertain                                 // DeliveryUncertain
    | TimedOut                                  // UpstreamError: cancelled before DATA

  /** The answers the outside world gives during one delivery. */
  datatype Script = Script(
    connect: Call, mail: Call, rcpts: seq<RcptCall>, rset: Call,
    reauthorize: Call, data: DataCall, quit: Call)
  {
    function Rcpt(i: nat): RcptCall {
      if i < |rcpts| then rcpts[i] else Broken(Disconnected)
    }
  }

  /** Commands as the upstream server sees them, with how each one ended. */
  datatype Event =
    | Connected
    | MailSent(ended: Call)
    | RcptSent(recipient: string, reply: RcptCall)
    | RsetSent(ended: Call)
    | Reauthorized(ended: Call)
    | DataSent(outcome: DataCall)
    | QuitSent(ended: Call)

  predicate Positive(code: int) {
    200 <= code < 300
  }

  // ---- What a delivery must come to -----------------------------------------------

  /** How many RCPT commands get an answer before one breaks. */
  function Answers(n: nat, s: Script): (r: nat)
    ensures r <= n
    ensures forall i :: 0 <= i < r ==> !s.Rcpt(i).Broken?
    ensures r < n ==> s.Rcpt(r).Broken?
  {
    if n == 0 then 0
    else
      var before := Answers(n - 1, s);
      if before < n - 1 || s.Rcpt(n - 1).Broken? then before else n
  }

  ghost predicate EveryRcptAnswered(recipients: seq<string>, s: Script) {
    forall i :: 0 <= i < |recipients| ==> !s.Rcpt(i).Broken?
  }

  ghost predicate EveryRcptAccepted(recipients: seq<string>, s: Script) {
    forall i :: 0 <= i < |recipients| ==> !s.Rcpt(i).Broken? && Positive(s.Rcpt(i).code)
  }

  /** One result per recipient, in order. */
  function Results(recipients: seq<string>, s: Script): (r: seq<RecipientResult>)
    requires forall i :: 0 <= i < |recipients| ==> !s.Rcpt(i).Broken?
    ensures |r| == |recipients|
    ensures forall i :: 0 <= i < |r| ==> r[i] == RecipientResult(recipients[i], s.Rcpt(i).code)
  {
    seq(|recipients|, i requires 0 <= i < |recipients| => RecipientResult(recipients[i], s.Rcpt(i).code))
  }

  /** Which exceptions a handler swallows: `except BaseException`, `except Exception`
      (a cancellation gets through), or none. */
  datatype Guard = SwallowAll | SwallowExceptions | SwallowNone

  /** How a guarded call returns. */
  function Guarded(guard: Guard, ended: Call): Call {
    match ended
    case Done => Done
    case Raises(fault) =>
      if guard.SwallowAll? || (guard.SwallowExceptions? && !fault.Cancelled?) then Done else ended
  }

  /** What leaves a `finally` clause: its own exception before one that is pending. */
  function Finally(pending: Option<Failure>, raised: Option<Failure>): Option<Failure> {
    if raised.Some? then raised else pending
  }

  /** How the `finally` after RSET ends: the rejection is raised there. */
  function AfterRset(ended: Call, results: seq<RecipientResult>): Failure {
    var pending := if ended.Raises? then Some(Raised(ended.fault)) else None;
    Finally(pending, Some(Rejected(results))).value
  }

  /** How closing returns: QUIT is guarded against every exception. */
  function AfterQuit(ended: Call): Call {
    Guarded(SwallowAll, ended)
  }

  /** A connection that was lost or timed out: DATA may or may not have been taken. */
  predicate Lost(fault: Fault) {
    fault.Cancelled? || fault.Disconnected? || fault.CutShort?
  }

  /** Why the delivery stops before DATA, if it does. */
  ghost function StopsBeforeData(recipients: seq<string>, s: Script): Option<Failure> {
    if s.mail.Raises? then Some(Raised(s.mail.fault))
    else if !EveryRcptAnswered(recipients, s) then Some(Raised(s.Rcpt(Answers(|recipients|, s)).fault))
    else if !EveryRcptAccepted(recipients, s) then Some(AfterRset(s.rset, Results(recipients, s)))
    else if s.reauthorize.Raises? then Some(Raised(s.reauthorize.fault))
    else None
  }

  /** What a DATA call that ended this way means for the delivery. */
  function DataVerdict(data: DataCall): Result<int, Failure> {
    match data
    case Response(code) => Result.Success(code)
    case NoResponse(fault) => Result.Failure(if Lost(fault) then Uncertain else Raised(fault))
  }

  ghost function Delivery(recipients: seq<string>, s: Script): Result<DeliveryResult, Failure> {
    var stop := StopsBeforeData(recipients, s);
    if stop.Some? then Result.Failure(stop.value)
    else
      match DataVerdict(s.data)
      case Success(code) => Result.Success(DeliveryResult(code, Results(recipients, s)))
      case Failure(failure) => Result.Failure(failure)
  }

  function RcptEvents(recipients: seq<string>, n: nat, s: Script): (r: seq<Event>)
    requires n <= |recipients|
    ensures |r| == n
    ensures forall i :: 0 <= i < n ==> r[i] == RcptSent(recipients[i], s.Rcpt(i))
  {
    seq(n, i requires 0 <= i < n => RcptSent(recipients[i], s.Rcpt(i)))
  }

  /** The commands after MAIL and the RCPTs. */
  ghost function LastCommands(recipients: seq<string>, s: Script): seq<Event> {
    if !EveryRcptAnswered(recipients, s) then []
    else if !EveryRcptAccepted(recipients, s) then [RsetSent(s.rset)]
    else if s.reauthorize.Raises? then [Reauthorized(s.reauthorize)]
    else [Reauthorized(s.reauthorize), DataSent(s.data)]
  }

  /** The RCPT commands that are sent: the first one to break is the last. */
  function RcptsSent(n: nat, s: Script): (r: nat)
    ensures r <= n
  {
    var answers := Answers(n, s);
    if answers < n then answers + 1 else answers
  }

  /** The commands of one delivery, in order. */
  ghost function Commands(recipients: seq<string>, s: Script): seq<Event> {
    if s.mail.Raises? then [MailSent(s.mail)]
    else
      [MailSent(s.mail)] + RcptEvents(recipients, RcptsSent(|recipients|, s), s) + LastCommands(recipients, s)
  }

  // ---- What every delivery keeps -------------------------------------------------

  /** DATA happens at most once, as the last command, and only after every
      recipient in order got a positive reply and a later re-authorization succeeded. */
  lemma DataOnlyAfterEveryRecipient(recipients: seq<string>, s: Script, i: nat)
    requires i < |Commands(recipients, s)| && Commands(recipients, s)[i].DataSent?
    ensures var trace := Commands(recipients, s);
            && i == |trace| - 1 == |recipients| + 2
            && trace[0] == MailSent(Done)
            && trace[i - 1] == Reauthorized(Done)
            && forall j :: 0 <= j < |recipients| ==>
                 trace[1 + j].RcptSent? && trace[1 + j].recipient == recipients[j]
                 && !trace[1 + j].reply.Broken? && 200 <= trace[1 + j].reply.code <= 299
  {
  }

  /** What it takes to get as far as DATA. */
  lemma ReachesDataIff(recipients: seq<string>, s: Script)
    ensures StopsBeforeData(recipients, s) == None <==>
            && s.mail == Done && s.reauthorize == Done
            && forall i :: 0 <= i < |recipients| ==> !s.Rcpt(i).Broken? && 200 <= s.Rcpt(i).code <= 299
  {
  }

  /** How a delivery ends is told by the last command it sent: a broken one by its own
      exception, RSET by the rejection, DATA by its answer; and once DATA began, a lost
      connection or a cancellation leaves the result unknown. */
  lemma LastCommandTellsTheEnd(recipients: seq<string>, s: Script)
    ensures Commands(recipients, s) != []
    ensures var end := Delivery(recipients, s);
            match Commands(recipients, s)[|Commands(recipients, s)| - 1]
            case MailSent(ended) => ended == Done || end == Result.Failure(Raised(ended.fault))
            case RcptSent(_, reply) => reply.Broken? && end == Result.Failure(Raised(reply.fault))
            case RsetSent(ended) => ended == s.rset && end.Failure? && end.error.Rejected?
            case Reauthorized(ended) => ended.Raises? && end == Result.Failure(Raised(ended.fault))
            case DataSent(Response(code)) => end.Success? && end.value.code == code
            case DataSent(NoResponse(Cancelled)) => end == Result.Failure(Uncertain)
            case DataSent(NoResponse(Disconnected)) => end == Result.Failure(Uncertain)
            case DataSent(NoResponse(CutShort)) => end == Result.Failure(Uncertain)
            case DataSent(NoResponse(fault)) => end == Result.Failure(Raised(fault))
            case _ => false
  {
    var trace := Commands(recipients, s);
    if s.mail.Done? && !EveryRcptAnswered(recipients, s) {
      var answers := Answers(|recipients|, s);
      BrokenRcptIsLast(recipients, s);
    } else if s.mail.Done? {
      assert Answers(|recipients|, s) == |recipients|;
    }
  }

  lemma BrokenRcptIsLast(recipients: seq<string>, s: Script)
    requires s.mail.Done? && !EveryRcptAnswered(recipients, s)
    ensures var answers := Answers(|recipients|, s);
            && answers < |recipients| && s.Rcpt(answers).Broken?
            && |Commands(recipients, s)| == answers + 2
            && Commands(recipients, s)[answers + 1] == RcptSent(recipients[answers], s.Rcpt(answers))
  {
  }

  lemma SentDataGotTheAnswer(recipients: seq<string>, s: Script, i: nat)
    requires i < |Commands(recipients, s)| && Commands(recipients, s)[i].DataSent?
    ensures StopsBeforeData(recipients, s) == None && Commands(recipients, s)[i] == DataSent(s.data)
  {
  }

  /** DATA is sent exactly when nothing stops the delivery before it. */
  lemma DataSentUnlessStopped(recipients: seq<string>, s: Script)
    ensures (exists i :: 0 <= i < |Commands(recipients, s)| && Commands(recipients, s)[i].DataSent?)
       <==> StopsBeforeData(recipients, s) == None
  {
    if StopsBeforeData(recipients, s) == None {
      assert Answers(|recipients|, s) == |recipients|;
      assert Commands(recipients, s)[|recipients| + 2] == DataSent(s.data);
    }
  }

  /** A delivery ends in `RecipientRejected` exactly when MAIL succeeded, every RCPT
      was answered and one answer was not positive: with one result per recipient
      in order, and whatever RSET does. */
  lemma RejectionKeepsEveryResult(recipients: seq<string>, s: Script)
    ensures (Delivery(recipients, s).Failure? && Delivery(recipients, s).error.Rejected?) <==>
            && s.mail.Done?
            && (forall i :: 0 <= i < |recipients| ==> !s.Rcpt(i).Broken?)
            && exists i :: 0 <= i < |recipients| && !(200 <= s.Rcpt(i).code <= 299)
    ensures Delivery(recipients, s).Failure? && Delivery(recipients, s).error.Rejected? ==>
              && |Delivery(recipients, s).error.results| == |recipients|
              && (forall i :: 0 <= i < |recipients| ==>
                    Delivery(recipients, s).error.results[i] == RecipientResult(recipients[i], s.Rcpt(i).code))
              && forall rset: Call :: Delivery(recipients, s.(rset := rset)) == Delivery(recipients, s)
  {
    if EveryRcptAnswered(recipients, s) && !EveryRcptAccepted(recipients, s) {
      var i :| 0 <= i < |recipients| && !Positive(s.Rcpt(i).code);
      forall rset: Call
        ensures Delivery(recipients, s.(rset := rset)) == Delivery(recipients, s)
      {
        var t := s.(rset := rset);
        assert forall j: nat :: t.Rcpt(j) == s.Rcpt(j);
        assert !Positive(t.Rcpt(i).code);
        assert Results(recipients, t) == Results(recipients, s);
      }
    }
  }

  /** A rejection followed by a broken RCPT is not reported as a rejection. */
  lemma BrokenRcptHidesARejection()
    ensures var s := Script(Done, Done, [Refused(550), Broken(Disconnected)], Done, Done, Response(250), Done);
            Delivery(["a@example.com", "b@example.com"], s) == Result.Failure(Raised(Disconnected))
  {
    var s := Script(Done, Done, [Refused(550), Broken(Disconnected)], Done, Done, Response(250), Done);
    assert s.Rcpt(1).Broken? && !s.Rcpt(0).Broken?;
    assert Answers(1, s) == 1 && Answers(2, s) == 1;
  }

  // ---- The client session -----------------------------------------------------------

  class UpstreamSession {
    var client: bool              // whether a connected client is held
    ghost var trace: seq<Event>   // commands the upstream server has seen

    constructor ()
      ensures !client && trace == []
    {
      client := false;
      trace := [];
    }

    method Connect(s: Script) returns (r: Call)
      requires !client
      modifies this
      ensures r == s.connect && client == r.Done?
      ensures trace == old(trace) + (if r.Done? then [Connected] else [])
    {
      if s.connect.Raises? {
        return s.connect;
      }
      client := true;
      trace := trace + [Connected];
      return Done;
    }

    /** The RCPT loop of `Deliver`: stops only when a command breaks. */
    method SendRecipients(recipients: seq<string>, s: Script)
      returns (results: seq<RecipientResult>, rejected: bool, broken: Option<Fault>)
      modifies this`trace
      ensures var answers := Answers(|recipients|, s);
              && (broken.None? <==> answers == |recipients|)
              && (broken.Some? ==> s.Rcpt(answers) == Broken(broken.value))
              && trace == old(trace) + RcptEvents(recipients, RcptsSent(|recipients|, s), s)
      ensures broken.Some? ==> !EveryRcptAnswered(recipients, s)
      ensures broken.None? ==>
                && EveryRcptAnswered(recipients, s)
                && results == Results(recipients, s)
                && (rejected <==> !EveryRcptAccepted(recipients, s))
    {
      results, rejected, broken := [], false, None;
      var i := 0;
      while i < |recipients|
        invariant 0 <= i <= |recipients|
        invariant forall j :: 0 <= j < i ==> !s.Rcpt(j).Broken?
        invariant |results| == i
        invariant forall j :: 0 <= j < i ==> results[j] == RecipientResult(recipients[j], s.Rcpt(j).code)
        invariant rejected <==> exists j :: 0 <= j < i && !Positive(s.Rcpt(j).code)
        invariant trace == old(trace) + RcptEvents(recipients, i, s)
      {
        var reply := s.Rcpt(i);
        trace := trace + [RcptSent(recipients[i], reply)];
        assert RcptEvents(recipients, i + 1, s) == RcptEvents(recipients, i, s) + [RcptSent(recipients[i], reply)];
        match reply {
          case Broken(fault) =>
            broken := Some(fault);
            return;
          case RcptReply(code) =>
            results := results + [RecipientResult(recipients[i], code)];
            rejected := rejected || !(200 <= code < 300);
          case Refused(code) =>
            results := results + [RecipientResult(recipients[i], code)];
            rejected := rejected || !(200 <= code < 300);
        }
        i := i + 1;
      }
    }

    /** The end of `Deliver`: re-authorize, then DATA. */
    method SendData(results: seq<RecipientResult>, s: Script) returns (r: Result<DeliveryResult, Failure>)
      modifies this`trace
      ensures s.reauthorize.Raises? ==>
                && r == Result.Failure(Raised(s.reauthorize.fault))
                && trace == old(trace) + [Reauthorized(s.reauthorize)]
      ensures s.reauthorize.Done? ==>
                && trace == old(trace) + [Reauthorized(s.reauthorize), DataSent(s.data)]
                && match DataVerdict(s.data)
                   case Success(code) => r == Result.Success(DeliveryResult(code, results))
                   case Failure(failure) => r == Result.Failure(failure)
    {
      trace := trace + [Reauthorized(s.reauthorize)];
      if s.reauthorize.Raises? {
        return Result.Failure(Raised(s.reauthorize.fault));
      }
      trace := trace + [DataSent(s.data)];
      match s.data {
        case Response(code) => return Result.Success(DeliveryResult(code, results));
        case NoResponse(fault) =>
          if fault.Cancelled? || fault.Disconnected? || fault.CutShort? {
            return Result.Failure(Uncertain);
          }
          return Result.Failure(Raised(fault));
      }
    }

    /** Send every envelope before DATA, so that nothing is delivered partially. */
    method Deliver(recipients: seq<string>, s: Script) returns (r: Result<DeliveryResult, Failure>)
      modifies this`trace
      ensures !client ==> r == Result.Failure(Raised(Other)) && trace == old(trace)
      ensures client ==> r == Delivery(recipients, s) && trace == old(trace) + Commands(recipients, s)
    {
      if !client {
        return Result.Failure(Raised(Other));
      }
      trace := trace + [MailSent(s.mail)];
      if s.mail.Raises? {
        return Result.Failure(Raised(s.mail.fault));
      }
      var results, rejected, broken := SendRecipients(recipients, s);
      ghost var envelope := [MailSent(s.mail)] + RcptEvents(recipients, RcptsSent(|recipients|, s), s);
      assert trace == old(trace) + envelope && envelope + [] == envelope;
      if broken.Some? {
        return Result.Failure(Raised(broken.value));
      }
      if rejected {
        trace := trace + [RsetSent(s.rset)];
        if s.rset.Raises? {
          r := Result.Failure(Raised(s.rset.fault));
        }
        // The finally clause raises over whatever RSET raised.
        r := Result.Failure(Rejected(results));
        return;
      }
      r := SendData(results, s);
    }

    /** QUIT, swallowing whatever it raises, even a cancellation. */
    method Close(s: Script) returns (r: Call)
      modifies this
      ensures !client
      ensures r == if old(client) then AfterQuit(s.quit) else Done
      ensures trace == old(trace) + (if old(client) then [QuitSent(s.quit)] else [])
    {
      if !client {
        return Done;
      }
      client := false;
      trace := trace + [QuitSent(s.quit)];
      if s.quit.Raises? {
        // except BaseException: the transport is closed without a QUIT reply.
        return Done;
      }
      return s.quit;
    }
  }
}

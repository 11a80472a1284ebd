// The reply codes the relay gives its client for each way a delivery can fail.

module Replies {

  import opened Upstream
  import opened Wrappers

  datatype Reply = Reply(code: int, enhanced: string, text: string)

  /** The first rejected code in a range, in recipient order. */
  function FirstRejected(results: seq<RecipientResult>, low: int, high: int): (r: Option<int>)
    ensures r.Some? ==> low <= r.value < high && !Positive(r.value)
    ensures r.Some? <==> exists i :: 0 <= i < |results| && !Positive(results[i].code) && low <= results[i].code < high
  {
    if results == [] then None
    else if !Positive(results[0].code) && low <= results[0].code < high then Some(results[0].code)
    else FirstRejected(results[1..], low, high)
  }

  const DEFAULT_CODE := 451

  function SmtpCode(failure: Failure): int {
    match failure
    case Raised(Denied(status)) => if status == 401 || status == 403 then 553 else 550
    case Rejected(results) =>
      var temporary := FirstRejected(results, 400, 500);
      var permanent := FirstRejected(results, 500, 600);
      if temporary.Some? && temporary.value != 0 then temporary.value
      else if permanent.Some? && permanent.value != 0 then permanent.value
      else DEFAULT_CODE
    case Raised(Answered(code)) => if 400 <= code <= 599 then code else DEFAULT_CODE
    case _ => DEFAULT_CODE
  }

  function SafeFailure(failure: Failure): string {
    match failure
    case Raised(Denied(status)) =>
      if status == 403 then "Sender is no longer authorized"
      else if status == 409 then "Upstream SMTP is not configured"
      else "Relay policy rejected the message"
    case Rejected(_) => "One or more recipients were rejected by upstream"
    case Raised(Answered(_)) => "Upstream SMTP rejected the request"
    case Raised(Disconnected) => "Upstream SMTP connection failed"
    case Raised(Invalid) => "Upstream SMTP configuration is invalid"
    case _ => "Temporary upstream delivery failure"
  }

  function EnhancedStatus(code: int): string {
    if 400 <= code < 500 then "4.0.0" else "5.0.0"
  }

  /** The enhanced status class agrees with the first digit of the reply code
      (section 2 of RFC 3463, section 4.2.1 of RFC 5321). */
  predicate ClassMatches(reply: Reply) {
    && |reply.enhanced| == 5
    && (200 <= reply.code < 300 ==> reply.enhanced[0] == '2')
    && (400 <= reply.code < 500 ==> reply.enhanced[0] == '4')
    && (500 <= reply.code < 600 ==> reply.enhanced[0] == '5')
  }

  predicate IsFailureReply(reply: Reply) {
    400 <= reply.code <= 599 && ClassMatches(reply)
  }

  function FailureReply(failure: Failure): (reply: Reply)
    ensures IsFailureReply(reply)
  {
    var code := SmtpCode(failure);
    Reply(code, EnhancedStatus(code), SafeFailure(failure))
  }

  predicate SomeRejectedIn(results: seq<RecipientResult>, low: int, high: int) {
    exists i :: 0 <= i < |results| && low <= results[i].code < high
  }

  /** A recipient rejection is reported as temporary exactly when some rejection
      is 4xx or none is 5xx; the code is then an actual 4xx reply or 451. */
  lemma RejectionIsTemporaryWhenRetryable(results: seq<RecipientResult>)
    ensures (400 <= SmtpCode(Rejected(results)) < 500) <==>
            SomeRejectedIn(results, 400, 500) || !SomeRejectedIn(results, 500, 600)
    ensures SmtpCode(Rejected(results)) != DEFAULT_CODE ==>
              exists i :: 0 <= i < |results| && results[i].code == SmtpCode(Rejected(results))
  {
    FirstRejectedIsARejection(results, 400, 500);
    FirstRejectedIsARejection(results, 500, 600);
    assert FirstRejected(results, 400, 500).Some? <==> SomeRejectedIn(results, 400, 500);
    assert FirstRejected(results, 500, 600).Some? <==> SomeRejectedIn(results, 500, 600);
  }

  lemma {:induction false} FirstRejectedIsARejection(results: seq<RecipientResult>, low: int, high: int)
    ensures FirstRejected(results, low, high).Some? ==>
              exists i :: 0 <= i < |results| && results[i].code == FirstRejected(results, low, high).value
  {
    if results != [] && FirstRejected(results, low, high) != Some(results[0].code) {
      FirstRejectedIsARejection(results[1..], low, high);
      if FirstRejected(results[1..], low, high).Some? {
        var i :| 0 <= i < |results[1..]| && results[1..][i].code == FirstRejected(results[1..], low, high).value;
        assert results[i + 1].code == results[1..][i].code;
      }
    }
  }

  /** The code of a rejection is the first 4xx answer in recipient order, failing that the
      first 5xx one, failing that 451. */
  lemma {:induction false} FirstInOrder(results: seq<RecipientResult>, low: int, high: int, k: nat)
    requires 300 <= low < high && k < |results| && low <= results[k].code < high
    requires forall j :: 0 <= j < k ==> !(low <= results[j].code < high)
    ensures FirstRejected(results, low, high) == Some(results[k].code)
  {
    if k > 0 {
      assert results[1..][k - 1] == results[k];
      assert forall j :: 0 <= j < k - 1 ==> results[1..][j] == results[j + 1];
      FirstInOrder(results[1..], low, high, k - 1);
    }
  }

  lemma RejectionCodeIsTheFirst(results: seq<RecipientResult>, k: nat)
    requires k < |results|
    ensures 400 <= results[k].code <= 499 && (forall j :: 0 <= j < k ==> !(400 <= results[j].code <= 499)) ==>
              SmtpCode(Rejected(results)) == results[k].code
    ensures && 500 <= results[k].code <= 599 && (forall j :: 0 <= j < k ==> !(500 <= results[j].code <= 599))
            && (forall j :: 0 <= j < |results| ==> !(400 <= results[j].code <= 499)) ==>
              SmtpCode(Rejected(results)) == results[k].code
    ensures (forall j :: 0 <= j < |results| ==> !(400 <= results[j].code <= 599)) ==>
              SmtpCode(Rejected(results)) == 451
  {
    if 400 <= results[k].code <= 499 && forall j :: 0 <= j < k ==> !(400 <= results[j].code <= 499) {
      FirstInOrder(results, 400, 500, k);
    }
    if 500 <= results[k].code <= 599 && forall j :: 0 <= j < k ==> !(500 <= results[j].code <= 599) {
      FirstInOrder(results, 500, 600, k);
    }
  }

  /** The reply to every other failure, cause by cause. */
  lemma ReplyByCause(status: int, code: int, results: seq<RecipientResult>)
    ensures FailureReply(Raised(Denied(status))).code == if status == 401 || status == 403 then 553 else 550
    ensures FailureReply(Raised(Denied(403))).text == "Sender is no longer authorized"
    ensures FailureReply(Raised(Denied(409))).text == "Upstream SMTP is not configured"
    ensures status != 403 && status != 409 ==>
              FailureReply(Raised(Denied(status))).text == "Relay policy rejected the message"
    ensures FailureReply(Raised(Answered(code))).code == if 400 <= code <= 599 then code else 451
    ensures FailureReply(Raised(Answered(code))).text == "Upstream SMTP rejected the request"
    ensures FailureReply(Raised(Disconnected)) == Reply(451, "4.0.0", "Upstream SMTP connection failed")
    ensures FailureReply(Raised(Invalid)) == Reply(451, "4.0.0", "Upstream SMTP configuration is invalid")
    ensures forall failure :: failure in {Raised(CutShort), Raised(Other), TimedOut} ==>
              FailureReply(failure) == Reply(451, "4.0.0", "Temporary upstream delivery failure")
    ensures FailureReply(Rejected(results)).text == "One or more recipients were rejected by upstream"
  {
  }
}

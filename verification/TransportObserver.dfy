/** Classification of what happened on the wire, and the observed call that resolves its intent. */
module TransportObserver {
  import opened Wrappers
  import opened IntentLedger

  /** CONFIRMED and REFUSED are other names of REMOTE_CONFIRMED and REMOTE_REFUSED. */
  datatype WireDisposition = NeverDispatched | DispatchedUnconfirmed | RemoteConfirmed | RemoteRefused
                           | LocallyBlocked | QuarantinedUnconfirmed | InvalidInput | Unknown

  function ValueOf(d: WireDisposition): string {
    match d
    case NeverDispatched => "never_dispatched"
    case DispatchedUnconfirmed => "dispatched_unconfirmed"
    case RemoteConfirmed => "remote_confirmed"
    case RemoteRefused => "remote_refused"
    case LocallyBlocked => "locally_blocked"
    case QuarantinedUnconfirmed => "quarantined_unconfirmed"
    case InvalidInput => "invalid_input"
    case Unknown => "unknown"
  }

  datatype WireObservation = WireObservation(disposition: WireDisposition, httpStatus: Option<int>,
                                             error: Option<string>, requestBytesWritten: nat, responseBytesRead: nat,
                                             dispatched: bool, quarantined: bool, reason: string)

  const REFUSALS: set<int> := {400, 401, 403, 404, 409, 422, 429}

  const AFTER_WRITE: set<string> := {"timeout_after_write", "connection_reset_after_write",
                                     "tls_disconnect_after_write", "response_parse_failure_after_write"}

  /** The cascade, in the order of the source; socketError is the text of the exception. */
  function Dispose(policyBlocked: bool, bytesWritten: bool, receipt: bool, status: Option<int>,
                   transportError: Option<string>, socketError: Option<string>): WireDisposition
  {
    if policyBlocked then LocallyBlocked
    else if receipt then RemoteConfirmed
    else if !bytesWritten then NeverDispatched
    else if status.Some? && status.value in REFUSALS then RemoteRefused
    else if status == Some(504) then DispatchedUnconfirmed
    else if status.Some? && 200 <= status.value < 300 then RemoteConfirmed
    else if transportError.Some? && transportError.value in AFTER_WRITE then DispatchedUnconfirmed
    else if socketError.Some? && bytesWritten then DispatchedUnconfirmed
    else if socketError.Some? && !bytesWritten then Unknown
    else if status.Some? && status.value in {500, 502, 503} then (if bytesWritten then DispatchedUnconfirmed else Unknown)
    else DispatchedUnconfirmed
  }

  function ClassifyWireEvent(policyBlocked: bool, bytesWritten: bool, receipt: bool, responseStatus: Option<int>,
                             error: Option<string>, httpStatus: Option<int>, socketError: Option<string>,
                             responseBytesRead: nat): WireObservation
  {
    var status := if httpStatus.Some? then httpStatus else responseStatus;
    var transportError := if socketError.Some? then socketError else error;
    var d := Dispose(policyBlocked, bytesWritten, receipt, status, transportError, socketError);
    WireObservation(d, status, transportError, if bytesWritten then 1 else 0, responseBytesRead, bytesWritten,
                    d == DispatchedUnconfirmed,
                    if transportError.Some? && transportError.value != "" then transportError.value else "ok")
  }

  /**
   The cascade as a table: only five dispositions ever come out, and each exactly when stated.
   In particular nothing is confirmed without a receipt or a written request answered by 2xx.
   */
  lemma WhatClassificationMeans(policyBlocked: bool, bytesWritten: bool, receipt: bool, responseStatus: Option<int>,
                                error: Option<string>, httpStatus: Option<int>, socketError: Option<string>, read: nat)
    ensures var o := ClassifyWireEvent(policyBlocked, bytesWritten, receipt, responseStatus, error, httpStatus, socketError, read);
            var open := !policyBlocked && !receipt;
            var answer := if o.httpStatus.Some? then o.httpStatus.value else 0;
            && (o.disposition == LocallyBlocked <==> policyBlocked)
            && (o.disposition == RemoteConfirmed <==> !policyBlocked && (receipt || (bytesWritten && 200 <= answer < 300)))
            && (o.disposition == NeverDispatched <==> open && !bytesWritten)
            && (o.disposition == RemoteRefused <==> open && bytesWritten && answer in REFUSALS)
            && (o.disposition == DispatchedUnconfirmed <==>
                open && bytesWritten && answer !in REFUSALS && !(200 <= answer < 300))
            && o.disposition !in {QuarantinedUnconfirmed, InvalidInput, Unknown}
            && (o.quarantined <==> o.disposition == DispatchedUnconfirmed)
            && o.httpStatus == (if httpStatus.Some? then httpStatus else responseStatus)
            && o.error == (if socketError.Some? then socketError else error)
            && (o.dispatched <==> bytesWritten) && o.requestBytesWritten == (if bytesWritten then 1 else 0)
            && o.responseBytesRead == read
            && o.reason == (if o.error.Some? && o.error.value != "" then o.error.value else "ok")
  {
  }

  /* ----- Observed calls ----- */

  /** What the wrapped callable does: raise one of three kinds of exception, or return a result. */
  datatype ToolOutcome =
    | TimesOut(text: string)
    | Disconnects(text: string)
    | Raises(text: string)
    | Answers(statusCode: Option<int>, contentLength: nat)               // an object, perhaps with a status_code
    | AnswersDict(statusCodeKey: Option<int>, statusKey: Option<int>)    // a dictionary

  function StatusOf(outcome: ToolOutcome): Option<int>
    requires outcome.Answers? || outcome.AnswersDict?
  {
    match outcome
    case Answers(statusCode, _) => statusCode
    case AnswersDict(code, status) => if code.Some? && code.value != 0 then code else status
  }

  function ReadOf(outcome: ToolOutcome): nat {
    if outcome.Answers? && outcome.contentLength != 0 then outcome.contentLength else 128
  }

  /** The default of request_payload_bytes, which the gate leaves as it is. */
  const REQUEST_BYTES := 256

  /** A result in which no status is found. */
  predicate HasNoStatus(outcome: ToolOutcome) {
    (outcome.Answers? || outcome.AnswersDict?) && StatusOf(outcome).None?
  }

  /**
   What observe_tool_call makes of an outcome: whether the result is passed on, and the
   observation.  The classifier takes the number of request bytes as a truth value.
   */
  function Observe(outcome: ToolOutcome, requestBytes: int): (bool, WireObservation) {
    var wrote := requestBytes != 0;
    match outcome
    case TimesOut(text) => (false, ClassifyWireEvent(false, wrote, false, None, None, Some(504), Some(text), 0))
    case Disconnects(text) => (false, ClassifyWireEvent(false, wrote, false, None, None, None, Some(text), 0))
    case Raises(text) => (false, ClassifyWireEvent(false, false, false, None, None, None, Some(text), 0))
    case _ =>
      var status := StatusOf(outcome);
      if status.None? then (true, ClassifyWireEvent(false, wrote, false, None, None, Some(200), None, 128))
      else
        var o := ClassifyWireEvent(false, wrote, false, None, None, status, None, ReadOf(outcome));
        (o.disposition == RemoteConfirmed, o)
  }

  /** The status written to the intent. */
  function FinalStatus(outcome: ToolOutcome, requestBytes: int): string {
    if HasNoStatus(outcome) then "CONFIRMED" else ValueOf(Observe(outcome, requestBytes).1.disposition)
  }

  method ObserveToolCall(outcome: ToolOutcome, ledger: IntentLedger, intentId: string, requestBytes: int)
    returns (passedOn: bool, observation: WireObservation)
    modifies ledger
    ensures (passedOn, observation) == Observe(outcome, requestBytes)
    ensures ledger.rows == Resolve(old(ledger.rows), intentId, FinalStatus(outcome, requestBytes))
  {
    var wrote := requestBytes != 0;
    match outcome {
      case TimesOut(text) =>
        observation := ClassifyWireEvent(false, wrote, false, None, None, Some(504), Some(text), 0);
        ledger.ResolveIntent(intentId, ValueOf(observation.disposition));
        passedOn := false;
      case Disconnects(text) =>
        observation := ClassifyWireEvent(false, wrote, false, None, None, None, Some(text), 0);
        ledger.ResolveIntent(intentId, ValueOf(observation.disposition));
        passedOn := false;
      case Raises(text) =>
        observation := ClassifyWireEvent(false, false, false, None, None, None, Some(text), 0);
        ledger.ResolveIntent(intentId, ValueOf(observation.disposition));
        passedOn := false;
      case _ =>
        var status := StatusOf(outcome);
        if status.None? {
          observation := ClassifyWireEvent(false, wrote, false, None, None, Some(200), None, 128);
          ledger.ResolveIntent(intentId, "CONFIRMED");
          return true, observation;
        }
        observation := ClassifyWireEvent(false, wrote, false, None, None, status, None, ReadOf(outcome));
        ledger.ResolveIntent(intentId, ValueOf(observation.disposition));
        passedOn := observation.disposition == RemoteConfirmed;
    }
  }

  lemma OnlyConfirmedReadsSo(d: WireDisposition)
    ensures ValueOf(d) != PENDING && ValueOf(d) != "CONFIRMED"
    ensures ValueOf(d) == "remote_confirmed" <==> d == RemoteConfirmed
  {
    assert ValueOf(d)[0] != 'P' && ValueOf(d)[0] != 'C';
    assert ValueOf(RemoteRefused)[7] == 'r' && ValueOf(RemoteConfirmed)[7] == 'c';
  }

  /** Whatever the call does, its intent is settled, and as confirmed exactly when a result is passed on. */
  lemma ObservedCallsSettle(outcome: ToolOutcome, requestBytes: int)
    ensures FinalStatus(outcome, requestBytes) != PENDING
    ensures FinalStatus(outcome, requestBytes) in {"CONFIRMED", "remote_confirmed"} <==> Observe(outcome, requestBytes).0
  {
    OnlyConfirmedReadsSo(Observe(outcome, requestBytes).1.disposition);
  }

  /** The status that a result is classed by: its own, looked up in the source's order, or 200 when it has none. */
  function AnswerOf(outcome: ToolOutcome): int
    requires outcome.Answers? || outcome.AnswersDict?
  {
    match outcome
    case Answers(Some(code), _) => code
    case AnswersDict(Some(code), status) => if code != 0 then code else if status.Some? then status.value else 200
    case AnswersDict(None, Some(status)) => status
    case _ => 200
  }

  /**
   What is observed of each outcome and written to the intent, when request bytes were written:
   a timeout or a broken connection leaves the effect open and is quarantined, any other
   exception means that nothing was sent, and a result is classed by its status.
   */
  lemma WhatIsObserved(outcome: ToolOutcome, requestBytes: int)
    requires requestBytes != 0
    ensures var (passed, o) := Observe(outcome, requestBytes);
            var written := FinalStatus(outcome, requestBytes);
            && (outcome.TimesOut? || outcome.Disconnects? ==>
                && !passed && o.disposition == DispatchedUnconfirmed && o.quarantined && o.dispatched && o.responseBytesRead == 0
                && o.httpStatus == (if outcome.TimesOut? then Some(504) else None)
                && o.error == Some(outcome.text) && written == "dispatched_unconfirmed")
            && (outcome.Raises? ==>
                && !passed && o.disposition == NeverDispatched && !o.quarantined && !o.dispatched
                && o.httpStatus == None && o.error == Some(outcome.text) && written == "never_dispatched")
            && (outcome.Answers? || outcome.AnswersDict? ==>
                var answer := AnswerOf(outcome);
                && o.httpStatus == Some(answer) && o.dispatched && o.error == None
                && o.responseBytesRead == (if outcome.Answers? && outcome.statusCode.Some? && outcome.contentLength != 0
                                           then outcome.contentLength else 128)
                && (200 <= answer < 300 <==> passed && o.disposition == RemoteConfirmed && !o.quarantined)
                && (200 <= answer < 300 ==> written == if HasNoStatus(outcome) then "CONFIRMED" else "remote_confirmed")
                && (answer in {400, 401, 403, 404, 409, 422, 429} ==>
                    !passed && o.disposition == RemoteRefused && written == "remote_refused")
                && (!(200 <= answer < 300) && answer !in {400, 401, 403, 404, 409, 422, 429} ==>
                    && !passed && o.disposition == DispatchedUnconfirmed && o.quarantined
                    && written == "dispatched_unconfirmed"))
  {
  }

  /** Without request bytes nothing counts as sent, whatever the outcome. */
  lemma NothingSent(outcome: ToolOutcome)
    ensures var o := Observe(outcome, 0).1; o.disposition == NeverDispatched && !o.quarantined && !o.dispatched
    ensures !HasNoStatus(outcome) ==> !Observe(outcome, 0).0 && FinalStatus(outcome, 0) == "never_dispatched"
  {
  }

  /**
   A result is passed on exactly when the observation says confirmed, except in one case: a
   result without a status and no request bytes, which is passed on as never dispatched.
   */
  lemma PassedOnWhenConfirmed(outcome: ToolOutcome, requestBytes: int)
    ensures (Observe(outcome, requestBytes).0 <==> Observe(outcome, requestBytes).1.disposition == RemoteConfirmed) <==>
            (requestBytes != 0 || !HasNoStatus(outcome))
    ensures requestBytes == 0 && HasNoStatus(outcome) ==>
              && Observe(outcome, requestBytes).0 && FinalStatus(outcome, requestBytes) == "CONFIRMED"
              && Observe(outcome, requestBytes).1.disposition == NeverDispatched
  {
  }
}

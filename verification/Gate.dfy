/** The pre-dispatch gate: one call consumes a nonce, declares an intent, dispatches and resolves. */
module Gate {
  import opened Wrappers
  import NonceLedger
  import IntentLedger
  import opened TransportObserver
  import Idempotency
  import opened Decimal

  type Attempt = NonceLedger.Attempt

  /** The part of a call's arguments that is not in the attempt; id is the intent's fresh UUID. */
  datatype Envelope = Envelope(headers: map<string, string>, sessionId: string, sequenceNumber: int,
                               agentId: string, targetApi: string, payload: string, intentId: string)

  /** One execution of target_fn: the attempt it stands for and the headers it was given. */
  datatype Dispatch = Dispatch(attempt: Attempt, headers: map<string, string>)

  datatype GateError = NonceError(v: NonceLedger.Violation) | IntentError(e: IntentLedger.DeclareError)

  function IntentOf(e: Envelope): IntentLedger.Intent {
    IntentLedger.Intent(e.agentId, e.targetApi, e.payload, IntentLedger.PENDING)
  }

  type GateAnswer = Result<(bool, WireObservation), GateError>

  /** The declaration left these rows; the call then answers and settles the intent, or fails. */
  ghost predicate DeclaredThen(before: IntentLedger.Intents, e: Envelope, declared: IntentLedger.Declared,
                               rows: IntentLedger.Intents, outcome: ToolOutcome, r: GateAnswer,
                               after: IntentLedger.Intents)
  {
    && IntentLedger.DeclareMay(before, e.intentId, IntentOf(e), declared, rows)
    && (declared.Err? ==> r == Err(IntentError(declared.error)) && after == rows)
    && (declared.Ok? ==> r == Ok(Observe(outcome, REQUEST_BYTES)))
    && (declared.Ok? ==> after == IntentLedger.Resolve(rows, e.intentId, FinalStatus(outcome, REQUEST_BYTES)))
  }

  /** The answers one call may give, and the tables it may leave. */
  ghost predicate CallMay(table: NonceLedger.Table, before: IntentLedger.Intents, a: Attempt, e: Envelope,
                          outcome: ToolOutcome, r: GateAnswer, table': NonceLedger.Table, after: IntentLedger.Intents)
  {
    var admitted := NonceLedger.ConsumeCall(table, a);
    && table' == admitted.1
    && (admitted.0.Err? ==> r == Err(NonceError(admitted.0.error)) && after == before)
    && (admitted.0.Ok? ==> exists declared, rows :: DeclaredThen(before, e, declared, rows, outcome, r, after))
  }

  /** The headers that the target function is given. */
  function OutboundHeaders(uuid5: string -> string, a: Attempt, e: Envelope): map<string, string> {
    e.headers[Idempotency.KEY_HEADER :=
                uuid5(Idempotency.BindingString(e.sessionId, e.sequenceNumber, a.payloadHash))]
  }

  /** The outbound headers are the caller's with one key, made of session, number and payload digest, over them. */
  lemma OutboundHeadersBind(uuid5: string -> string, a: Attempt, e: Envelope)
    ensures var h := OutboundHeaders(uuid5, a, e);
            && h.Keys == e.headers.Keys + {"Idempotency-Key"}
            && h["Idempotency-Key"] == uuid5(e.sessionId + ":" + PrintInt(e.sequenceNumber) + ":" + a.payloadHash)
            && forall k :: k in e.headers && k != "Idempotency-Key" ==> h[k] == e.headers[k]
  {
  }

  /** Two dispatches carry one key exactly when session, number and payload agree, or the UUID function collides. */
  lemma DispatchKeysAgree(uuid5: string -> string, a: Attempt, e: Envelope, a': Attempt, e': Envelope)
    requires Idempotency.IsHexDigest(a.payloadHash) && Idempotency.IsHexDigest(a'.payloadHash)
    ensures var b := e.sessionId + ":" + PrintInt(e.sequenceNumber) + ":" + a.payloadHash;
            var b' := e'.sessionId + ":" + PrintInt(e'.sequenceNumber) + ":" + a'.payloadHash;
            OutboundHeaders(uuid5, a, e)["Idempotency-Key"] == OutboundHeaders(uuid5, a', e')["Idempotency-Key"] <==>
            || (e.sessionId == e'.sessionId && e.sequenceNumber == e'.sequenceNumber && a.payloadHash == a'.payloadHash)
            || (b != b' && uuid5(b) == uuid5(b'))
  {
    Idempotency.KeysAgree((hash: string) => hash, uuid5, e.sessionId, e.sequenceNumber, a.payloadHash,
                          e'.sessionId, e'.sequenceNumber, a'.payloadHash);
  }

  /**
   A dispatched call whose target times out or loses its connection, or is answered by neither
   success nor refusal, returns nothing and leaves its intent as unconfirmed, in quarantine.
   */
  lemma OpenEffectsAreQuarantined(before: IntentLedger.Intents, e: Envelope, declared: IntentLedger.Declared,
                                  rows: IntentLedger.Intents, outcome: ToolOutcome, r: GateAnswer,
                                  after: IntentLedger.Intents)
    requires DeclaredThen(before, e, declared, rows, outcome, r, after) && declared.Ok?
    requires || outcome.TimesOut? || outcome.Disconnects?
             || ((outcome.Answers? || outcome.AnswersDict?) && AnswerOf(outcome) in {500, 502, 503, 504})
    ensures r.Ok? && !r.value.0 && r.value.1.disposition == DispatchedUnconfirmed && r.value.1.quarantined
    ensures e.intentId in after && after[e.intentId].status == "dispatched_unconfirmed"
  {
    WhatIsObserved(outcome, REQUEST_BYTES);
  }

  class SmaosPreDispatchGate {
    const nonces: NonceLedger.ApprovalNonceLedger
    const intents: IntentLedger.IntentLedger
    const uuid5: string -> string
    /** Every execution of a target function so far. */
    ghost var dispatches: seq<Dispatch>

    constructor (nonces: NonceLedger.ApprovalNonceLedger, intents: IntentLedger.IntentLedger, uuid5: string -> string)
      ensures this.nonces == nonces && this.intents == intents && this.uuid5 == uuid5 && dispatches == []
    {
      this.nonces := nonces;
      this.intents := intents;
      this.uuid5 := uuid5;
      this.dispatches := [];
    }

    /**
     The target function is called only behind a consumed nonce and a declared intent, with the
     idempotency key of this payload in its headers; its intent is settled before returning.
     outcome is what the target function does when it is called.
     */
    method AdmitAndDispatch(a: Attempt, e: Envelope, outcome: ToolOutcome)
      returns (r: GateAnswer)
      modifies this, nonces, intents
      ensures CallMay(old(nonces.rows), old(intents.rows), a, e, outcome, r, nonces.rows, intents.rows)
      ensures dispatches ==
              old(dispatches) + if r.Ok? then [Dispatch(a, OutboundHeaders(uuid5, a, e))] else []
    {
      var admitted := nonces.ConsumeNonce(a);
      if admitted.Err? {
        return Err(NonceError(admitted.error));
      }
      var outbound := new Idempotency.Headers(e.headers);
      var _ := Idempotency.BindHeaders(outbound, (hash: string) => hash, uuid5, e.sessionId, e.sequenceNumber,
                                       a.payloadHash);
      var declared := intents.DeclareIntent(e.agentId, e.targetApi, e.payload, e.intentId);
      ghost var declaredRows := intents.rows;
      if declared.Err? {
        r := Err(IntentError(declared.error));
        assert DeclaredThen(old(intents.rows), e, declared, declaredRows, outcome, r, intents.rows);
        return;
      }
      dispatches := dispatches + [Dispatch(a, outbound.entries)];
      var passedOn, observation := ObserveToolCall(outcome, intents, declared.value, REQUEST_BYTES);
      r := Ok((passedOn, observation));
      assert DeclaredThen(old(intents.rows), e, declared, declaredRows, outcome, r, intents.rows);
    }
  }
}

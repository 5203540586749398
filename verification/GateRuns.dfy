/**
 Any number of gate calls at once, each advancing by its own steps: admission, declaration,
 dispatch and settlement.  consume_nonce is one step here; AdmissionsRefine shows that every
 statement of its interleaved clients is that step, or no step at all.
 */
module GateRuns {
  import opened Wrappers
  import opened TransportObserver
  import NonceLedger
  import NonceRuns
  import IntentLedger
  import opened Gate

  type Call = nat

  /** k is the place of the call's attempt in the list of admitted attempts. */
  datatype Phase =
    | NotCalled
    | Admitted(k: nat, e: Envelope)
    | Declared(k: nat, e: Envelope)
    | Fired(k: nat, e: Envelope, outcome: ToolOutcome)
    | Returned(declared: Option<string>)    // the id of the intent the call declared, if it got that far
    | Died

  /** admitted lists the attempts that consumed a nonce; fired the places of those whose target function ran. */
  datatype State = State(table: NonceLedger.Table, admitted: seq<Attempt>, intents: IntentLedger.Intents,
                         phases: map<Call, Phase>, fired: seq<nat>)

  datatype Action =
    | Record(nonce: string, row: NonceLedger.Row)
    | Admit(a: Attempt, e: Envelope)
    | Declare(r: IntentLedger.Declared, rows: IntentLedger.Intents)
    | Fire(outcome: ToolOutcome)
    | Settle
    | Die

  function PhaseOf(s: State, c: Call): Phase {
    if c in s.phases then s.phases[c] else NotCalled
  }

  function SetPhase(s: State, c: Call, p: Phase): State {
    s.(phases := s.phases[c := p])
  }

  ghost predicate Enabled(s: State, c: Call, x: Action) {
    match x
    case Record(nonce, row) => nonce !in s.table && row.status == NonceLedger.PENDING && row.consumedAt == None
    case Admit(_, _) => PhaseOf(s, c).NotCalled?
    case Declare(r, rows) =>
      PhaseOf(s, c).Admitted? &&
      IntentLedger.DeclareMay(s.intents, PhaseOf(s, c).e.intentId, IntentOf(PhaseOf(s, c).e), r, rows)
    case Fire(_) => PhaseOf(s, c).Declared?
    case Settle => PhaseOf(s, c).Fired?
    case Die => !PhaseOf(s, c).Returned?
  }

  ghost function Apply(s: State, c: Call, x: Action): State
    requires Enabled(s, c, x)
  {
    match x
    case Record(nonce, row) => s.(table := s.table[nonce := row])
    case Admit(a, e) =>
      var (r, t) := NonceLedger.ConsumeCall(s.table, a);
      if r.Ok? then SetPhase(s, c, Admitted(|s.admitted|, e)).(table := t, admitted := s.admitted + [a])
      else SetPhase(s, c, Returned(None)).(table := t)
    case Declare(r, rows) =>
      var p := PhaseOf(s, c);
      if r.Ok? then SetPhase(s, c, Declared(p.k, p.e)).(intents := rows)
      else SetPhase(s, c, Returned(None)).(intents := rows)
    case Fire(outcome) =>
      var p := PhaseOf(s, c);
      SetPhase(s, c, Fired(p.k, p.e, outcome)).(fired := s.fired + [p.k])
    case Settle =>
      var p := PhaseOf(s, c);
      SetPhase(s, c, Returned(Some(p.e.intentId))).(
        intents := IntentLedger.Resolve(s.intents, p.e.intentId, FinalStatus(p.outcome, REQUEST_BYTES)))
    case Die => SetPhase(s, c, Died)
  }

  ghost predicate Step(s: State, s': State) {
    exists c, x :: Enabled(s, c, x) && s' == Apply(s, c, x)
  }

  ghost predicate IsRun(run: seq<State>) {
    && run != [] && run[0] == State(map[], [], map[], map[], [])
    && forall i :: 0 <= i < |run| - 1 ==> Step(run[i], run[i + 1])
  }

  /* ----- Invariants ----- */

  predicate MayFire(p: Phase) {
    p.Admitted? || p.Declared?
  }

  /** Every call that may still fire has its own admitted attempt, which has not fired. */
  ghost predicate TicketsOk(s: State) {
    && (forall c: Call :: MayFire(PhaseOf(s, c)) ==> PhaseOf(s, c).k < |s.admitted| && PhaseOf(s, c).k !in s.fired)
    && (forall c: Call, d: Call :: c != d && MayFire(PhaseOf(s, c)) && MayFire(PhaseOf(s, d)) ==>
          PhaseOf(s, c).k != PhaseOf(s, d).k)
  }

  ghost predicate FiredOk(s: State) {
    && (forall i :: 0 <= i < |s.fired| ==> s.fired[i] < |s.admitted|)
    && (forall i, j :: 0 <= i < j < |s.fired| ==> s.fired[i] != s.fired[j])
  }

  /** Declared intents are in the ledger, and those of returned calls are settled. */
  ghost predicate IntentsOk(s: State) {
    && (forall c: Call :: PhaseOf(s, c).Declared? || PhaseOf(s, c).Fired? ==> PhaseOf(s, c).e.intentId in s.intents)
    && (forall c: Call :: PhaseOf(s, c).Returned? && PhaseOf(s, c).declared.Some? ==>
          var id := PhaseOf(s, c).declared.value; id in s.intents && s.intents[id].status != IntentLedger.PENDING)
  }

  ghost predicate Inv(s: State) {
    && NonceRuns.WinsOk(s.table, s.admitted)
    && TicketsOk(s) && FiredOk(s) && IntentsOk(s)
    && IntentLedger.Exclusive(s.intents)
  }

  lemma NoncesKept(s: State, c: Call, x: Action)
    requires NonceRuns.WinsOk(s.table, s.admitted) && Enabled(s, c, x)
    ensures NonceRuns.WinsOk(Apply(s, c, x).table, Apply(s, c, x).admitted)
  {
    if x.Admit? {
      NonceRuns.CallKeepsWins(s.table, s.admitted, x.a);
    } else if x.Record? {
      var t := Apply(s, c, x).table;
      forall n | n in t && t[n].status == NonceLedger.CONSUMED
        ensures exists i :: 0 <= i < |s.admitted| && s.admitted[i].nonce == n
      {
        assert n in s.table && s.table[n].status == NonceLedger.CONSUMED;
      }
    }
  }

  /** A step of one call leaves every other call where it is. */
  lemma OthersStay(s: State, c: Call, x: Action)
    requires Enabled(s, c, x)
    ensures forall d: Call :: d != c ==> PhaseOf(Apply(s, c, x), d) == PhaseOf(s, d)
  {
  }

  lemma TicketsKept(s: State, c: Call, x: Action)
    requires TicketsOk(s) && FiredOk(s) && Enabled(s, c, x)
    ensures TicketsOk(Apply(s, c, x)) && FiredOk(Apply(s, c, x))
  {
    var s' := Apply(s, c, x);
    OthersStay(s, c, x);
    forall d: Call | MayFire(PhaseOf(s', d))
      ensures PhaseOf(s', d).k < |s'.admitted| && PhaseOf(s', d).k !in s'.fired
    {
      assert MayFire(PhaseOf(s, d)) || (d == c && x.Admit? && PhaseOf(s', d).k == |s.admitted|);
    }
    forall d: Call, f: Call | d != f && MayFire(PhaseOf(s', d)) && MayFire(PhaseOf(s', f))
      ensures PhaseOf(s', d).k != PhaseOf(s', f).k
    {
      assert MayFire(PhaseOf(s, d)) || (d == c && x.Admit? && PhaseOf(s', d).k == |s.admitted|);
      assert MayFire(PhaseOf(s, f)) || (f == c && x.Admit? && PhaseOf(s', f).k == |s.admitted|);
    }
  }

  /** The ledger loses no intent, and no settled intent becomes pending again. */
  ghost predicate IntentsGrow(t: IntentLedger.Intents, t': IntentLedger.Intents) {
    forall id :: id in t ==>
      id in t' && (t[id].status != IntentLedger.PENDING ==> t'[id].status != IntentLedger.PENDING)
  }

  lemma IntentsKept(s: State, c: Call, x: Action)
    requires IntentsOk(s) && IntentLedger.Exclusive(s.intents) && Enabled(s, c, x)
    ensures IntentsGrow(s.intents, Apply(s, c, x).intents) && IntentLedger.Exclusive(Apply(s, c, x).intents)
  {
    if x.Declare? {
      var e := PhaseOf(s, c).e;
      IntentLedger.OneRowDecides(s.intents, e.intentId, IntentOf(e), x.r, x.rows);
    } else if x.Settle? {
      var p := PhaseOf(s, c);
      ObservedCallsSettle(p.outcome, REQUEST_BYTES);
      IntentLedger.ResolveKeepsExclusive(s.intents, p.e.intentId, FinalStatus(p.outcome, REQUEST_BYTES));
    }
  }

  lemma CallsKeepIntents(s: State, c: Call, x: Action)
    requires IntentsOk(s) && IntentLedger.Exclusive(s.intents) && Enabled(s, c, x)
    ensures IntentsOk(Apply(s, c, x))
  {
    var s' := Apply(s, c, x);
    OthersStay(s, c, x);
    IntentsKept(s, c, x);
    forall d: Call | PhaseOf(s', d).Declared? || PhaseOf(s', d).Fired?
      ensures PhaseOf(s', d).e.intentId in s'.intents
    {
      assert PhaseOf(s, d).Declared? || PhaseOf(s, d).Fired? || (d == c && x.Declare?);
    }
    forall d: Call | PhaseOf(s', d).Returned? && PhaseOf(s', d).declared.Some?
      ensures var id := PhaseOf(s', d).declared.value;
              id in s'.intents && s'.intents[id].status != IntentLedger.PENDING
    {
      if d == c && x.Settle? {
        ObservedCallsSettle(PhaseOf(s, c).outcome, REQUEST_BYTES);
      } else {
        assert PhaseOf(s, d) == PhaseOf(s', d);
      }
    }
  }

  lemma StepKeeps(s: State, s': State)
    requires Inv(s) && Step(s, s')
    ensures Inv(s')
  {
    var c, x :| Enabled(s, c, x) && s' == Apply(s, c, x);
    NoncesKept(s, c, x);
    TicketsKept(s, c, x);
    IntentsKept(s, c, x);
    CallsKeepIntents(s, c, x);
  }

  lemma {:induction false} RunKeeps(run: seq<State>, i: nat)
    requires IsRun(run) && i < |run|
    ensures Inv(run[i])
  {
    if i > 0 {
      RunKeeps(run, i - 1);
      StepKeeps(run[i - 1], run[i]);
    }
  }

  /* ----- Main results, over every run ----- */

  /** The attempt behind dispatch number i. */
  function AttemptOf(s: State, i: nat): Attempt
    requires i < |s.fired| && s.fired[i] < |s.admitted|
  {
    s.admitted[s.fired[i]]
  }

  /**
   A target function runs at most once per recorded nonce, and only for the scope, the payload
   and the approval that were recorded, in time.
   */
  lemma DispatchedOncePerNonce(run: seq<State>, k: nat, i: nat, j: nat)
    requires IsRun(run) && k < |run| && i < |run[k].fired| && j < |run[k].fired|
    ensures run[k].fired[i] < |run[k].admitted| && run[k].fired[j] < |run[k].admitted|
    ensures i != j ==> AttemptOf(run[k], i).nonce != AttemptOf(run[k], j).nonce
    ensures AttemptOf(run[k], i).nonce in run[k].table
    ensures NonceRuns.WonBy(run[k].table[AttemptOf(run[k], i).nonce], AttemptOf(run[k], i))
  {
    RunKeeps(run, k);
    if i < j {
      assert run[k].fired[i] != run[k].fired[j];
    } else if j < i {
      assert run[k].fired[j] != run[k].fired[i];
    }
  }

  ghost function ConsumedNonces(t: NonceLedger.Table): set<string> {
    set n | n in t && t[n].status == NonceLedger.CONSUMED
  }

  lemma {:induction false} DistinctCount<T>(s: seq<T>, bound: set<T>)
    requires forall i, j :: 0 <= i < j < |s| ==> s[i] != s[j]
    requires forall i :: 0 <= i < |s| ==> s[i] in bound
    ensures |s| <= |bound|
    decreases |s|
  {
    if s != [] {
      var last := s[|s| - 1];
      DistinctCount(s[..|s| - 1], bound - {last});
    }
  }

  lemma SubsetCount<T>(a: set<T>, b: set<T>)
    requires a <= b
    ensures |a| <= |b|
  {
    assert b == a + (b - a);
  }

  /** Dispatches are at most the consumed nonces, and these at most the approvals. */
  lemma DispatchesAreCovered(run: seq<State>, k: nat)
    requires IsRun(run) && k < |run|
    ensures |run[k].fired| <= |ConsumedNonces(run[k].table)| <= |run[k].table|
  {
    RunKeeps(run, k);
    var s := run[k];
    var nonces := seq(|s.fired|, i requires 0 <= i < |s.fired| => AttemptOf(s, i).nonce);
    forall i, j | 0 <= i < j < |nonces| ensures nonces[i] != nonces[j] {
      DispatchedOncePerNonce(run, k, i, j);
    }
    forall i | 0 <= i < |nonces| ensures nonces[i] in ConsumedNonces(s.table) {
      DispatchedOncePerNonce(run, k, i, i);
    }
    DistinctCount(nonces, ConsumedNonces(s.table));
    SubsetCount(ConsumedNonces(s.table), s.table.Keys);
  }

  /** Once a call has returned, the intent it declared is no longer pending, and targets have one owner. */
  lemma ReturnedCallsAreSettled(run: seq<State>, k: nat, c: Call)
    requires IsRun(run) && k < |run|
    requires PhaseOf(run[k], c).Returned? && PhaseOf(run[k], c).declared.Some?
    ensures var id := PhaseOf(run[k], c).declared.value;
            id in run[k].intents && run[k].intents[id].status != IntentLedger.PENDING
    ensures IntentLedger.Exclusive(run[k].intents)
  {
    RunKeeps(run, k);
  }

  /* ----- How calls take these steps ----- */

  ghost predicate Steps(run: seq<State>) {
    run != [] && forall i :: 0 <= i < |run| - 1 ==> Step(run[i], run[i + 1])
  }

  /** The run ends with the call returned, with these tables and dispatches. */
  ghost predicate Ends(run: seq<State>, c: Call, declared: Option<string>, table: NonceLedger.Table,
                       intents: IntentLedger.Intents, fired: seq<nat>)
    requires run != []
  {
    var last := run[|run| - 1];
    PhaseOf(last, c) == Returned(declared) && last.table == table && last.intents == intents && last.fired == fired
  }

  /** A refused admission is one step, a refused declaration two, a dispatch four. */
  lemma RefusedInSteps(s: State, c: Call, a: Attempt, e: Envelope) returns (run: seq<State>)
    requires PhaseOf(s, c).NotCalled? && NonceLedger.ConsumeCall(s.table, a).0.Err?
    ensures Steps(run) && run[0] == s
    ensures run[|run| - 1] == SetPhase(s, c, Returned(None)).(table := NonceLedger.ConsumeCall(s.table, a).1)
  {
    run := [s, Apply(s, c, Admit(a, e))];
    assert Step(run[0], run[1]);
  }

  lemma CollidedInSteps(s: State, c: Call, a: Attempt, e: Envelope, declared: IntentLedger.Declared,
                        rows: IntentLedger.Intents)
    returns (run: seq<State>)
    requires PhaseOf(s, c).NotCalled? && NonceLedger.ConsumeCall(s.table, a).0.Ok? && declared.Err?
    requires IntentLedger.DeclareMay(s.intents, e.intentId, IntentOf(e), declared, rows)
    ensures Steps(run) && run[0] == s
    ensures Ends(run, c, None, NonceLedger.ConsumeCall(s.table, a).1, rows, s.fired)
  {
    var s1 := Apply(s, c, Admit(a, e));
    var s2 := Apply(s1, c, Declare(declared, rows));
    assert Step(s, s1) && Step(s1, s2);
    run := [s, s1, s2];
  }

  lemma DispatchedInSteps(s: State, c: Call, a: Attempt, e: Envelope, rows: IntentLedger.Intents, outcome: ToolOutcome)
    returns (run: seq<State>)
    requires PhaseOf(s, c).NotCalled? && NonceLedger.ConsumeCall(s.table, a).0.Ok?
    requires IntentLedger.DeclareMay(s.intents, e.intentId, IntentOf(e), Ok(e.intentId), rows)
    ensures Steps(run) && run[0] == s
    ensures Ends(run, c, Some(e.intentId), NonceLedger.ConsumeCall(s.table, a).1,
                 IntentLedger.Resolve(rows, e.intentId, FinalStatus(outcome, REQUEST_BYTES)), s.fired + [|s.admitted|])
  {
    var s1 := Apply(s, c, Admit(a, e));
    var s2 := Apply(s1, c, Declare(Ok(e.intentId), rows));
    var s3 := Apply(s2, c, Fire(outcome));
    var s4 := Apply(s3, c, Settle);
    assert Step(s, s1) && Step(s1, s2) && Step(s2, s3) && Step(s3, s4);
    run := [s, s1, s2, s3, s4];
  }

  /** Every answer and every effect that AdmitAndDispatch may have is that of steps of this machine. */
  lemma OneCallInSteps(s: State, c: Call, a: Attempt, e: Envelope, outcome: ToolOutcome, r: GateAnswer,
                       table: NonceLedger.Table, intents: IntentLedger.Intents)
    returns (run: seq<State>)
    requires PhaseOf(s, c).NotCalled? && CallMay(s.table, s.intents, a, e, outcome, r, table, intents)
    ensures Steps(run) && run[0] == s
    ensures Ends(run, c, if r.Ok? then Some(e.intentId) else None, table, intents,
                 s.fired + if r.Ok? then [|s.admitted|] else [])
  {
    if NonceLedger.ConsumeCall(s.table, a).0.Err? {
      run := RefusedInSteps(s, c, a, e);
    } else {
      var declared, rows :| DeclaredThen(s.intents, e, declared, rows, outcome, r, intents);
      if declared.Err? {
        run := CollidedInSteps(s, c, a, e, declared, rows);
      } else {
        assert declared == Ok(e.intentId);
        run := DispatchedInSteps(s, c, a, e, rows, outcome);
      }
    }
  }

  /**
   consume_nonce as interleaved statements refines the admission step: on equal tables, a
   statement changes nothing, or it ends a client's call as the admission step of a gate call
   with that attempt would, with the same table and admitted exactly when the client succeeds.
   */
  lemma AdmissionsRefine(n: NonceRuns.State, client: NonceRuns.Client, x: NonceRuns.Action, s: State, c: Call, e: Envelope)
    requires NonceRuns.Inv(n) && NonceRuns.Enabled(n, client, x) && !x.Record?
    requires s.table == n.table && s.admitted == n.wins && PhaseOf(s, c).NotCalled?
    ensures var n' := NonceRuns.Apply(n, client, x);
            var p := NonceRuns.PhaseOf(n', client);
            if !p.Returned? then n'.table == s.table && n'.wins == s.admitted
            else
              var s' := Apply(s, c, Admit(p.a, e));
              && s'.table == n'.table && s'.admitted == n'.wins
              && (PhaseOf(s', c).Admitted? <==> p.result.Ok?)
  {
    NonceRuns.StepIsAtomic(n, client, x);
  }
}

/**
 Any number of clients calling consume_nonce at once, one statement at a time.

 BEGIN IMMEDIATE takes the one write lock; a transaction works on its own view of the table
 until it commits, and a rollback, a timeout or a crash leaves the table as it was.
 */
module NonceRuns {
  import opened Wrappers
  import opened NonceLedger

  type Client = nat

  datatype Phase =
    | Idle
    | Waiting(a: Attempt)                      // clock and digest taken, lock not yet held
    | Began(a: Attempt)                        // inside the transaction
    | Fetched(a: Attempt, row: Option<Row>)    // after the SELECT
    | Updated(a: Attempt, result: Outcome)     // after an UPDATE, before the commit
    | Returned(a: Attempt, result: Outcome)
    | Failed(a: Attempt)                       // lock timeout or crash: no answer from the ledger

  /** wins lists the attempts whose success was committed, oldest first. */
  datatype State = State(table: Table, view: Table, lock: Option<Client>, phases: map<Client, Phase>, wins: seq<Attempt>)

  ghost predicate Init(s: State) {
    s.table == map[] && s.lock == None && s.wins == [] && s.phases == map[]
  }

  /** Clients that never called are idle; there is no bound on how many there are. */
  function PhaseOf(s: State, c: Client): Phase {
    if c in s.phases then s.phases[c] else Idle
  }

  function SetPhase(s: State, c: Client, p: Phase): State {
    s.(phases := s.phases[c := p])
  }

  datatype Action = Record(nonce: string, row: Row) | Call(a: Attempt) | Begin | Timeout | Fetch | Decide | Commit | Crash

  predicate HoldsLock(p: Phase) {
    p.Began? || p.Fetched? || p.Updated?
  }

  /** Whether an action of client c can happen. */
  predicate Enabled(s: State, c: Client, x: Action) {
    match x
    case Record(nonce, row) => s.lock == None && nonce !in s.table && row.status == PENDING && row.consumedAt == None
    case Call(_) => PhaseOf(s, c).Idle? || PhaseOf(s, c).Returned? || PhaseOf(s, c).Failed?
    case Begin => PhaseOf(s, c).Waiting? && s.lock == None
    case Timeout => PhaseOf(s, c).Waiting?
    case Fetch => PhaseOf(s, c).Began?
    case Decide => PhaseOf(s, c).Fetched?
    case Commit => PhaseOf(s, c).Updated?
    case Crash => HoldsLock(PhaseOf(s, c))
  }

  /** Gives up the lock and the view without writing anything. */
  function Rollback(s: State, c: Client, p: Phase): State {
    SetPhase(s, c, p).(lock := None)
  }

  /** After the SELECT: raise, or update the view; a raise rolls back, except that EXPIRED is committed first. */
  function DecideStep(s: State, c: Client, a: Attempt, row: Option<Row>): State {
    match Objection(row, a)
    case Some(Expired) => SetPhase(s, c, Updated(a, Err(Expired))).(view := Expire(s.view, a.nonce))
    case Some(v) => Rollback(s, c, Returned(a, Err(v)))
    case None =>
      if a.nonce in s.view && s.view[a.nonce].status == PENDING then
        SetPhase(s, c, Updated(a, Ok(true))).(view := Consume(s.view, a.nonce, a.now))
      else Rollback(s, c, Returned(a, Err(Replay)))
  }

  function Apply(s: State, c: Client, x: Action): State
    requires Enabled(s, c, x)
  {
    match x
    case Record(nonce, row) => s.(table := s.table[nonce := row])
    case Call(a) => SetPhase(s, c, Waiting(a))
    case Begin => SetPhase(s, c, Began(PhaseOf(s, c).a)).(lock := Some(c), view := s.table)
    case Timeout => SetPhase(s, c, Failed(PhaseOf(s, c).a))
    case Fetch => SetPhase(s, c, Fetched(PhaseOf(s, c).a, Select(s.view, PhaseOf(s, c).a)))
    case Decide => DecideStep(s, c, PhaseOf(s, c).a, PhaseOf(s, c).row)
    case Commit =>
      var p := PhaseOf(s, c);
      SetPhase(s, c, Returned(p.a, p.result)).(table := s.view, lock := None,
                                               wins := if p.result.Ok? then s.wins + [p.a] else s.wins)
    case Crash => Rollback(s, c, Failed(PhaseOf(s, c).a))
  }

  ghost predicate Step(s: State, s': State) {
    exists c, x :: Enabled(s, c, x) && s' == Apply(s, c, x)
  }

  ghost predicate IsRun(run: seq<State>) {
    run != [] && Init(run[0]) && forall i :: 0 <= i < |run| - 1 ==> Step(run[i], run[i + 1])
  }

  /* ----- The lock keeps every transaction on the committed table ----- */

  /** The view and the phase of the client that holds the lock agree with the committed table. */
  ghost predicate HolderOk(table: Table, view: Table, p: Phase) {
    match p
    case Began(_) => view == table
    case Fetched(a, row) => view == table && row == Select(table, a)
    case Updated(a, result) => (result, view) == ConsumeCall(table, a) && result in {Ok(true), Err(Expired)}
    case _ => false
  }

  ghost predicate LockOk(s: State) {
    && (forall c: Client :: HoldsLock(PhaseOf(s, c)) ==> s.lock == Some(c))
    && (s.lock.Some? ==> HolderOk(s.table, s.view, PhaseOf(s, s.lock.value)))
  }

  /** Wins are of different nonces, and the row of each is consumed with the win's own values. */
  ghost predicate WinsOk(table: Table, wins: seq<Attempt>) {
    && (forall i, j :: 0 <= i < j < |wins| ==> wins[i].nonce != wins[j].nonce)
    && (forall i :: 0 <= i < |wins| ==> wins[i].nonce in table && WonBy(table[wins[i].nonce], wins[i]))
    && (forall n :: n in table && table[n].status == CONSUMED ==> exists i :: 0 <= i < |wins| && wins[i].nonce == n)
  }

  /** The row was consumed by this attempt: same approval, scope and payload, and in time. */
  ghost predicate WonBy(row: Row, a: Attempt) {
    && row.status == CONSUMED && row.consumedAt == Some(a.now)
    && row.approvalId == a.approvalId && row.taskScope == a.scope && row.payloadHash == a.payloadHash
    && a.now - row.createdAt <= row.ttlSeconds as real
  }

  ghost predicate Inv(s: State) {
    LockOk(s) && WinsOk(s.table, s.wins) && ConsumedInTime(s.table)
  }

  /**
   A step of a client is invisible in the table, or it ends the client's call, and then the
   outcome and the new table are those of the undisturbed call on the table at that moment.
   */
  ghost predicate Atomic(s: State, s': State, c: Client) {
    || (s'.table == s.table && s'.wins == s.wins && !(PhaseOf(s', c).Returned?))
    || (&& PhaseOf(s', c).Returned?
        && (PhaseOf(s', c).result, s'.table) == ConsumeCall(s.table, PhaseOf(s', c).a)
        && s'.wins == if PhaseOf(s', c).result.Ok? then s.wins + [PhaseOf(s', c).a] else s.wins)
  }

  lemma DecideIsAtomic(s: State, c: Client)
    requires LockOk(s) && Enabled(s, c, Decide)
    ensures Atomic(s, Apply(s, c, Decide), c) && LockOk(Apply(s, c, Decide))
  {
    var a := PhaseOf(s, c).a;
    assert HolderOk(s.table, s.view, PhaseOf(s, c));
    var o := Objection(PhaseOf(s, c).row, a);
    if o == None {
      assert s.view[a.nonce].status == PENDING;
    }
  }

  lemma StepIsAtomic(s: State, c: Client, x: Action)
    requires LockOk(s) && Enabled(s, c, x) && !x.Record?
    ensures Atomic(s, Apply(s, c, x), c) && LockOk(Apply(s, c, x))
  {
    if x.Decide? {
      DecideIsAtomic(s, c);
    } else if HoldsLock(PhaseOf(s, c)) {
      assert HolderOk(s.table, s.view, PhaseOf(s, c));
    }
  }

  lemma RecordKeeps(s: State, c: Client, x: Action)
    requires Inv(s) && Enabled(s, c, x) && x.Record?
    ensures Inv(Apply(s, c, x)) && Evolves(s.table, Apply(s, c, x).table)
  {
    var t := Apply(s, c, x).table;
    forall n | n in t && t[n].status == CONSUMED ensures exists i :: 0 <= i < |s.wins| && s.wins[i].nonce == n {
      assert n in s.table && s.table[n].status == CONSUMED;
    }
  }

  /** A finished call keeps the record of wins true. */
  lemma CallKeepsWins(table: Table, wins: seq<Attempt>, a: Attempt)
    requires WinsOk(table, wins)
    ensures var (r, t) := ConsumeCall(table, a); WinsOk(t, if r.Ok? then wins + [a] else wins)
  {
    var (r, t) := ConsumeCall(table, a);
    var ws := if r.Ok? then wins + [a] else wins;
    SucceedsExactly(table, a);
    forall n | n in t && t[n].status == CONSUMED ensures exists i :: 0 <= i < |ws| && ws[i].nonce == n {
      if n in table && table[n].status == CONSUMED {
        var i :| 0 <= i < |wins| && wins[i].nonce == n;
        assert ws[i].nonce == n;
      } else {
        assert ws[|wins|].nonce == n;
      }
    }
  }

  lemma StepKeeps(s: State, s': State)
    requires Inv(s) && Step(s, s')
    ensures Inv(s') && Evolves(s.table, s'.table) && s.wins <= s'.wins
  {
    var c, x :| Enabled(s, c, x) && s' == Apply(s, c, x);
    if x.Record? {
      RecordKeeps(s, c, x);
    } else {
      StepIsAtomic(s, c, x);
      if PhaseOf(s', c).Returned? {
        CallKeepsWins(s.table, s.wins, PhaseOf(s', c).a);
        CallEvolves(s.table, PhaseOf(s', c).a);
      }
    }
  }

  /* ----- Main results, over every run ----- */

  lemma {:induction false} RunKeeps(run: seq<State>, i: nat)
    requires IsRun(run) && i < |run|
    ensures Inv(run[i])
  {
    if i > 0 {
      RunKeeps(run, i - 1);
      StepKeeps(run[i - 1], run[i]);
    }
  }

  /** In every interleaving at most one attempt per nonce ever succeeds, and only one that was approved. */
  lemma AtMostOneSuccess(run: seq<State>, k: nat, i: nat, j: nat)
    requires IsRun(run) && k < |run| && i < |run[k].wins| && j < |run[k].wins|
    requires run[k].wins[i].nonce == run[k].wins[j].nonce
    ensures i == j
    ensures run[k].wins[i].nonce in run[k].table && WonBy(run[k].table[run[k].wins[i].nonce], run[k].wins[i])
  {
    RunKeeps(run, k);
  }

  lemma RunStepEvolves(run: seq<State>, i: nat)
    requires IsRun(run) && i + 1 < |run|
    ensures Evolves(run[i].table, run[i + 1].table) && run[i].wins <= run[i + 1].wins
  {
    RunKeeps(run, i);
    StepKeeps(run[i], run[i + 1]);
  }

  ghost predicate Continues(s: State, s': State) {
    Evolves(s.table, s'.table) && s.wins <= s'.wins
  }

  lemma {:induction false} ContinuesAlong(run: seq<State>, i: nat, j: nat)
    requires i <= j < |run| && forall k :: i <= k < j ==> Continues(run[k], run[k + 1])
    ensures Continues(run[i], run[j])
    decreases j
  {
    if i < j {
      ContinuesAlong(run, i, j - 1);
      assert Continues(run[j - 1], run[j - 1 + 1]);
      EvolvesTransitive(run[i].table, run[j - 1].table, run[j].table);
    }
  }

  /** Consumed and expired rows are never left, no row or win is lost. */
  lemma SettledForever(run: seq<State>, i: nat, j: nat)
    requires IsRun(run) && i <= j < |run|
    ensures Evolves(run[i].table, run[j].table) && run[i].wins <= run[j].wins
  {
    forall k | i <= k < j ensures Continues(run[k], run[k + 1]) {
      RunStepEvolves(run, k);
    }
    ContinuesAlong(run, i, j);
  }

  /** Whatever is consumed was consumed within its time to live. */
  lemma AlwaysInTime(run: seq<State>, i: nat)
    requires IsRun(run) && i < |run|
    ensures ConsumedInTime(run[i].table)
  {
    RunKeeps(run, i);
  }

  /** Every call that returns behaves as if it had run alone at the moment it returned. */
  lemma CallsAreAtomic(run: seq<State>, i: nat, c: Client, x: Action)
    requires IsRun(run) && i + 1 < |run| && !x.Record?
    requires Enabled(run[i], c, x) && run[i + 1] == Apply(run[i], c, x)
    ensures Atomic(run[i], run[i + 1], c)
  {
    RunKeeps(run, i);
    StepIsAtomic(run[i], c, x);
  }

  /** An attempt turned down for its scope or payload leaves the whole table, its row pending. */
  lemma RejectedLeavesPending(run: seq<State>, i: nat, c: Client, x: Action)
    requires IsRun(run) && i + 1 < |run| && !x.Record?
    requires Enabled(run[i], c, x) && run[i + 1] == Apply(run[i], c, x)
    requires PhaseOf(run[i + 1], c).Returned? && PhaseOf(run[i + 1], c).result in {Err(Scope), Err(PayloadTamper)}
    ensures run[i + 1].table == run[i].table
    ensures var a := PhaseOf(run[i + 1], c).a; a.nonce in run[i].table && run[i].table[a.nonce].status == PENDING
  {
    CallsAreAtomic(run, i, c, x);
    SucceedsExactly(run[i].table, PhaseOf(run[i + 1], c).a);
  }
}

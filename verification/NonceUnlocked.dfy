/**
 The same calls without the write lock: every client reads when it likes, decides on what it
 read then, and its one update takes effect by itself.  At most one success per nonce follows
 from the condition of that update alone; what the lock adds is that a consumed row stays so.
 */
module NonceUnlocked {
  import opened Wrappers
  import opened NonceLedger

  type Client = nat

  datatype Phase = Ready | Holding(a: Attempt, row: Option<Row>)

  datatype State = State(table: Table, phases: map<Client, Phase>, wins: seq<Attempt>)

  datatype Action = Record(nonce: string, row: Row) | Fetch(a: Attempt) | Finish

  function PhaseOf(s: State, c: Client): Phase {
    if c in s.phases then s.phases[c] else Ready
  }

  predicate Enabled(s: State, c: Client, x: Action) {
    match x
    case Record(nonce, row) => nonce !in s.table && row.status == PENDING
    case Fetch(_) => PhaseOf(s, c).Ready?
    case Finish => PhaseOf(s, c).Holding?
  }

  /** The decision on the row read earlier, and the update on the table as it is now. */
  function Apply(s: State, c: Client, x: Action): State
    requires Enabled(s, c, x)
  {
    match x
    case Record(nonce, row) => s.(table := s.table[nonce := row])
    case Fetch(a) => s.(phases := s.phases[c := Holding(a, Select(s.table, a))])
    case Finish =>
      var Holding(a, row) := PhaseOf(s, c);
      var done := s.(phases := s.phases[c := Ready]);
      match Objection(row, a)
      case Some(Expired) => done.(table := Expire(s.table, a.nonce))
      case Some(_) => done
      case None =>
        if a.nonce in s.table && s.table[a.nonce].status == PENDING then
          done.(table := Consume(s.table, a.nonce, a.now), wins := s.wins + [a])
        else done
  }

  ghost predicate Step(s: State, s': State) {
    exists c, x :: Enabled(s, c, x) && s' == Apply(s, c, x)
  }

  ghost predicate IsRun(run: seq<State>) {
    && run != [] && run[0] == State(map[], map[], [])
    && forall i :: 0 <= i < |run| - 1 ==> Step(run[i], run[i + 1])
  }

  /** No nonce has won twice, and none that has won is pending. */
  ghost predicate Inv(s: State) {
    && (forall i, j :: 0 <= i < j < |s.wins| ==> s.wins[i].nonce != s.wins[j].nonce)
    && (forall i :: 0 <= i < |s.wins| ==> s.wins[i].nonce in s.table && Settled(s.table[s.wins[i].nonce]))
  }

  lemma StepKeeps(s: State, s': State)
    requires Inv(s) && Step(s, s')
    ensures Inv(s')
  {
    var c, x :| Enabled(s, c, x) && s' == Apply(s, c, x);
    if x.Finish? {
      var a := PhaseOf(s, c).a;
      if s'.wins != s.wins {
        assert s'.wins == s.wins + [a] && !Settled(s.table[a.nonce]);
      }
    }
  }

  lemma {:induction false} RunKeeps(run: seq<State>, i: nat)
    requires IsRun(run) && i < |run|
    ensures Inv(run[i])
  {
    if i > 0 {
      RunKeeps(run, i - 1);
      StepKeeps(run[i - 1], run[i]);
    }
  }

  /** Even with stale reads no nonce is consumed twice. */
  lemma AtMostOneSuccess(run: seq<State>, k: nat, i: nat, j: nat)
    requires IsRun(run) && k < |run| && i < |run[k].wins| && j < |run[k].wins|
    requires run[k].wins[i].nonce == run[k].wins[j].nonce
    ensures i == j
  {
    RunKeeps(run, k);
  }

  /**
   Two clients read the pending row, one in time and one late.  The first consumes the nonce,
   the second then marks it expired: without the lock a consumed row can be overwritten.
   */
  lemma ConsumedCanBeOverwritten(row: Row, first: Attempt, late: Attempt) returns (run: seq<State>)
    requires row.status == PENDING && first.nonce == late.nonce
    requires row.approvalId == first.approvalId == late.approvalId
    requires row.taskScope == first.scope && row.payloadHash == first.payloadHash
    requires !Late(row, first) && Late(row, late)
    ensures IsRun(run) && |run| == 6
    ensures first.nonce in run[4].table && run[4].table[first.nonce].status == CONSUMED
    ensures first.nonce in run[5].table && run[5].table[first.nonce].status == EXPIRED
  {
    var s0 := State(map[], map[], []);
    var s1 := Apply(s0, 0, Record(first.nonce, row));
    var s2 := Apply(s1, 0, Fetch(first));
    var s3 := Apply(s2, 1, Fetch(late));
    var s4 := Apply(s3, 0, Finish);
    var s5 := Apply(s4, 1, Finish);
    run := [s0, s1, s2, s3, s4, s5];
    assert Step(s0, s1) && Step(s1, s2) && Step(s2, s3) && Step(s3, s4) && Step(s4, s5);
  }
}

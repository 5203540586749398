/** The approval ledger: its table, and the effect of one call of each operation. */
module NonceLedger {
  import opened Wrappers

  datatype Status = PENDING | CONSUMED | EXPIRED

  datatype Row = Row(approvalId: string, payloadHash: string, principalId: string, taskScope: string, policyHash: string,
                     ttlSeconds: int, createdAt: real, consumedAt: Option<real>, status: Status)

  /** The table by its primary key, the nonce. */
  type Table = map<string, Row>

  datatype Violation = Integrity | Replay | Expired | Scope | PayloadTamper

  /** The arguments of a consume_nonce call, with the clock and the payload digest it took at its start. */
  datatype Attempt = Attempt(nonce: string, approvalId: string, payloadHash: string, scope: string, now: real)

  type Outcome = Result<bool, Violation>

  /** SELECT ... WHERE nonce = ? AND approval_id = ?. */
  function Select(t: Table, a: Attempt): Option<Row> {
    if a.nonce in t && t[a.nonce].approvalId == a.approvalId then Some(t[a.nonce]) else None
  }

  predicate Late(row: Row, a: Attempt) {
    a.now - row.createdAt > row.ttlSeconds as real
  }

  /** UPDATE ... SET status = 'EXPIRED' WHERE nonce = ?, whatever the status is. */
  function Expire(t: Table, nonce: string): Table {
    if nonce in t then t[nonce := t[nonce].(status := EXPIRED)] else t
  }

  /** UPDATE ... SET status = 'CONSUMED' WHERE nonce = ? AND status = 'PENDING'. */
  function Consume(t: Table, nonce: string, now: real): Table {
    if nonce in t && t[nonce].status == PENDING then t[nonce := t[nonce].(status := CONSUMED, consumedAt := Some(now))]
    else t
  }

  /** The checks between the SELECT and the updates: None when the nonce is to be consumed. */
  function Objection(row: Option<Row>, a: Attempt): Option<Violation> {
    if row.None? || row.value.status != PENDING then Some(Replay)
    else if Late(row.value, a) then Some(Expired)
    else if row.value.taskScope != a.scope then Some(Scope)
    else if row.value.payloadHash != a.payloadHash then Some(PayloadTamper)
    else None
  }

  /** One call, undisturbed: its outcome and the table it leaves. */
  function ConsumeCall(t: Table, a: Attempt): (Outcome, Table) {
    match Objection(Select(t, a), a)
    case None => (Ok(true), Consume(t, a.nonce, a.now))
    case Some(v) => (Err(v), if v == Expired then Expire(t, a.nonce) else t)
  }

  class ApprovalNonceLedger {
    var rows: Table

    /** Opens a database; a new file holds no rows. */
    constructor (existing: Table)
      ensures rows == existing
    {
      rows := existing;
    }

    /** Inserts a pending row; a nonce that is already there violates the primary key. */
    method RecordApproval(approvalId: string, payloadHash: string, principalId: string, taskScope: string,
                          policyHash: string, ttlSeconds: int, nonce: string, now: real)
      returns (r: Result<string, Violation>)
      modifies this
      ensures r == if nonce in old(rows) then Err(Integrity) else Ok(nonce)
      ensures r.Err? ==> rows == old(rows)
      ensures r.Ok? ==> rows == old(rows)[nonce := Row(approvalId, payloadHash, principalId, taskScope, policyHash,
                                                       ttlSeconds, now, None, PENDING)]
    {
      if nonce in rows {
        return Err(Integrity);
      }
      rows := rows[nonce := Row(approvalId, payloadHash, principalId, taskScope, policyHash, ttlSeconds, now, None, PENDING)];
      return Ok(nonce);
    }

    /** The checks in the source's order, then the conditional update. */
    method ConsumeNonce(a: Attempt) returns (r: Outcome)
      modifies this
      ensures (r, rows) == ConsumeCall(old(rows), a)
    {
      var row := Select(rows, a);
      if row.None? {
        return Err(Replay);
      }
      if row.value.status == CONSUMED {
        return Err(Replay);
      }
      if row.value.status != PENDING {
        return Err(Replay);
      }
      if a.now - row.value.createdAt > row.value.ttlSeconds as real {
        rows := rows[a.nonce := rows[a.nonce].(status := EXPIRED)];
        return Err(Expired);
      }
      if row.value.taskScope != a.scope {
        return Err(Scope);
      }
      if a.payloadHash != row.value.payloadHash {
        return Err(PayloadTamper);
      }
      var rowCount := 0;
      if rows[a.nonce].status == PENDING {
        rows := rows[a.nonce := rows[a.nonce].(status := CONSUMED, consumedAt := Some(a.now))];
        rowCount := 1;
      }
      if rowCount != 1 {
        return Err(Replay);
      }
      return Ok(true);
    }
  }

  /* ----- What one call does to the rows ----- */

  /** A row that is settled: nothing may change it any more. */
  predicate Settled(row: Row) {
    row.status != PENDING
  }

  /** Every consumed row was consumed within its time to live. */
  ghost predicate ConsumedInTime(t: Table) {
    forall n :: n in t && t[n].status == CONSUMED ==>
      t[n].consumedAt.Some? && t[n].consumedAt.value - t[n].createdAt <= t[n].ttlSeconds as real
  }

  /** From one table to a later one no row is lost, no settled row changes, and no approved value does. */
  ghost predicate Evolves(t: Table, t': Table) {
    forall n :: n in t ==>
      && n in t'
      && (Settled(t[n]) ==> t'[n] == t[n])
      && t'[n].(status := t[n].status, consumedAt := t[n].consumedAt) == t[n]
  }

  lemma CallEvolves(t: Table, a: Attempt)
    ensures Evolves(t, ConsumeCall(t, a).1)
    ensures ConsumedInTime(t) ==> ConsumedInTime(ConsumeCall(t, a).1)
  {
  }

  lemma EvolvesTransitive(t: Table, t': Table, t'': Table)
    ensures Evolves(t, t') && Evolves(t', t'') ==> Evolves(t, t'')
  {
    if Evolves(t, t') && Evolves(t', t'') {
      forall n | n in t
        ensures n in t'' && (Settled(t[n]) ==> t''[n] == t[n])
        ensures t''[n].(status := t[n].status, consumedAt := t[n].consumedAt) == t[n]
      {
        assert n in t';
      }
    }
  }

  /** Which refusal is given, exactly, and what it leaves: the first fault in this order. */
  lemma RefusesExactly(t: Table, a: Attempt)
    ensures var (r, t') := ConsumeCall(t, a);
            var pending := a.nonce in t && t[a.nonce].approvalId == a.approvalId && t[a.nonce].status == PENDING;
            && (r == Err(Replay) <==> !pending)
            && (pending ==>
                var row := t[a.nonce];
                var late := a.now - row.createdAt > row.ttlSeconds as real;
                && (r == Err(Expired) <==> late)
                && (r == Err(Scope) <==> !late && row.taskScope != a.scope)
                && (r == Err(PayloadTamper) <==> !late && row.taskScope == a.scope && row.payloadHash != a.payloadHash))
            && (r == Err(Expired) ==> t' == t[a.nonce := t[a.nonce].(status := EXPIRED)])
            && (r in {Err(Replay), Err(Scope), Err(PayloadTamper)} ==> t' == t)
            && r != Err(Integrity)
  {
  }

  /**
   A call succeeds exactly when the approval stands pending under its nonce and id, within its
   time to live, for this scope and this payload; afterwards the row is consumed.
   */
  lemma SucceedsExactly(t: Table, a: Attempt)
    ensures ConsumeCall(t, a).0.Ok? <==>
            && a.nonce in t && t[a.nonce].approvalId == a.approvalId && t[a.nonce].status == PENDING
            && a.now - t[a.nonce].createdAt <= t[a.nonce].ttlSeconds as real
            && t[a.nonce].taskScope == a.scope && t[a.nonce].payloadHash == a.payloadHash
    ensures ConsumeCall(t, a).0.Ok? ==>
              ConsumeCall(t, a).1 == t[a.nonce := t[a.nonce].(status := CONSUMED, consumedAt := Some(a.now))]
    ensures ConsumeCall(t, a).0 in {Err(Scope), Err(PayloadTamper)} ==>
              ConsumeCall(t, a).1 == t && a.nonce in t && t[a.nonce].status == PENDING
    ensures ConsumeCall(t, a).0 == Err(Expired) <==>
            a.nonce in t && t[a.nonce].status == PENDING && ConsumeCall(t, a).1 == Expire(t, a.nonce)
            && ConsumeCall(t, a).1 != t
  {
  }
}

/** The intent ledger: one pending owner per target, decided by whichever row the query returns. */
module IntentLedger {
  import opened Wrappers

  const PENDING := "PENDING"

  datatype Intent = Intent(agentId: string, targetApi: string, payload: string, status: string)

  /** The table by its primary key, the intent id. */
  type Intents = map<string, Intent>

  datatype DeclareError = Collision(holder: string) | DuplicateId

  type Declared = Result<string, DeclareError>

  ghost predicate PendingOn(t: Intents, id: string, target: string) {
    id in t && t[id].targetApi == target && t[id].status == PENDING
  }

  /** All pending intents for one target belong to one agent. */
  ghost predicate Exclusive(t: Intents) {
    forall i, j :: i in t && j in t && PendingOn(t, i, t[i].targetApi) && PendingOn(t, j, t[i].targetApi) ==>
      t[i].agentId == t[j].agentId
  }

  ghost predicate NonePending(t: Intents, target: string) {
    forall id :: !PendingOn(t, id, target)
  }

  ghost predicate OthersPending(t: Intents, agent: string, target: string) {
    exists id :: PendingOn(t, id, target) && t[id].agentId != agent
  }

  /** The outcomes a declaration may have: fetchone may return any of the pending rows. */
  ghost predicate DeclareMay(t: Intents, id: string, intent: Intent, r: Declared, t': Intents) {
    || (exists row :: PendingOn(t, row, intent.targetApi) && t[row].agentId != intent.agentId
                      && r == Err(Collision(t[row].agentId)) && t' == t)
    || ((NonePending(t, intent.targetApi) ||
         exists row :: PendingOn(t, row, intent.targetApi) && t[row].agentId == intent.agentId)
        && if id in t then r == Err(DuplicateId) && t' == t else r == Ok(id) && t' == t[id := intent])
  }

  /** UPDATE ... SET status = ? WHERE id = ?. */
  function Resolve(t: Intents, id: string, status: string): Intents {
    if id in t then t[id := t[id].(status := status)] else t
  }

  class IntentLedger {
    var rows: Intents

    /** Opens a database; a new file holds no rows. */
    constructor (existing: Intents)
      ensures rows == existing
    {
      rows := existing;
    }

    /** id is the fresh UUID of the new intent. */
    method DeclareIntent(agentId: string, targetApi: string, payload: string, id: string) returns (r: Declared)
      modifies this
      ensures DeclareMay(old(rows), id, Intent(agentId, targetApi, payload, PENDING), r, rows)
    {
      var pending := set i | i in rows && rows[i].targetApi == targetApi && rows[i].status == PENDING;
      if pending != {} {
        var existing :| existing in pending;
        assert PendingOn(rows, existing, targetApi);
        if rows[existing].agentId != agentId {
          return Err(Collision(rows[existing].agentId));
        }
      } else {
        assert forall i :: PendingOn(rows, i, targetApi) ==> i in pending;
      }
      if id in rows {
        return Err(DuplicateId);
      }
      rows := rows[id := Intent(agentId, targetApi, payload, PENDING)];
      return Ok(id);
    }

    method ResolveIntent(id: string, finalStatus: string)
      modifies this
      ensures rows == Resolve(old(rows), id, finalStatus)
    {
      if id in rows {
        rows := rows[id := rows[id].(status := finalStatus)];
      }
    }
  }

  /* ----- One row decides for all ----- */

  /**
   While targets have one owner, the arbitrary row decides correctly: a declaration collides
   exactly when another agent has a pending intent on the target, and ownership stays single.
   */
  lemma OneRowDecides(t: Intents, id: string, intent: Intent, r: Declared, t': Intents)
    requires Exclusive(t) && intent.status == PENDING && DeclareMay(t, id, intent, r, t')
    ensures (r.Err? && r.error.Collision?) <==> OthersPending(t, intent.agentId, intent.targetApi)
    ensures Exclusive(t')
  {
    if r.Ok? {
      assert t' == t[id := intent];
      forall i, j | i in t' && j in t' && PendingOn(t', i, t'[i].targetApi) && PendingOn(t', j, t'[i].targetApi)
        ensures t'[i].agentId == t'[j].agentId
      {
        if i != id {
          assert PendingOn(t, i, t[i].targetApi);
        }
        if j != id {
          assert PendingOn(t, j, t[j].targetApi);
        }
      }
    }
  }

  /** An agent without pending intents of its own on a target is admitted exactly when none remain there. */
  lemma AdmittedWhenFree(t: Intents, id: string, intent: Intent, r: Declared, t': Intents)
    requires Exclusive(t) && intent.status == PENDING && DeclareMay(t, id, intent, r, t') && id !in t
    requires forall i :: PendingOn(t, i, intent.targetApi) ==> t[i].agentId != intent.agentId
    ensures r.Ok? <==> NonePending(t, intent.targetApi)
  {
    OneRowDecides(t, id, intent, r, t');
  }

  /**
   Writing a status keeps ownership single exactly when it does not reopen an intent on a target
   where another agent has one pending.
   */
  lemma ResolveKeepsExclusive(t: Intents, id: string, status: string)
    requires Exclusive(t) && id in t
    ensures Exclusive(Resolve(t, id, status)) <==>
            !(status == PENDING && OthersPending(t, t[id].agentId, t[id].targetApi))
  {
    var t' := Resolve(t, id, status);
    if status == PENDING && OthersPending(t, t[id].agentId, t[id].targetApi) {
      var j :| PendingOn(t, j, t[id].targetApi) && t[j].agentId != t[id].agentId;
      assert PendingOn(t', id, t'[id].targetApi) && PendingOn(t', j, t'[id].targetApi);
    } else {
      forall i, j | i in t' && j in t' && PendingOn(t', i, t'[i].targetApi) && PendingOn(t', j, t'[i].targetApi)
        ensures t'[i].agentId == t'[j].agentId
      {
        assert i != id ==> PendingOn(t, i, t[i].targetApi);
        assert j != id ==> PendingOn(t, j, t[j].targetApi);
      }
    }
  }

  /* ----- Runs ----- */

  /** An admitted declaration adds the intent as pending, with its own parts, and changes no other row. */
  lemma AdmittedIsRecorded(t: Intents, id: string, agent: string, target: string, payload: string, r: Declared, t': Intents)
    requires DeclareMay(t, id, Intent(agent, target, payload, "PENDING"), r, t')
    ensures r.Ok? ==> && r.value == id && id !in t && t'.Keys == t.Keys + {id}
                      && t'[id] == Intent(agent, target, payload, "PENDING")
                      && forall i :: i in t ==> t'[i] == t[i]
    ensures r.Err? ==> t' == t
  {
  }

  /** A write to an intent changes its status and nothing else. */
  lemma ResolveWrites(t: Intents, id: string, status: string)
    ensures Resolve(t, id, status).Keys == t.Keys
    ensures id in t ==> Resolve(t, id, status)[id] == Intent(t[id].agentId, t[id].targetApi, t[id].payload, status)
    ensures forall i :: i in t && i != id ==> Resolve(t, id, status)[i] == t[i]
  {
  }

  /**
   A target is held from declaration to settlement: while an intent of one agent is pending on
   it every other agent collides, and when the only one is settled every agent is let in.
   */
  lemma HeldUntilSettled(t: Intents, id: string, intent: Intent, t': Intents, other: Intent, otherId: string,
                         r: Declared, t'': Intents, status: string)
    requires Exclusive(t) && intent.status == other.status == PENDING && status != PENDING
    requires DeclareMay(t, id, intent, Ok(id), t') && id !in t
    requires other.targetApi == intent.targetApi && other.agentId != intent.agentId && otherId !in t'
    ensures DeclareMay(t', otherId, other, r, t'') ==> r == Err(Collision(intent.agentId)) && t'' == t'
    ensures NonePending(t, intent.targetApi) && DeclareMay(Resolve(t', id, status), otherId, other, r, t'') ==> r == Ok(otherId)
  {
    assert t' == t[id := intent] && PendingOn(t', id, intent.targetApi);
    if DeclareMay(t', otherId, other, r, t'') {
      OneRowDecides(t, id, intent, Ok(id), t');
      OneRowDecides(t', otherId, other, r, t'');
      assert OthersPending(t', other.agentId, other.targetApi);
    }
    if NonePending(t, intent.targetApi) {
      assert NonePending(Resolve(t', id, status), intent.targetApi) by {
        forall i ensures !PendingOn(Resolve(t', id, status), i, intent.targetApi) {
          assert !PendingOn(t, i, intent.targetApi);
        }
      }
    }
  }

  datatype Action = Declare(id: string, intent: Intent) | Settle(id: string, status: string)

  /** Declarations, and status writes other than PENDING, which are all that observed calls make. */
  ghost predicate StepBy(t: Intents, x: Action, t': Intents) {
    match x
    case Declare(id, intent) => intent.status == PENDING && exists r :: DeclareMay(t, id, intent, r, t')
    case Settle(id, status) => status != PENDING && t' == Resolve(t, id, status)
  }

  ghost predicate Step(t: Intents, t': Intents) {
    exists x :: StepBy(t, x, t')
  }

  ghost predicate IsRun(run: seq<Intents>) {
    run != [] && run[0] == map[] && forall i :: 0 <= i < |run| - 1 ==> Step(run[i], run[i + 1])
  }

  lemma StepKeepsExclusive(t: Intents, t': Intents)
    requires Exclusive(t) && Step(t, t')
    ensures Exclusive(t')
  {
    var x :| StepBy(t, x, t');
    match x
    case Declare(id, intent) =>
      var r :| DeclareMay(t, id, intent, r, t');
      OneRowDecides(t, id, intent, r, t');
    case Settle(id, status) =>
      if id in t {
        ResolveKeepsExclusive(t, id, status);
      }
  }

  /** In every reachable ledger all pending intents for one target belong to one agent. */
  lemma {:induction false} ReachableIsExclusive(run: seq<Intents>, i: nat)
    requires IsRun(run) && i < |run|
    ensures Exclusive(run[i])
  {
    if i > 0 {
      ReachableIsExclusive(run, i - 1);
      StepKeepsExclusive(run[i - 1], run[i]);
    }
  }
}

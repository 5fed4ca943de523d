/** Safety of the audit buffer over every run: locks, acknowledgement, conservation, parking, the cap. */
module AuditSafety {
  import opened Sets
  import opened AuditBuffer

  // ---------------------------------------------------------------- each step keeps the invariant

  /** A fresh row under the next id: the table grows and nothing already recorded changes. */
  lemma FreshRowKeepsInv(s: State, t: State, i: Insertion)
    requires Inv(s) && !HasJti(s.rows, i.jti)
    requires t.rows == s.rows[s.nextId := NewRow(i)] && t.nextId == s.nextId + 1 && t.inserted == s.inserted + {i.jti}
    requires t.workers == s.workers && t.delivered == s.delivered && t.acked == s.acked && t.purged == s.purged
    ensures Inv(t)
  {
    FreshRowIsDistinct(s, t, i);
    FreshRowKeepsWorkers(s, t, i);
    FreshRowLosesNothing(s, t, i);
    FreshRowKeepsDeliveries(s, t, i);
  }

  lemma FreshRowKeepsDeliveries(s: State, t: State, i: Insertion)
    requires DistinctRows(s) && SentWasAcked(s) && DeliveredIsFinal(s)
    requires t.rows == s.rows[s.nextId := NewRow(i)] && t.nextId == s.nextId + 1
    requires t.delivered == s.delivered && t.acked == s.acked
    ensures SentWasAcked(t) && DeliveredIsFinal(t)
  {
    assert forall id | id in t.rows && !Unsent(t.rows[id]) :: id in s.rows && t.rows[id] == s.rows[id];
  }

  lemma FreshRowIsDistinct(s: State, t: State, i: Insertion)
    requires DistinctRows(s) && !HasJti(s.rows, i.jti)
    requires t.rows == s.rows[s.nextId := NewRow(i)] && t.nextId == s.nextId + 1
    ensures DistinctRows(t)
  {
    assert forall id | id in s.rows :: t.rows[id] == s.rows[id] && s.rows[id].jti != i.jti;
  }

  lemma FreshRowKeepsWorkers(s: State, t: State, i: Insertion)
    requires DistinctRows(s) && WorkersOk(s)
    requires t.rows == s.rows[s.nextId := NewRow(i)] && t.workers == s.workers && t.acked == s.acked
    ensures WorkersOk(t)
  {
    forall k | k in t.workers ensures WorkerOk(t, t.workers[k]) {
      var b := Batch(t.workers[k]);
      assert WorkerOk(s, s.workers[k]);
      assert forall id | id in b :: id in s.rows && t.rows[id] == s.rows[id];
      assert Events(t.rows, b) == Events(s.rows, b);
    }
  }

  lemma FreshRowLosesNothing(s: State, t: State, i: Insertion)
    requires DistinctRows(s) && NothingLost(s)
    requires t.rows == s.rows[s.nextId := NewRow(i)] && t.inserted == s.inserted + {i.jti}
    requires t.acked == s.acked && t.purged == s.purged
    ensures NothingLost(t)
  {
    assert t.rows[s.nextId].jti == i.jti;
    forall j | j in s.inserted && HasJti(s.rows, j) ensures HasJti(t.rows, j) {
      var id :| id in s.rows && s.rows[id].jti == j;
      assert t.rows[id].jti == j;
    }
    PurgedStaysAcked(s, t);
  }

  lemma InsertKeepsInv(s: State, w: WriterId)
    requires Inv(s) && w in s.writers && s.writers[w].DepthChecked?
    ensures Inv(Insert(s, w))
  {
    var i := s.writers[w].insertion;
    if i.jti != "" && !HasJti(s.rows, i.jti) {
      FreshRowKeepsInv(s, Insert(s, w), i);
    } else {
      SameTable(s, Insert(s, w));
    }
  }

  lemma PurgedStaysAcked(s: State, t: State)
    requires s.acked <= t.acked && forall j | j in s.purged :: AckedJti(s, j)
    ensures forall j | j in s.purged :: AckedJti(t, j)
  {
  }

  /** Steps that leave the table, its transactions and its history alone. */
  lemma SameTable(s: State, t: State)
    requires Inv(s) && t == s.(writers := t.writers)
    ensures Inv(t)
  {
    forall k | k in t.workers ensures WorkerOk(t, t.workers[k]) {
      assert WorkerOk(s, s.workers[k]);
    }
    PurgedStaysAcked(s, t);
  }

  /** Giving one worker a new transaction state that respects the other workers' locks. */
  lemma WorkerChangeKeepsInv(s: State, t: State, k: WorkerId, w: Worker)
    requires Inv(s) && k in s.workers && t == s.(workers := s.workers[k := w])
    requires WorkerOk(t, w)
    requires forall j | j in s.workers && j != k :: Batch(s.workers[j]) !! Batch(w)
    ensures Inv(t)
  {
    forall j | j in t.workers ensures WorkerOk(t, t.workers[j]) {
      if j != k { assert WorkerOk(s, s.workers[j]); }
    }
    PurgedStaysAcked(s, t);
  }

  lemma DequeueKeepsInv(c: Config, s: State, k: WorkerId, batch: set<RowId>, eligible: set<RowId>, w: Worker)
    requires Inv(s) && k in s.workers && s.workers[k].Idle? && batch <= eligible
    requires forall id | id in eligible :: id in s.rows && !Locked(s, id)
    requires Batch(w) == batch && WorkerOk(s, w)
    ensures Inv(s.(workers := s.workers[k := w]))
  {
    forall j | j in s.workers && j != k ensures Batch(s.workers[j]) !! Batch(w) {
      forall id | id in Batch(s.workers[j]) ensures id !in batch {
        assert Locked(s, id);
      }
    }
    WorkerChangeKeepsInv(s, s.(workers := s.workers[k := w]), k, w);
  }

  lemma SinkAcksKeepsInv(c: Config, s: State, k: WorkerId)
    requires Inv(s) && Enabled(c, s, SinkAcks(k))
    ensures Inv(Apply(c, s, SinkAcks(k)))
  {
    var t := Apply(c, s, SinkAcks(k));
    assert WorkerOk(s, s.workers[k]);
    forall j | j in t.workers ensures WorkerOk(t, t.workers[j]) {
      assert WorkerOk(s, s.workers[j]);
    }
    PurgedStaysAcked(s, t);
  }

  lemma SinkFailsKeepsInv(c: Config, s: State, k: WorkerId, reached: set<RowId>, error: string)
    requires Inv(s) && Enabled(c, s, SinkFails(k, reached, error))
    ensures Inv(Apply(c, s, SinkFails(k, reached, error)))
  {
    var t := Apply(c, s, SinkFails(k, reached, error));
    assert WorkerOk(s, s.workers[k]);
    forall j | j in t.workers ensures WorkerOk(t, t.workers[j]) {
      assert WorkerOk(s, s.workers[j]);
    }
    PurgedStaysAcked(s, t);
  }

  /** A commit rewrites rows of the committing worker's batch only, and never a jti or a JWS the sink
      may have seen. */
  ghost predicate CommitOf(s: State, t: State, k: WorkerId) {
    && k in s.workers
    && t == s.(workers := s.workers[k := Idle], rows := t.rows)
    && t.rows.Keys == s.rows.Keys
    && (forall id | id in s.rows && id !in Batch(s.workers[k]) :: t.rows[id] == s.rows[id])
    && (forall id | id in s.rows :: t.rows[id].jti == s.rows[id].jti)
    && (forall id | id in s.rows && s.rows[id].jws != "" :: t.rows[id].jws == s.rows[id].jws)
  }

  lemma CommitKeepsInv(s: State, t: State, k: WorkerId)
    requires Inv(s) && CommitOf(s, t, k) && SentWasAcked(t)
    ensures Inv(t)
  {
    forall j | j in t.workers ensures WorkerOk(t, t.workers[j]) {
      if j != k {
        assert WorkerOk(s, s.workers[j]);
        assert Batch(s.workers[j]) !! Batch(s.workers[k]);
      }
    }
    forall j | j in t.inserted ensures HasJti(t.rows, j) || j in t.purged {
      if HasJti(s.rows, j) {
        var id :| id in s.rows && s.rows[id].jti == j;
        assert t.rows[id].jti == j;
      }
    }
    PurgedStaysAcked(s, t);
  }

  lemma ReleaseSentKeepsInv(c: Config, s: State, k: WorkerId, now: int)
    requires Inv(s) && Enabled(c, s, ReleaseSent(k, now))
    ensures Inv(CommitSent(s, k, now))
  {
    var t := CommitSent(s, k, now);
    var w := s.workers[k];
    assert WorkerOk(s, w);
    forall id | id in t.rows && !Unsent(t.rows[id])
      ensures t.rows[id].jws != "" && Event(id, t.rows[id].jti, t.rows[id].jws) in t.acked
    {
      if id in w.batch {
        assert Event(id, s.rows[id].jti, s.rows[id].jws) in Events(s.rows, w.batch);
      }
    }
    CommitKeepsInv(s, t, k);
  }

  lemma ReleaseResignIsCommit(s: State, k: WorkerId, success: bool, error: string)
    requires k in s.workers && s.workers[k].Resigning? && WorkerOk(s, s.workers[k])
    ensures CommitOf(s, CommitResign(s, k, success, error), k)
    ensures forall id | id in s.rows :: CommitResign(s, k, success, error).rows[id].sentAt == s.rows[id].sentAt
  {
    var w := s.workers[k];
    var written := WriteJws(s.rows, w.writes);
    assert forall id | id in s.rows && id !in w.batch :: written[id] == s.rows[id];
    assert forall id | id in s.rows && s.rows[id].jws != "" :: id !in w.batch;
  }

  lemma ReleaseResignKeepsInv(c: Config, s: State, k: WorkerId, success: bool, error: string)
    requires Inv(s) && Enabled(c, s, ReleaseResign(k, success, error))
    ensures Inv(CommitResign(s, k, success, error))
  {
    var t := CommitResign(s, k, success, error);
    ReleaseResignIsCommit(s, k, success, error);
    assert SentWasAcked(t) by {
      forall id | id in t.rows && !Unsent(t.rows[id])
        ensures t.rows[id].jws != "" && Event(id, t.rows[id].jti, t.rows[id].jws) in t.acked
      {
        assert !Unsent(s.rows[id]) && t.rows[id].jws == s.rows[id].jws;
      }
    }
    CommitKeepsInv(s, t, k);
  }

  lemma VacuumKeepsInv(c: Config, s: State, now: int, days: int)
    requires Inv(s) && Enabled(c, s, Vacuum(now, days))
    ensures Inv(Apply(c, s, Vacuum(now, days)))
  {
    var t := Apply(c, s, Vacuum(now, days));
    forall k | k in t.workers ensures WorkerOk(t, t.workers[k]) {
      assert WorkerOk(s, s.workers[k]);
    }
    forall j | j in t.inserted ensures HasJti(t.rows, j) || j in t.purged {
      if HasJti(s.rows, j) {
        var id :| id in s.rows && s.rows[id].jti == j;
        if !Expired(s.rows[id], now, days) { assert t.rows[id].jti == j; }
      }
    }
    forall j | j in t.purged ensures AckedJti(t, j) {
      if j in s.purged {
        PurgedStaysAcked(s, t);
      } else {
        var id :| id in s.rows && Expired(s.rows[id], now, days) && s.rows[id].jti == j;
        assert Event(id, s.rows[id].jti, s.rows[id].jws) in t.acked;
      }
    }
  }

  /** Every action of every writer, worker and the Vacuum job keeps the invariant. */
  lemma StepKeepsInv(c: Config, s: State, a: Action)
    requires Inv(s) && Enabled(c, s, a)
    ensures Inv(Apply(c, s, a))
  {
    match a
    case CheckDepth(w, i, _) => SameTable(s, Apply(c, s, a));
    case InsertRow(w) => InsertKeepsInv(s, w);
    case GiveUp(w) => SameTable(s, Apply(c, s, a));
    case DequeuePending(k, b) => DequeueKeepsInv(c, s, k, b, UnlockedForwardable(s), Forwarding(b, NotSent));
    case SinkAcks(k) => SinkAcksKeepsInv(c, s, k);
    case SinkFails(k, reached, error) => SinkFailsKeepsInv(c, s, k, reached, error);
    case ReleaseSent(k, now) => ReleaseSentKeepsInv(c, s, k, now);
    case DequeueUnsigned(k, b) => DequeueKeepsInv(c, s, k, b, UnlockedResignable(s), Resigning(b, map[], false));
    case SetJws(k, id, jws) =>
      assert WorkerOk(s, s.workers[k]);
      WorkerChangeKeepsInv(s, Apply(c, s, a), k, Apply(c, s, a).workers[k]);
    case SetJwsFails(k) =>
      assert WorkerOk(s, s.workers[k]);
      WorkerChangeKeepsInv(s, Apply(c, s, a), k, Apply(c, s, a).workers[k]);
    case ReleaseResign(k, success, error) => ReleaseResignKeepsInv(c, s, k, success, error);
    case LoseTransaction(k) => WorkerChangeKeepsInv(s, Apply(c, s, a), k, Idle);
    case Vacuum(now, days) => VacuumKeepsInv(c, s, now, days);
  }

  /** In every state of every run from an empty buffer: in-flight batches are pairwise disjoint, a sent
      row was acknowledged with the JWS it holds, and every inserted jti is in the table or was
      acknowledged before Vacuum deleted it. */
  lemma {:induction false} EveryRunIsSafe(c: Config, states: seq<State>, actions: seq<Action>, n: nat)
    requires Run(c, states, actions) && Initial(states[0]) && n < |states|
    ensures Inv(states[n])
  {
    if n > 0 {
      EveryRunIsSafe(c, states, actions, n - 1);
      StepKeepsInv(c, states[n - 1], actions[n - 1]);
    }
  }

  // ---------------------------------------------------------------- what a step may do to one row

  /** A row leaves the table only through Vacuum, after it was sent; its identity and payload never
      change; a sent row, a parked row and a JWS are final. */
  lemma StepOnRow(c: Config, s: State, a: Action, id: RowId)
    requires Inv(s) && Enabled(c, s, a) && id in s.rows
    ensures RowContinues(s, Apply(c, s, a), id)
  {
    match a
    case ReleaseSent(k, now) => SentStepOnRow(s, k, now, id);
    case ReleaseResign(k, success, error) => ResignStepOnRow(s, k, success, error, id);
    case Vacuum(_, _) =>
    case InsertRow(_) =>
    case _ => assert Apply(c, s, a).rows == s.rows;
  }

  predicate RowContinues(s: State, t: State, id: RowId)
    requires id in s.rows
  {
    && s.nextId <= t.nextId && s.purged <= t.purged
    && (id !in t.rows ==> !Unsent(s.rows[id]) && s.rows[id].jti in t.purged)
    && (id in t.rows ==>
          && t.rows[id].jti == s.rows[id].jti
          && t.rows[id].payload == s.rows[id].payload
          && t.rows[id].emittedAt == s.rows[id].emittedAt
          && (s.rows[id].jws != "" ==> t.rows[id].jws == s.rows[id].jws)
          && (!Unsent(s.rows[id]) || Parked(s.rows[id]) ==> t.rows[id] == s.rows[id]))
  }

  lemma SentStepOnRow(s: State, k: WorkerId, now: int, id: RowId)
    requires k in s.workers && s.workers[k].Forwarding? && WorkerOk(s, s.workers[k]) && id in s.rows
    ensures RowContinues(s, CommitSent(s, k, now), id)
  {}

  lemma ResignStepOnRow(s: State, k: WorkerId, success: bool, error: string, id: RowId)
    requires k in s.workers && s.workers[k].Resigning? && WorkerOk(s, s.workers[k]) && id in s.rows
    ensures RowContinues(s, CommitResign(s, k, success, error), id)
  {}

  lemma NoRevival(c: Config, s: State, a: Action, id: RowId)
    requires Inv(s) && Enabled(c, s, a) && id !in s.rows && id < s.nextId
    ensures id !in Apply(c, s, a).rows && id < Apply(c, s, a).nextId
  {
  }

  /** sent_at never reverts: from the moment a row is sent it stays as it is, until Vacuum deletes it
      for good with its jti recorded as acknowledged. */
  lemma SentNeverReverts(c: Config, states: seq<State>, actions: seq<Action>, i: nat, j: nat, id: RowId)
    requires Run(c, states, actions) && Initial(states[0]) && i <= j < |states|
    requires id in states[i].rows && !Unsent(states[i].rows[id])
    ensures SentOrPurged(states[j], id, states[i].rows[id])
    ensures id !in states[j].rows ==> AckedJti(states[j], states[i].rows[id].jti)
  {
    EveryRunIsSafe(c, states, actions, i);
    SentStaysThrough(c, states, actions, i, j, id, states[i].rows[id]);
    EveryRunIsSafe(c, states, actions, j);
    PurgedWasAcked(states[j], id, states[i].rows[id]);
  }

  lemma {:induction false} SentStaysThrough(c: Config, states: seq<State>, actions: seq<Action>, i: nat, j: nat,
                                            id: RowId, row: Row)
    requires Run(c, states, actions) && Initial(states[0]) && i <= j < |states|
    requires SentOrPurged(states[i], id, row) && !Unsent(row)
    ensures SentOrPurged(states[j], id, row)
    decreases j
  {
    if i < j {
      SentStaysThrough(c, states, actions, i, j - 1, id, row);
      EveryRunIsSafe(c, states, actions, j - 1);
      SentStays(c, states[j - 1], actions[j - 1], id, row);
    }
  }

  /** The row is in the table unchanged, or its jti is among the deleted ones. */
  predicate SentOrPurged(s: State, id: RowId, row: Row) {
    id < s.nextId && if id in s.rows then s.rows[id] == row else row.jti in s.purged
  }

  lemma SentStays(c: Config, s: State, a: Action, id: RowId, row: Row)
    requires Inv(s) && Enabled(c, s, a) && !Unsent(row) && SentOrPurged(s, id, row)
    ensures SentOrPurged(Apply(c, s, a), id, row)
  {
    if id in s.rows {
      StepOnRow(c, s, a, id);
    } else {
      NoRevival(c, s, a, id);
    }
  }

  lemma PurgedWasAcked(s: State, id: RowId, row: Row)
    requires Inv(s) && SentOrPurged(s, id, row)
    ensures id !in s.rows ==> AckedJti(s, row.jti)
  {}

  // ---------------------------------------------------------------- parked rows

  /** An insertion that carries neither a JWS nor a signing error. */
  predicate Bare(o: Origin) {
    match o
    case Signed(jws) => jws == ""
    case SigningFailed(error) => error == ""
    case Legacy => true
    case Direct(jws, error) => jws == "" && error == ""
  }

  lemma UnsentRowsFallInOneClass(r: Row)
    ensures Unsent(r) <==> Forwardable(r) || Resignable(r) || Parked(r)
    ensures !(Forwardable(r) && Resignable(r)) && !(Forwardable(r) && Parked(r)) && !(Resignable(r) && Parked(r))
  {
  }

  predicate InsertsBare(s: State, a: Action, id: RowId) {
    && a.InsertRow? && a.writer in s.writers && s.writers[a.writer].DepthChecked?
    && var i := s.writers[a.writer].insertion;
       i.jti != "" && !HasJti(s.rows, i.jti) && Bare(i.origin) && id == s.nextId
  }

  predicate CommitsUnsigned(s: State, a: Action, id: RowId) {
    && a.ReleaseResign? && a.success && a.worker in s.workers && s.workers[a.worker].Resigning?
    && var w := s.workers[a.worker];
       id in w.batch && (id in w.writes ==> w.writes[id] == "")
  }

  /** A row becomes parked exactly when a bare insertion creates it, or a re-sign batch that holds it
      commits without a JWS for it. */
  lemma BecomesParkedIff(c: Config, s: State, a: Action, id: RowId)
    requires Inv(s) && Enabled(c, s, a) && (id in s.rows ==> !Parked(s.rows[id]))
    ensures id in Apply(c, s, a).rows && Parked(Apply(c, s, a).rows[id])
      <==> InsertsBare(s, a, id) || CommitsUnsigned(s, a, id)
  {
    match a
    case ReleaseSent(k, now) => SentParksNothing(s, k, now, id);
    case ReleaseResign(k, success, error) => ResignParksIff(s, k, success, error, id);
    case InsertRow(w) => InsertParksIff(s, w, id);
    case Vacuum(_, _) =>
    case _ => assert Apply(c, s, a).rows == s.rows;
  }

  lemma SentParksNothing(s: State, k: WorkerId, now: int, id: RowId)
    requires k in s.workers && s.workers[k].Forwarding? && WorkerOk(s, s.workers[k])
    requires id in s.rows ==> !Parked(s.rows[id])
    ensures var t := CommitSent(s, k, now);
      id in t.rows ==> !Parked(t.rows[id])
  {}

  lemma ResignParksIff(s: State, k: WorkerId, success: bool, error: string, id: RowId)
    requires k in s.workers && s.workers[k].Resigning? && WorkerOk(s, s.workers[k])
    requires id in s.rows ==> !Parked(s.rows[id])
    ensures var t := CommitResign(s, k, success, error);
      id in t.rows && Parked(t.rows[id]) <==> CommitsUnsigned(s, ReleaseResign(k, success, error), id)
  {}

  lemma InsertParksIff(s: State, w: WriterId, id: RowId)
    requires w in s.writers && s.writers[w].DepthChecked? && DistinctRows(s)
    requires id in s.rows ==> !Parked(s.rows[id])
    ensures var t := Insert(s, w);
      id in t.rows && Parked(t.rows[id]) <==> InsertsBare(s, InsertRow(w), id)
  {}

  /** Neither pump ever un-parks a row: in every continuation of a run it stays as it is and the sink
      never receives it. */
  lemma ParkedForever(c: Config, states: seq<State>, actions: seq<Action>, i: nat, j: nat, id: RowId)
    requires Run(c, states, actions) && Initial(states[0]) && i <= j < |states|
    requires id in states[i].rows && Parked(states[i].rows[id])
    ensures id in states[j].rows && states[j].rows[id] == states[i].rows[id]
    ensures forall e | e in states[j].delivered :: e.id != id
  {
    ParkedStaysThrough(c, states, actions, i, j, id, states[i].rows[id]);
    EveryRunIsSafe(c, states, actions, j);
    ParkedIsUndelivered(states[j], id);
  }

  lemma {:induction false} ParkedStaysThrough(c: Config, states: seq<State>, actions: seq<Action>, i: nat, j: nat,
                                              id: RowId, row: Row)
    requires Run(c, states, actions) && Initial(states[0]) && i <= j < |states|
    requires id in states[i].rows && states[i].rows[id] == row && Parked(row)
    ensures id in states[j].rows && states[j].rows[id] == row
    decreases j
  {
    if i < j {
      ParkedStaysThrough(c, states, actions, i, j - 1, id, row);
      EveryRunIsSafe(c, states, actions, j - 1);
      ParkedStays(c, states[j - 1], actions[j - 1], id);
    }
  }

  lemma ParkedStays(c: Config, s: State, a: Action, id: RowId)
    requires Inv(s) && Enabled(c, s, a) && id in s.rows && Parked(s.rows[id])
    ensures id in Apply(c, s, a).rows && Apply(c, s, a).rows[id] == s.rows[id]
  {
    StepOnRow(c, s, a, id);
  }

  lemma ParkedIsUndelivered(s: State, id: RowId)
    requires Inv(s) && id in s.rows && Parked(s.rows[id])
    ensures forall e | e in s.delivered :: e.id != id
  {}

  /** The schedule inserts through SignedStore only, whose rows carry a JWS or a signing error. */
  ghost predicate OnlySignedInserts(actions: seq<Action>) {
    forall n | 0 <= n < |actions| && actions[n].CheckDepth? :: !Bare(actions[n].insertion.origin)
  }

  /** Every re-sign batch that commits as a success holds a JWS for each of its rows. */
  ghost predicate FullResigns(states: seq<State>, actions: seq<Action>)
    requires |states| == |actions| + 1
  {
    forall n, id | 0 <= n < |actions| && id in states[n].rows :: !CommitsUnsigned(states[n], actions[n], id)
  }

  predicate WritersNotBare(s: State) {
    forall w | w in s.writers && s.writers[w].DepthChecked? :: !Bare(s.writers[w].insertion.origin)
  }

  /** With SignedStore as the only writer and fully signed re-sign batches, every unsent row of every
      state is eligible for one of the two pumps. */
  lemma {:induction false} NoRowIsStranded(c: Config, states: seq<State>, actions: seq<Action>, n: nat)
    requires Run(c, states, actions) && Initial(states[0]) && n < |states|
    requires OnlySignedInserts(actions) && FullResigns(states, actions)
    ensures WritersNotBare(states[n])
    ensures forall id | id in states[n].rows && Unsent(states[n].rows[id]) ::
      Forwardable(states[n].rows[id]) || Resignable(states[n].rows[id])
  {
    if n > 0 {
      var s, a := states[n - 1], actions[n - 1];
      NoRowIsStranded(c, states, actions, n - 1);
      EveryRunIsSafe(c, states, actions, n - 1);
      forall id | id in states[n].rows ensures !Parked(states[n].rows[id]) {
        assert id in s.rows ==> !Parked(s.rows[id]);
        BecomesParkedIff(c, s, a, id);
      }
    }
  }

  /** No action of the run parks a row. */
  ghost predicate NothingParks(states: seq<State>, actions: seq<Action>)
    requires |states| == |actions| + 1
  {
    forall n, id: RowId | 0 <= n < |actions| ::
      !InsertsBare(states[n], actions[n], id) && !CommitsUnsigned(states[n], actions[n], id)
  }

  predicate NoneParked(s: State) { forall id | id in s.rows :: !Parked(s.rows[id]) }

  /** Over whole runs, exactly: no state has a parked row if and only if no action of the run is a bare insert or
      commits a re-sign batch without a JWS for one of its rows. */
  lemma NoRowIsStrandedIff(c: Config, states: seq<State>, actions: seq<Action>)
    requires Run(c, states, actions) && Initial(states[0])
    ensures (forall n: nat | n < |states| :: NoneParked(states[n])) <==> NothingParks(states, actions)
  {
    if NothingParks(states, actions) {
      forall n: nat | n < |states| ensures NoneParked(states[n]) { NoneParkedSoFar(c, states, actions, n); }
    } else {
      var n, id: RowId :| 0 <= n < |actions|
        && (InsertsBare(states[n], actions[n], id) || CommitsUnsigned(states[n], actions[n], id));
      EveryRunIsSafe(c, states, actions, n);
      if NoneParked(states[n]) {
        BecomesParkedIff(c, states[n], actions[n], id);
        assert !NoneParked(states[n + 1]);
      }
    }
  }

  lemma {:induction false} NoneParkedSoFar(c: Config, states: seq<State>, actions: seq<Action>, n: nat)
    requires Run(c, states, actions) && Initial(states[0]) && n < |states| && NothingParks(states, actions)
    ensures NoneParked(states[n])
  {
    if n > 0 {
      NoneParkedSoFar(c, states, actions, n - 1);
      EveryRunIsSafe(c, states, actions, n - 1);
      forall id | id in states[n].rows ensures !Parked(states[n].rows[id]) {
        BecomesParkedIff(c, states[n - 1], actions[n - 1], id);
      }
    }
  }

  /** The promise that a failed re-sign is retried later fails: one SignedStore event, one re-sign
      attempt that cannot sign it, and the committed release parks the row. */
  lemma FailedResignParks() returns (c: Config, states: seq<State>, actions: seq<Action>)
    ensures Run(c, states, actions) && Initial(states[0]) && OnlySignedInserts(actions)
    ensures 0 in states[|states| - 1].rows && Parked(states[|states| - 1].rows[0])
  {
    c := Config(0, 100);
    var i := Insertion("01J", "{}", 0, SigningFailed("kms down"));
    var s0 := State(map[], 0, map[0 := Idle], map[0 := Ready], {}, {}, {}, {});
    actions := [CheckDepth(0, i, true), InsertRow(0), DequeueUnsigned(0, {0}), ReleaseResign(0, true, "")];
    var s1 := Apply(c, s0, actions[0]);
    var s2 := Apply(c, s1, actions[1]);
    assert s2.rows == map[0 := NewRow(i)] && s2.workers == map[0 := Idle];
    UnsignedBatchParks(c, s2, NewRow(i));
    var s3 := Apply(c, s2, actions[2]);
    var s4 := Apply(c, s3, actions[3]);
    states := [s0, s1, s2, s3, s4];
    FourSteps(c, s0, s1, s2, s3, s4, actions);
  }

  lemma FourSteps(c: Config, s0: State, s1: State, s2: State, s3: State, s4: State, actions: seq<Action>)
    requires |actions| == 4
    requires Enabled(c, s0, actions[0]) && s1 == Apply(c, s0, actions[0])
    requires Enabled(c, s1, actions[1]) && s2 == Apply(c, s1, actions[1])
    requires Enabled(c, s2, actions[2]) && s3 == Apply(c, s2, actions[2])
    requires Enabled(c, s3, actions[3]) && s4 == Apply(c, s3, actions[3])
    ensures Run(c, [s0, s1, s2, s3, s4], actions)
  {}

  /** Committing a re-sign batch in which nothing could be signed. */
  lemma UnsignedBatchParks(c: Config, s: State, row: Row)
    requires c.batchSize > 0 && s.rows == map[0 := row] && s.workers == map[0 := Idle] && Resignable(row)
    ensures Enabled(c, s, DequeueUnsigned(0, {0}))
    ensures Enabled(c, Apply(c, s, DequeueUnsigned(0, {0})), ReleaseResign(0, true, ""))
    ensures var t := Apply(c, Apply(c, s, DequeueUnsigned(0, {0})), ReleaseResign(0, true, ""));
      0 in t.rows && Parked(t.rows[0])
  {
    assert UnlockedResignable(s) == {0};
  }

  // ---------------------------------------------------------------- the hard cap

  function Pending(s: State): set<WriterId> { set w | w in s.writers && s.writers[w].DepthChecked? }

  lemma DepthOnlyGrowsByInsert(c: Config, s: State, a: Action)
    requires Inv(s) && Enabled(c, s, a)
    ensures UnsentIds(Apply(c, s, a).rows) <= UnsentIds(s.rows) + (if a.InsertRow? then {s.nextId} else {})
  {
    match a
    case ReleaseSent(k, _) => assert WorkerOk(s, s.workers[k]);
    case ReleaseResign(k, success, error) => assert WorkerOk(s, s.workers[k]);
    case _ =>
  }

  predicate WithinCap(c: Config, s: State) {
    Depth(s.rows) + |Pending(s)| <= c.hardCap + |s.writers| - 1
  }

  /** Who has passed the depth check and not yet inserted, step by step. */
  lemma PendingStep(c: Config, s: State, a: Action)
    requires Enabled(c, s, a)
    ensures Apply(c, s, a).writers.Keys == s.writers.Keys
    ensures a.CheckDepth? ==> Pending(Apply(c, s, a)) <= s.writers.Keys
    ensures a.InsertRow? ==> a.writer in Pending(s) && Pending(Apply(c, s, a)) == Pending(s) - {a.writer}
    ensures !a.CheckDepth? && !a.InsertRow? ==> Pending(Apply(c, s, a)) <= Pending(s)
  {
  }

  lemma StepKeepsCap(c: Config, s: State, a: Action, t: State)
    requires Inv(s) && Enabled(c, s, a) && c.hardCap > 0 && WithinCap(c, s) && t == Apply(c, s, a)
    requires a.CheckDepth? ==> a.depthKnown
    ensures WithinCap(c, t) && t.writers.Keys == s.writers.Keys
  {
    PendingStep(c, s, a);
    DepthOnlyGrowsByInsert(c, s, a);
    var u := UnsentIds(s.rows);
    assert |s.writers| == |s.writers.Keys| && |t.writers| == |t.writers.Keys|;
    if a.InsertRow? {
      SubsetSize(UnsentIds(t.rows), u + {s.nextId});
    } else {
      SubsetSize(UnsentIds(t.rows), u);
      SubsetSize(Pending(t), if a.CheckDepth? then s.writers.Keys else Pending(s));
    }
  }

  lemma EmptyIsWithinCap(c: Config, s: State)
    requires Initial(s) && c.hardCap > 0
    ensures WithinCap(c, s)
  {
    assert Pending(s) == {} && UnsentIds(s.rows) == {};
  }

  /** With N concurrent check-then-insert writers and depth queries that succeed, the number of unsent
      rows never exceeds hardCap + N - 1; with one writer, hardCap. */
  lemma {:induction false} CapHolds(c: Config, states: seq<State>, actions: seq<Action>, n: nat)
    requires Run(c, states, actions) && Initial(states[0]) && n < |states| && c.hardCap > 0
    requires forall m | 0 <= m < |actions| && actions[m].CheckDepth? :: actions[m].depthKnown
    ensures states[n].writers.Keys == states[0].writers.Keys
    ensures WithinCap(c, states[n]) && Depth(states[n].rows) <= c.hardCap + |states[0].writers| - 1
  {
    if n == 0 {
      EmptyIsWithinCap(c, states[0]);
    } else {
      CapHolds(c, states, actions, n - 1);
      EveryRunIsSafe(c, states, actions, n - 1);
      StepKeepsCap(c, states[n - 1], actions[n - 1], states[n]);
    }
    assert |states[n].writers| == |states[n].writers.Keys|;
    assert |states[0].writers| == |states[0].writers.Keys|;
  }
}

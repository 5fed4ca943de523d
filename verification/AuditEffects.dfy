/** What each step does to the table, said in terms of the columns alone. */
module AuditEffects {
  import opened Options
  import opened AuditBuffer
  import opened AuditSafety

  /** Vacuum deletes exactly the rows sent more than the retention ago, records their jtis, and leaves every other
      row alone. */
  lemma VacuumEffect(c: Config, s: State, now: int, days: int)
    ensures Enabled(c, s, Vacuum(now, days)) <==> days > 0
    ensures days > 0 ==>
      var t := Apply(c, s, Vacuum(now, days));
      && t == s.(rows := t.rows, purged := t.purged)
      && (forall id | id in s.rows :: id !in t.rows <==>
            s.rows[id].sentAt.Some? && s.rows[id].sentAt.value + days * 86400 < now)
      && (forall id | id in t.rows :: id in s.rows && t.rows[id] == s.rows[id])
      && (forall jti :: jti in t.purged <==>
            jti in s.purged || exists id | id in s.rows :: id !in t.rows && s.rows[id].jti == jti)
  {}

  /** Every Vacuum among actions i to j - 1 keeps rows sent at `sent`. */
  predicate Covered(actions: seq<Action>, i: nat, j: nat, sent: int)
    requires i <= j <= |actions|
  {
    forall n | i <= n < j && actions[n].Vacuum? :: actions[n].now <= sent + actions[n].retentionDays * 86400
  }

  /** A row sent at `sent` is in a later state exactly when every Vacuum since had a retention that covers it, and
      then it is unchanged. */
  lemma RetainedIff(c: Config, states: seq<State>, actions: seq<Action>, i: nat, j: nat, id: RowId, sent: int)
    requires Run(c, states, actions) && Initial(states[0]) && i <= j < |states|
    requires id in states[i].rows && states[i].rows[id].sentAt == Some(sent)
    ensures id in states[j].rows <==>
      forall n | i <= n < j && actions[n].Vacuum? :: actions[n].now <= sent + actions[n].retentionDays * 86400
    ensures id in states[j].rows ==> states[j].rows[id] == states[i].rows[id]
  {
    EveryRunIsSafe(c, states, actions, i);
    RetainedThrough(c, states, actions, i, j, id, states[i].rows[id]);
  }

  lemma {:induction false} RetainedThrough(c: Config, states: seq<State>, actions: seq<Action>, i: nat, j: nat,
                                           id: RowId, row: Row)
    requires Run(c, states, actions) && Initial(states[0]) && i <= j < |states|
    requires row.sentAt.Some? && SentOrPurged(states[i], id, row) && id in states[i].rows
    ensures SentOrPurged(states[j], id, row)
    ensures id in states[j].rows <==> Covered(actions, i, j, row.sentAt.value)
    decreases j
  {
    if i < j {
      RetainedThrough(c, states, actions, i, j - 1, id, row);
      EveryRunIsSafe(c, states, actions, j - 1);
      RetainedStep(c, states[j - 1], actions[j - 1], states[j], id, row);
    }
  }

  lemma RetainedStep(c: Config, s: State, a: Action, t: State, id: RowId, row: Row)
    requires Inv(s) && Enabled(c, s, a) && t == Apply(c, s, a) && row.sentAt.Some? && SentOrPurged(s, id, row)
    ensures SentOrPurged(t, id, row)
    ensures id in t.rows <==> id in s.rows && !(a.Vacuum? && a.now > row.sentAt.value + a.retentionDays * 86400)
  {
    SentStays(c, s, a, id, row);
    if id !in s.rows {
      NoRevival(c, s, a, id);
    } else if a.Vacuum? {
      VacuumEffect(c, s, a.now, a.retentionDays);
    } else {
      OnlyVacuumDeletes(c, s, a, id);
    }
  }

  lemma OnlyVacuumDeletes(c: Config, s: State, a: Action, id: RowId)
    requires Enabled(c, s, a) && !a.Vacuum? && id in s.rows
    ensures id in Apply(c, s, a).rows
  {}

  /** CreateSignedAuditLog after its depth check: nothing without a jti or under a known one; else one new row with
      the caller's JWS and signing error, empty texts stored as NULL, unsent and never attempted. */
  lemma InsertEffect(c: Config, s: State, w: WriterId)
    requires DistinctRows(s) && w in s.writers && s.writers[w].DepthChecked?
    ensures Enabled(c, s, InsertRow(w))
    ensures var t := Apply(c, s, InsertRow(w)); var i := s.writers[w].insertion;
      if i.jti == "" || exists id | id in s.rows :: s.rows[id].jti == i.jti
      then t == s.(writers := s.writers[w := Ready])
      else
        && s.nextId !in s.rows && t.rows.Keys == s.rows.Keys + {s.nextId}
        && (forall id | id in s.rows :: t.rows[id] == s.rows[id])
        && t.nextId == s.nextId + 1 && t.inserted == s.inserted + {i.jti}
        && var r := t.rows[s.nextId];
           && r.jti == i.jti && r.payload == i.payload && r.emittedAt == i.emittedAt
           && r.sentAt == None && r.attempts == 0 && r.lastError == ""
           && r.jws == (match i.origin case Signed(j) => j case Direct(j, _) => j case _ => "")
           && r.signingError == (match i.origin
                                 case SigningFailed(e) => if e == "" then None else Some(e)
                                 case Direct(_, e) => if e == "" then None else Some(e)
                                 case _ => None)
  {}

  predicate LockedBy(s: State, k: WorkerId, id: RowId) {
    k in s.workers && !s.workers[k].Idle? && id in s.workers[k].batch
  }

  /** A dequeue takes, and locks, the oldest rows of its class that nobody holds, as many as there are up to the batch
      size: signed and unsent for the forward pump, unsigned with a signing error for the other. */
  lemma DequeueEffect(c: Config, s: State, k: WorkerId, batch: set<RowId>, unsigned: bool)
    requires Enabled(c, s, if unsigned then DequeueUnsigned(k, batch) else DequeuePending(k, batch))
    ensures var t := Apply(c, s, if unsigned then DequeueUnsigned(k, batch) else DequeuePending(k, batch));
      && t == s.(workers := t.workers) && t.workers == s.workers[k := t.workers[k]]
      && t.workers[k] == if unsigned then Resigning(batch, map[], false) else Forwarding(batch, NotSent)
    ensures |batch| <= c.batchSize
    ensures forall id | id in batch :: Selectable(s, id, unsigned)
    ensures forall id | Selectable(s, id, unsigned) && id !in batch ::
      |batch| == c.batchSize && forall x | x in batch :: s.rows[x].emittedAt <= s.rows[id].emittedAt
  {
    forall id ensures Selectable(s, id, unsigned) <==>
      id in if unsigned then UnlockedResignable(s) else UnlockedForwardable(s)
    {
      assert Locked(s, id) <==> exists j :: LockedBy(s, j, id) by {
        if Locked(s, id) {
          var j :| j in s.workers && id in Batch(s.workers[j]);
          assert LockedBy(s, j, id);
        }
        if j :| LockedBy(s, j, id) { assert id in Batch(s.workers[j]); }
      }
    }
  }

  ghost predicate Selectable(s: State, id: RowId, unsigned: bool) {
    && id in s.rows && s.rows[id].sentAt == None
    && (if unsigned then s.rows[id].jws == "" && s.rows[id].signingError != None else s.rows[id].jws != "")
    && !exists j :: LockedBy(s, j, id)
  }

  /** The forward pump's commit: the whole batch is stamped sent, or one more attempt and its error are noted. */
  lemma ReleaseSentEffect(c: Config, s: State, k: WorkerId, now: int)
    requires k in s.workers && s.workers[k].Forwarding? && (s.workers[k].send != NotSent || s.workers[k].batch == {})
    ensures Enabled(c, s, ReleaseSent(k, now))
    ensures var t := Apply(c, s, ReleaseSent(k, now)); var w := s.workers[k];
      && t == s.(rows := t.rows, workers := s.workers[k := Idle]) && t.rows.Keys == s.rows.Keys
      && (forall id | id in s.rows && id !in w.batch :: t.rows[id] == s.rows[id])
      && (forall id | id in s.rows && id in w.batch :: t.rows[id] ==
            if w.send.Rejected? then s.rows[id].(attempts := s.rows[id].attempts + 1, lastError := w.send.error)
            else s.rows[id].(sentAt := Some(now)))
  {}

  /** The re-sign pump's commit, exactly as written: the JWSes set in the transaction, and then either the signing
      error of the whole batch cleared or one more attempt noted on the whole batch. */
  lemma ReleaseResignEffect(c: Config, s: State, k: WorkerId, success: bool, error: string)
    requires k in s.workers && s.workers[k].Resigning? && !s.workers[k].aborted
    requires s.workers[k].writes.Keys <= s.workers[k].batch
    ensures Enabled(c, s, ReleaseResign(k, success, error))
    ensures var t := Apply(c, s, ReleaseResign(k, success, error)); var w := s.workers[k];
      && t == s.(rows := t.rows, workers := s.workers[k := Idle]) && t.rows.Keys == s.rows.Keys
      && (forall id | id in s.rows && id !in w.batch :: t.rows[id] == s.rows[id])
      && forall id | id in s.rows && id in w.batch ::
           var signed := s.rows[id].(jws := if id in w.writes then w.writes[id] else s.rows[id].jws);
           t.rows[id] == if success then signed.(signingError := None)
                         else signed.(attempts := s.rows[id].attempts + 1, lastError := error)
  {}

  /** Inside a re-sign transaction: a JWS is noted for one row of the batch, and a failed statement aborts. */
  lemma StatementEffect(c: Config, s: State, k: WorkerId, id: RowId, jws: string)
    requires k in s.workers && s.workers[k].Resigning?
    ensures var w := s.workers[k];
      && (Enabled(c, s, SetJws(k, id, jws)) <==> !w.aborted && id in w.batch)
      && (Enabled(c, s, SetJws(k, id, jws)) ==>
            Apply(c, s, SetJws(k, id, jws)) ==
            s.(workers := s.workers[k := Resigning(w.batch, w.writes[id := jws], false)]))
      && Enabled(c, s, SetJwsFails(k))
      && Apply(c, s, SetJwsFails(k)) == s.(workers := s.workers[k := Resigning(w.batch, w.writes, true)])
  {}

  /** Whatever happens next, an aborted transaction stays as it is until it is lost, and it never writes a row. */
  lemma AbortedIsLost(c: Config, s: State, a: Action, k: WorkerId)
    requires Enabled(c, s, a) && k in s.workers && s.workers[k].Resigning? && s.workers[k].aborted
    ensures var t := Apply(c, s, a);
      && k in t.workers
      && (t.workers[k] == s.workers[k] || (a == LoseTransaction(k) && t == s.(workers := s.workers[k := Idle])))
  {}

  /** The sink receives the events of its rows as they stand, acknowledged or not. */
  lemma SinkEffect(c: Config, s: State, k: WorkerId, reached: set<RowId>, error: string)
    requires Inv(s) && k in s.workers && s.workers[k].Forwarding? && s.workers[k].send == NotSent
    ensures Enabled(c, s, SinkAcks(k))
    ensures Enabled(c, s, SinkFails(k, reached, error)) <==> reached <= s.workers[k].batch
    ensures
      var t := Apply(c, s, SinkAcks(k));
      && t.rows == s.rows && t.workers == s.workers[k := Forwarding(s.workers[k].batch, Acked)]
      && (forall e :: e in t.acked <==> e in s.acked || SentOf(s, s.workers[k].batch, e))
      && (forall e :: e in t.delivered <==> e in s.delivered || SentOf(s, s.workers[k].batch, e))
    ensures Enabled(c, s, SinkFails(k, reached, error)) ==>
      var t := Apply(c, s, SinkFails(k, reached, error));
      && t.rows == s.rows && t.workers == s.workers[k := Forwarding(s.workers[k].batch, Rejected(error))]
      && t.acked == s.acked && (forall e :: e in t.delivered <==> e in s.delivered || SentOf(s, reached, e))
  {
    forall e, batch: set<RowId> ensures e in Events(s.rows, batch) <==> SentOf(s, batch, e) { EventIsRow(s, batch, e); }
  }

  predicate SentOf(s: State, batch: set<RowId>, e: Event) {
    e.id in batch && e.id in s.rows && e.jti == s.rows[e.id].jti && e.jws == s.rows[e.id].jws
  }

  lemma EventIsRow(s: State, batch: set<RowId>, e: Event)
    ensures e in Events(s.rows, batch) <==> SentOf(s, batch, e)
  {
    if SentOf(s, batch, e) { assert e == Event(e.id, s.rows[e.id].jti, s.rows[e.id].jws); }
  }

  /** A lost transaction leaves the table as it was and frees its rows. */
  lemma LossEffect(c: Config, s: State, k: WorkerId)
    requires k in s.workers
    ensures Enabled(c, s, LoseTransaction(k))
    ensures Apply(c, s, LoseTransaction(k)) == s.(workers := s.workers[k := Idle])
  {}

  /** Writers only remember what they are about to insert; giving up forgets it. */
  lemma WriterEffect(c: Config, s: State, w: WriterId, i: Insertion, known: bool)
    requires w in s.writers
    ensures Enabled(c, s, GiveUp(w)) && Apply(c, s, GiveUp(w)) == s.(writers := s.writers[w := Ready])
    ensures Enabled(c, s, CheckDepth(w, i, known)) ==>
      Apply(c, s, CheckDepth(w, i, known)) == s.(writers := s.writers[w := DepthChecked(i)])
  {}

  /** The depth check: refused exactly when a positive cap is known to be reached. */
  lemma DepthCheck(c: Config, s: State, w: WriterId, i: Insertion, known: bool)
    requires w in s.writers && s.writers[w].Ready?
    ensures Enabled(c, s, CheckDepth(w, i, known)) <==>
      !(c.hardCap > 0 && known && |set id | id in s.rows && s.rows[id].sentAt == None| >= c.hardCap)
  {
    assert UnsentIds(s.rows) == set id | id in s.rows && s.rows[id].sentAt == None;
  }

  /** Every state of every run, spelled out: jtis are unique and no row is held twice; a sent row has a JWS and its
      event was acknowledged; whatever reached the sink is the row as it stands; and every jti ever inserted is still in
      the table or was acknowledged. */
  lemma EveryState(c: Config, states: seq<State>, actions: seq<Action>, n: nat)
    requires Run(c, states, actions) && Initial(states[0]) && n < |states|
    ensures var s := states[n];
      && (forall x, y | x in s.rows && y in s.rows && x != y :: s.rows[x].jti != s.rows[y].jti)
      && (forall j, k, id | LockedBy(s, j, id) && LockedBy(s, k, id) :: j == k)
      && (forall id | id in s.rows && s.rows[id].sentAt != None ::
            s.rows[id].jws != "" && Event(id, s.rows[id].jti, s.rows[id].jws) in s.acked)
      && (forall e | e in s.delivered && e.id in s.rows ::
            e.jws != "" && e.jti == s.rows[e.id].jti && e.jws == s.rows[e.id].jws)
      && (forall j | j in s.inserted ::
            || (exists id | id in s.rows :: s.rows[id].jti == j)
            || (exists e | e in s.acked :: e.jti == j && e.jws != ""))
  {
    EveryRunIsSafe(c, states, actions, n);
    var s := states[n];
    forall j, k, id | LockedBy(s, j, id) && LockedBy(s, k, id) ensures j == k {
      assert id in Batch(s.workers[j]) && id in Batch(s.workers[k]);
    }
    forall j | j in s.inserted && j in s.purged ensures exists e | e in s.acked :: e.jti == j && e.jws != "" {
      assert AckedJti(s, j);
    }
  }
}

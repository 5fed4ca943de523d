/**
 The forwarder's two pumps as imperative code over the shared buffer. Every database statement is one
 step of the transition system, and between any two statements of a pump the other writers, workers and
 the Vacuum job may take any steps they like.
 */
module AuditForwarder {
  import opened Options
  import opened AuditBuffer
  import opened AuditSafety

  datatype SinkOutcome = Accepts | Fails(reached: set<RowId>, error: string)

  /** What becomes of one row of a re-sign batch: its payload does not parse, the signer fails, the
      UPDATE statement fails, or the JWS is written. */
  datatype ResignOutcome = Unparsable | SignerFails | StatementFails | SignedAs(jws: string)

  /** Backoff in seconds after the n-th consecutive failure. */
  function DefaultBackoff(n: int): nat {
    if n <= 0 then 0 else if n == 1 then 1 else if n == 2 then 5 else if n == 3 then 30
    else if n == 4 then 300 else if n == 5 then 1800 else 3600
  }

  predicate By(a: Action, k: WorkerId) {
    match a
    case CheckDepth(_, _, _) => false
    case InsertRow(_) => false
    case GiveUp(_) => false
    case Vacuum(_, _) => false
    case _ => a.worker == k
  }

  /** Row locks at work: whatever other parties do, a worker's transaction and the rows it locked stay
      exactly as they are. */
  lemma OthersRespectLocks(c: Config, s: State, a: Action, k: WorkerId)
    requires Inv(s) && Enabled(c, s, a) && k in s.workers && !By(a, k)
    ensures LocksRespected(s, Apply(c, s, a), k)
  {
    assert WorkerOk(s, s.workers[k]);
    match a
    case ReleaseSent(j, now) =>
      assert Batch(s.workers[j]) !! Batch(s.workers[k]);
      CommitElsewhere(s, CommitSent(s, j, now), j, k);
    case ReleaseResign(j, success, error) =>
      assert WorkerOk(s, s.workers[j]) && Batch(s.workers[j]) !! Batch(s.workers[k]);
      CommitElsewhere(s, CommitResign(s, j, success, error), j, k);
    case Vacuum(_, _) =>
    case InsertRow(_) =>
    case _ => assert Apply(c, s, a).rows == s.rows;
  }

  predicate LocksRespected(s: State, t: State, k: WorkerId)
    requires k in s.workers
  {
    && k in t.workers && t.workers[k] == s.workers[k]
    && s.acked <= t.acked
    && forall id | id in Batch(s.workers[k]) :: id in s.rows && id in t.rows && t.rows[id] == s.rows[id]
  }

  /** A commit that writes only the committing worker's batch. */
  lemma CommitElsewhere(s: State, t: State, j: WorkerId, k: WorkerId)
    requires j in s.workers && k in s.workers && j != k && Batch(s.workers[j]) !! Batch(s.workers[k])
    requires t.workers == s.workers[j := Idle] && t.acked == s.acked && t.rows.Keys == s.rows.Keys
    requires forall id | id in s.rows && id !in Batch(s.workers[j]) :: t.rows[id] == s.rows[id]
    requires forall id | id in Batch(s.workers[k]) :: id in s.rows
    ensures LocksRespected(s, t, k)
  {}

  /** The JWS writes of the first n rows of a batch. */
  ghost predicate WrittenSoFar(events: seq<RowId>, outcomes: map<RowId, ResignOutcome>, n: nat,
                               writes: map<RowId, string>)
    requires n <= |events| && forall r | r in events :: r in outcomes
  {
    && (forall i | 0 <= i < n :: var r := events[i];
          if outcomes[r].SignedAs? then r in writes && writes[r] == outcomes[r].jws else r !in writes)
    && (forall i | n <= i < |events| :: events[i] !in writes)
  }

  /** After n rows: aborted exactly if a statement failed, else the writes of those rows. */
  ghost predicate Progress(events: seq<RowId>, outcomes: map<RowId, ResignOutcome>, n: nat, w: Worker)
    requires n <= |events| && forall r | r in events :: r in outcomes
  {
    && w.Resigning?
    && (w.aborted <==> exists i | 0 <= i < n :: outcomes[events[i]].StatementFails?)
    && (!w.aborted ==> WrittenSoFar(events, outcomes, n, w.writes))
  }

  function Tried(w: Worker, r: RowId, outcome: ResignOutcome): Worker
    requires w.Resigning?
  {
    if outcome.StatementFails? || (outcome.SignedAs? && w.aborted) then w.(aborted := true)
    else if outcome.SignedAs? then w.(writes := w.writes[r := outcome.jws])
    else w
  }

  lemma OneMoreTried(events: seq<RowId>, outcomes: map<RowId, ResignOutcome>, n: nat, w: Worker, v: Worker)
    requires n < |events| && (forall r | r in events :: r in outcomes) && Progress(events, outcomes, n, w)
    requires forall i, j | 0 <= i < j < |events| :: events[i] != events[j]
    requires v == Tried(w, events[n], outcomes[events[n]])
    ensures Progress(events, outcomes, n + 1, v)
  {}

  /** What a committed re-sign batch leaves in a row. */
  function Resigned(r: Row, outcome: ResignOutcome): Row {
    if outcome.SignedAs? then r.(jws := outcome.jws, signingError := None) else r.(signingError := None)
  }

  lemma CommittedRows(before: map<RowId, Row>, after: map<RowId, Row>, events: seq<RowId>,
                      outcomes: map<RowId, ResignOutcome>, writes: map<RowId, string>, batch: set<RowId>)
    requires (forall r | r in events :: r in outcomes && r in before) && batch == set r | r in events
    requires WrittenSoFar(events, outcomes, |events|, writes)
    requires after == ClearSigningError(WriteJws(before, writes), batch)
    ensures forall r | r in events :: r in after && after[r] == Resigned(before[r], outcomes[r])
  {
    forall r | r in events ensures r in after && after[r] == Resigned(before[r], outcomes[r]) {
      var i :| 0 <= i < |events| && events[i] == r;
    }
  }

  class Forwarder {
    const config: Config
    const id: WorkerId
    var buffer: State
    var consecutiveFailures: nat
    ghost var history: seq<State>
    ghost var taken: seq<Action>

    /** The buffer is the last state of a run of the whole system, from the empty table. */
    ghost predicate Valid() reads this {
      && Run(config, history, taken) && Initial(history[0]) && history[|history| - 1] == buffer
      && id in buffer.workers
    }

    /** Every state of a run is safe, so the present one is. */
    lemma Safe()
      requires Valid()
      ensures Inv(buffer)
    {
      EveryRunIsSafe(config, history, taken, |history| - 1);
    }

    constructor (config: Config, id: WorkerId, empty: State)
      requires Initial(empty) && id in empty.workers
      ensures Valid() && buffer == empty && consecutiveFailures == 0 && taken == []
      ensures this.config == config && this.id == id
    {
      this.config, this.id, buffer, consecutiveFailures := config, id, empty, 0;
      history, taken := [empty], [];
    }

    /** One atomic statement against the database. */
    method Do(a: Action)
      requires Valid() && Enabled(config, buffer, a)
      modifies this`buffer, this`history, this`taken
      ensures Valid() && buffer == Apply(config, old(buffer), a) && taken == old(taken) + [a]
    {
      buffer := Apply(config, buffer, a);
      history, taken := history + [buffer], taken + [a];
    }

    /** The other parties take, in order, those actions of the schedule that are enabled in turn. */
    method Interfere(schedule: seq<Action>)
      requires Valid()
      modifies this`buffer, this`history, this`taken
      ensures Valid() && old(taken) <= taken
      ensures buffer.workers[id] == old(buffer.workers[id]) && old(buffer.acked) <= buffer.acked
      ensures forall r | r in Batch(buffer.workers[id]) ::
        r in old(buffer.rows) && r in buffer.rows && buffer.rows[r] == old(buffer.rows[r])
    {
      assert WorkerOk(buffer, buffer.workers[id]) by { Safe(); }
      for n := 0 to |schedule|
        invariant Valid() && old(taken) <= taken
        invariant buffer.workers[id] == old(buffer.workers[id]) && old(buffer.acked) <= buffer.acked
        invariant forall r | r in Batch(buffer.workers[id]) ::
          r in old(buffer.rows) && r in buffer.rows && buffer.rows[r] == old(buffer.rows[r])
      {
        var a := schedule[n];
        if !By(a, id) && Enabled(config, buffer, a) {
          Safe();
          OthersRespectLocks(config, buffer, a, id);
          Do(a);
        }
      }
    }

    /** DequeuePending and DequeueUnsignedForResigningWithTx: lock the selected rows, change nothing. */
    method Dequeue(batch: set<RowId>, unsigned: bool)
      requires Valid()
      requires Enabled(config, buffer, if unsigned then DequeueUnsigned(id, batch) else DequeuePending(id, batch))
      modifies this`buffer, this`history, this`taken
      ensures Valid() && old(taken) <= taken && buffer.rows == old(buffer.rows) && batch <= buffer.rows.Keys
      ensures buffer.workers[id] == if unsigned then Resigning(batch, map[], false) else Forwarding(batch, NotSent)
    {
      if unsigned { Do(DequeueUnsigned(id, batch)); } else { Do(DequeuePending(id, batch)); }
    }

    /** Sink.Send on the locked batch. */
    method Send(batch: set<RowId>, sink: SinkOutcome)
      requires Valid() && buffer.workers[id] == Forwarding(batch, NotSent) && (sink.Fails? ==> sink.reached <= batch)
      modifies this`buffer, this`history, this`taken
      ensures Valid() && old(taken) <= taken && buffer.rows == old(buffer.rows) && batch <= buffer.rows.Keys
      ensures buffer.workers[id] == Forwarding(batch, if sink.Accepts? then Acked else Rejected(sink.error))
      ensures sink.Accepts? ==> Events(buffer.rows, batch) <= buffer.acked
    {
      assert WorkerOk(buffer, buffer.workers[id]) by { Safe(); }
      if sink.Accepts? { Do(SinkAcks(id)); } else { Do(SinkFails(id, sink.reached, sink.error)); }
    }

    /** The ReleaseFunc of the forward path; a release that fails loses the transaction. */
    method Release(batch: set<RowId>, send: SendStatus, now: int, ok: bool)
      requires Valid() && buffer.workers[id] == Forwarding(batch, send) && (send.NotSent? ==> batch == {})
      modifies this`buffer, this`history, this`taken
      ensures Valid() && old(taken) <= taken && buffer.workers[id].Idle? && buffer.acked == old(buffer.acked)
      ensures buffer.rows == if !ok then old(buffer.rows)
                             else if send.Rejected? then NoteFailure(old(buffer.rows), batch, send.error)
                             else MarkSent(old(buffer.rows), batch, now)
    {
      if ok { Do(ReleaseSent(id, now)); } else { Do(LoseTransaction(id)); }
    }

    /** What drainOnce leaves in a row it dequeued. */
    static function Drained(r: Row, sink: SinkOutcome, now: int, releaseOk: bool): Row {
      if !releaseOk then r
      else if sink.Accepts? then r.(sentAt := Some(now))
      else r.(attempts := r.attempts + 1, lastError := sink.error)
    }

    /** drainOnce: dequeue, send, release. `dequeued` says whether the dequeue works, `batch` is what the database
        selects, `sink` and `releaseOk` what the sink and the final commit do. The dequeued rows end up exactly as
        the outcome says, and an accepted batch was acknowledged as dequeued, whatever happens in between. */
    method DrainOnce(dequeued: bool, batch: set<RowId>, between: seq<Action>, sink: SinkOutcome, before: seq<Action>,
                     now: int, releaseOk: bool)
      returns (sleep: nat)
      requires Valid() && (dequeued ==> Enabled(config, buffer, DequeuePending(id, batch)))
      requires sink.Fails? ==> sink.reached <= batch
      modifies this
      ensures !dequeued ==> buffer == old(buffer) && consecutiveFailures == old(consecutiveFailures) && sleep == 0
      ensures Valid() && old(taken) <= taken && (dequeued ==> buffer.workers[id].Idle?)
      ensures dequeued ==>
        consecutiveFailures == if batch == {} || sink.Accepts? then 0 else old(consecutiveFailures) + 1
      ensures dequeued ==>
        sleep ==
        if batch == {} || sink.Accepts? then 0
        else if consecutiveFailures == 1 then 1 else if consecutiveFailures == 2 then 5
        else if consecutiveFailures == 3 then 30 else if consecutiveFailures == 4 then 5 * 60
        else if consecutiveFailures == 5 then 30 * 60 else 60 * 60
      ensures dequeued ==> forall r | r in batch ::
        && r in old(buffer.rows) && r in buffer.rows
        && buffer.rows[r] == Drained(old(buffer.rows[r]), sink, now, releaseOk)
      ensures dequeued && sink.Accepts? ==> Events(old(buffer.rows), batch) <= buffer.acked
    {
      sleep := 0;
      if !dequeued { return; }
      Dequeue(batch, false);
      if batch == {} {
        Interfere(between);
        Release(batch, NotSent, now, releaseOk);
        consecutiveFailures := 0;
        return;
      }
      SendLocked(batch, between, sink);
      if sink.Fails? {
        consecutiveFailures := consecutiveFailures + 1;
        sleep := DefaultBackoff(consecutiveFailures);
      } else {
        consecutiveFailures := 0;
      }
      ReleaseLocked(batch, sink, before, now, releaseOk);
    }

    /** The others act, then the sink receives the batch as it was dequeued. */
    method SendLocked(batch: set<RowId>, between: seq<Action>, sink: SinkOutcome)
      requires Valid() && buffer.workers[id] == Forwarding(batch, NotSent) && (sink.Fails? ==> sink.reached <= batch)
      modifies this`buffer, this`history, this`taken
      ensures Valid() && old(taken) <= taken
      ensures buffer.workers[id] == Forwarding(batch, if sink.Accepts? then Acked else Rejected(sink.error))
      ensures forall r | r in batch ::
        r in old(buffer.rows) && r in buffer.rows && buffer.rows[r] == old(buffer.rows[r])
      ensures sink.Accepts? ==> Events(old(buffer.rows), batch) <= buffer.acked
    {
      Interfere(between);
      Send(batch, sink);
      assert Events(buffer.rows, batch) == Events(old(buffer.rows), batch);
    }

    /** The others act, then the release writes the locked rows. */
    method ReleaseLocked(batch: set<RowId>, sink: SinkOutcome, before: seq<Action>, now: int, releaseOk: bool)
      requires Valid() && buffer.workers[id] == Forwarding(batch, if sink.Accepts? then Acked else Rejected(sink.error))
      modifies this`buffer, this`history, this`taken
      ensures Valid() && old(taken) <= taken && buffer.workers[id].Idle? && old(buffer.acked) <= buffer.acked
      ensures forall r | r in batch ::
        && r in old(buffer.rows) && r in buffer.rows
        && buffer.rows[r] == Drained(old(buffer.rows[r]), sink, now, releaseOk)
    {
      Interfere(before);
      Release(batch, if sink.Accepts? then Acked else Rejected(sink.error), now, releaseOk);
    }

    /** One SetJWSInTx inside the open transaction; once a statement failed, all further ones fail. */
    method TryRow(r: RowId, outcome: ResignOutcome)
      requires Valid() && buffer.workers[id].Resigning? && r in buffer.workers[id].batch
      modifies this`buffer, this`history, this`taken
      ensures Valid() && old(taken) <= taken && buffer.rows == old(buffer.rows)
      ensures buffer.workers[id] == Tried(old(buffer.workers[id]), r, outcome)
    {
      if outcome.StatementFails? || (outcome.SignedAs? && buffer.workers[id].aborted) {
        Do(SetJwsFails(id));
      } else if outcome.SignedAs? {
        Do(SetJws(id, r, outcome.jws));
      }
    }

    /** The ReleaseFunc of the re-sign path, always called as a success. */
    method ReleaseResigned(ok: bool)
      requires Valid() && buffer.workers[id].Resigning? && (ok ==> !buffer.workers[id].aborted)
      modifies this`buffer, this`history, this`taken
      ensures Valid() && old(taken) <= taken && buffer.workers[id].Idle?
      ensures var w := old(buffer.workers[id]);
        buffer.rows == if ok then ClearSigningError(WriteJws(old(buffer.rows), w.writes), w.batch) else old(buffer.rows)
    {
      if ok { Do(ReleaseResign(id, true, "")); } else { Do(LoseTransaction(id)); }
    }

    /** The loop of resignOnce over the dequeued rows. */
    method TryRows(events: seq<RowId>, outcomes: map<RowId, ResignOutcome>, between: seq<seq<Action>>)
      requires Valid() && buffer.workers[id] == Resigning(set r | r in events, map[], false)
      requires (forall i, j | 0 <= i < j < |events| :: events[i] != events[j])
      requires (forall r | r in events :: r in outcomes)
      requires |between| == |events|
      modifies this`buffer, this`history, this`taken
      ensures Valid() && old(taken) <= taken
      ensures buffer.workers[id].Resigning? && buffer.workers[id].batch == set r | r in events
      ensures forall r | r in events ::
        r in old(buffer.rows) && r in buffer.rows && buffer.rows[r] == old(buffer.rows[r])
      ensures buffer.workers[id].aborted <==> exists r | r in events :: outcomes[r].StatementFails?
      ensures !buffer.workers[id].aborted ==> WrittenSoFar(events, outcomes, |events|, buffer.workers[id].writes)
    {
      assert WorkerOk(buffer, buffer.workers[id]) by { Safe(); }
      for n := 0 to |events|
        invariant Valid() && old(taken) <= taken
        invariant buffer.workers[id].Resigning? && buffer.workers[id].batch == set r | r in events
        invariant forall r | r in buffer.workers[id].batch ::
          r in old(buffer.rows) && r in buffer.rows && buffer.rows[r] == old(buffer.rows[r])
        invariant Progress(events, outcomes, n, buffer.workers[id])
      {
        Interfere(between[n]);
        ghost var w := buffer.workers[id];
        TryRow(events[n], outcomes[events[n]]);
        OneMoreTried(events, outcomes, n, w, buffer.workers[id]);
      }
    }

    /** resignOnce: dequeue the unsigned rows, try each, then release the whole batch as a success; the others act
        before each row and before the release. If it commits, exactly the signed rows carry a JWS and every row
        of the batch has lost its signing error; if a statement failed or the commit is lost, no row changed. */
    method ResignOnce(dequeued: bool, events: seq<RowId>, outcomes: map<RowId, ResignOutcome>,
                      between: seq<seq<Action>>,
                      before: seq<Action>, releaseOk: bool)
      returns (committed: bool)
      requires Valid() && (dequeued ==> Enabled(config, buffer, DequeueUnsigned(id, set r | r in events)))
      requires (forall i, j | 0 <= i < j < |events| :: events[i] != events[j])
      requires (forall r | r in events :: r in outcomes)
      requires |between| == |events|
      modifies this`buffer, this`history, this`taken
      ensures !dequeued ==> buffer == old(buffer) && !committed
      ensures Valid() && old(taken) <= taken && (dequeued ==> buffer.workers[id].Idle?)
      ensures committed <==> dequeued && releaseOk && forall r | r in events :: !outcomes[r].StatementFails?
      ensures dequeued ==> forall r | r in events ::
        && r in old(buffer.rows) && r in buffer.rows
        && buffer.rows[r] == (if committed then Resigned(old(buffer.rows[r]), outcomes[r]) else old(buffer.rows[r]))
    {
      if !dequeued { return false; }
      Dequeue(set r | r in events, true);
      TryRows(events, outcomes, between);
      Interfere(before);
      committed := releaseOk && !buffer.workers[id].aborted;
      ghost var locked, w := buffer.rows, buffer.workers[id];
      ReleaseResigned(committed);
      if committed {
        CommittedRows(locked, buffer.rows, events, outcomes, w.writes, w.batch);
      }
    }
  }
}

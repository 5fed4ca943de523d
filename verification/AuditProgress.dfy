/** Progress of the forward pump: passes that are accepted and committed drain the buffer. */
module AuditProgress {
  import opened Sets
  import opened AuditBuffer
  import opened AuditSafety

  /** The rows a dequeue may select always include an oldest batch. */
  lemma {:induction false} OldestBatchExists(s: State, eligible: set<RowId>, limit: nat) returns (batch: set<RowId>)
    requires eligible <= s.rows.Keys
    ensures OldestUnlocked(s, eligible, batch, limit)
    decreases |eligible|
  {
    if |eligible| <= limit {
      batch := eligible;
    } else {
      var newest := Newest(s, eligible);
      batch := OldestBatchExists(s, eligible - {newest}, limit);
    }
  }

  lemma {:induction false} Newest(s: State, ids: set<RowId>) returns (newest: RowId)
    requires ids != {} && ids <= s.rows.Keys
    ensures newest in ids && forall id | id in ids :: s.rows[id].emittedAt <= s.rows[newest].emittedAt
    decreases |ids|
  {
    var x :| x in ids;
    var rest := ids - {x};
    assert forall id | id in ids && id != x :: id in rest;
    if rest == {} {
      newest := x;
    } else {
      var other := Newest(s, rest);
      newest := if s.rows[x].emittedAt < s.rows[other].emittedAt then other else x;
    }
  }

  /** What one pass that the sink accepts and the database commits leaves behind. */
  function AfterPass(s: State, k: WorkerId, batch: set<RowId>, now: int): State {
    s.(rows := MarkSent(s.rows, batch, now), workers := s.workers[k := Idle],
       delivered := s.delivered + Events(s.rows, batch), acked := s.acked + Events(s.rows, batch))
  }

  /** Dequeue, accepted send, committed release: three steps of the system, each enabled. */
  lemma PassIsThreeSteps(c: Config, s: State, k: WorkerId, batch: set<RowId>, now: int)
    requires Enabled(c, s, DequeuePending(k, batch))
    ensures var locked := Apply(c, s, DequeuePending(k, batch));
      Enabled(c, locked, SinkAcks(k)) &&
      var sent := Apply(c, locked, SinkAcks(k));
      Enabled(c, sent, ReleaseSent(k, now)) && Apply(c, sent, ReleaseSent(k, now)) == AfterPass(s, k, batch, now)
  {}

  function Min(a: nat, b: nat): nat { if a < b then a else b }

  lemma LocksUnchanged(s: State, t: State, k: WorkerId, id: RowId)
    requires k in s.workers && s.workers[k].Idle? && t.workers == s.workers[k := Idle]
    ensures Locked(t, id) <==> Locked(s, id)
  {
    assert t.workers == s.workers;
  }

  /** Such a pass takes exactly min(batchSize, n) of the n unlocked forwardable rows away. */
  lemma PassDrains(c: Config, s: State, k: WorkerId, batch: set<RowId>, now: int)
    requires Enabled(c, s, DequeuePending(k, batch))
    ensures var t := AfterPass(s, k, batch, now);
      && UnlockedForwardable(t) == UnlockedForwardable(s) - batch
      && |UnlockedForwardable(t)| == |UnlockedForwardable(s)| - Min(c.batchSize, |UnlockedForwardable(s)|)
      && k in t.workers && t.workers[k].Idle?
  {
    var t := AfterPass(s, k, batch, now);
    forall id ensures id in UnlockedForwardable(t) <==> id in UnlockedForwardable(s) - batch {
      LocksUnchanged(s, t, k, id);
    }
    BatchIsFull(c, s, batch);
    assert |UnlockedForwardable(s) - batch| == |UnlockedForwardable(s)| - |batch|;
  }

  lemma BatchIsFull(c: Config, s: State, batch: set<RowId>)
    requires OldestUnlocked(s, UnlockedForwardable(s), batch, c.batchSize)
    ensures |batch| == Min(c.batchSize, |UnlockedForwardable(s)|)
  {
    SubsetSize(batch, UnlockedForwardable(s));
  }

  /** One such pass of worker k leads from s to t. */
  ghost predicate OnePass(c: Config, s: State, k: WorkerId, t: State) {
    exists batch, now :: Enabled(c, s, DequeuePending(k, batch)) && t == AfterPass(s, k, batch, now)
  }

  lemma OnePassDrains(c: Config, s: State, k: WorkerId, t: State)
    requires OnePass(c, s, k, t)
    ensures |UnlockedForwardable(t)| == |UnlockedForwardable(s)| - Min(c.batchSize, |UnlockedForwardable(s)|)
    ensures k in t.workers && t.workers[k].Idle?
  {
    var batch, now :| Enabled(c, s, DequeuePending(k, batch)) && t == AfterPass(s, k, batch, now);
    PassDrains(c, s, k, batch, now);
  }

  /** t is reached from s by n such passes of worker k, with no other party acting. */
  ghost predicate Passes(c: Config, s: State, k: WorkerId, n: nat, t: State)
    decreases n
  {
    if n == 0 then s == t else exists u :: OnePass(c, s, k, u) && Passes(c, u, k, n - 1, t)
  }

  /** n passes take n * batchSize rows away, until none is left. */
  lemma {:induction false} PassesDrain(c: Config, s: State, k: WorkerId, n: nat, t: State)
    requires Passes(c, s, k, n, t)
    ensures |UnlockedForwardable(t)| == Left(|UnlockedForwardable(s)|, n, c.batchSize)
    decreases n
  {
    if n > 0 {
      var u :| OnePass(c, s, k, u) && Passes(c, u, k, n - 1, t);
      OnePassDrains(c, s, k, u);
      PassesDrain(c, u, k, n - 1, t);
      OneBatchLess(|UnlockedForwardable(s)|, n, c.batchSize);
    }
  }

  function Left(f: nat, n: nat, size: nat): nat { if n * size <= f then f - n * size else 0 }

  lemma OneBatchLess(f: nat, n: nat, size: nat)
    requires n > 0
    ensures Left(f - Min(size, f), n - 1, size) == Left(f, n, size)
    ensures f <= n * size ==> f - Min(size, f) <= (n - 1) * size
  {
    assert n * size == (n - 1) * size + size && (n - 1) * size >= 0;
  }

  lemma NextPass(c: Config, s: State, k: WorkerId) returns (u: State)
    requires k in s.workers && s.workers[k].Idle?
    ensures OnePass(c, s, k, u)
  {
    var batch := OldestBatchExists(s, UnlockedForwardable(s), c.batchSize);
    u := AfterPass(s, k, batch, 0);
    assert Enabled(c, s, DequeuePending(k, batch));
  }

  /** An idle worker can always make the next pass, so from any state ceil(n / batchSize) passes empty the buffer
      of rows it may forward: only rows that other workers hold are left. */
  lemma {:induction false} BufferDrains(c: Config, s: State, k: WorkerId, n: nat) returns (t: State)
    requires c.batchSize > 0 && k in s.workers && s.workers[k].Idle?
    requires |UnlockedForwardable(s)| <= n * c.batchSize
    ensures Passes(c, s, k, n, t) && UnlockedForwardable(t) == {}
    decreases n
  {
    if n == 0 {
      t := s;
    } else {
      var u := NextPass(c, s, k);
      OnePassDrains(c, s, k, u);
      OneBatchLess(|UnlockedForwardable(s)|, n, c.batchSize);
      t := BufferDrains(c, u, k, n - 1);
    }
  }

  // ---------------------------------------------------------------- with others acting

  /** Rows ready to forward, whoever holds them. */
  function ForwardableIds(rows: map<RowId, Row>): set<RowId> { set id | id in rows && Forwardable(rows[id]) }

  /** Rows a step takes out: the batch of an accepted send that commits. */
  function Released(s: State, a: Action): set<RowId> {
    if a.ReleaseSent? && a.worker in s.workers && s.workers[a.worker].Forwarding? && s.workers[a.worker].send.Acked?
    then s.workers[a.worker].batch else {}
  }

  /** Rows a step makes ready: a new row with a JWS, or the rows of a committed re-sign batch that got one. */
  function Gained(s: State, a: Action): set<RowId> {
    if a.InsertRow? && a.writer in s.writers && s.writers[a.writer].DepthChecked? then
      var i := s.writers[a.writer].insertion;
      if i.jti != "" && !HasJti(s.rows, i.jti) && Forwardable(NewRow(i)) then {s.nextId} else {}
    else if a.ReleaseResign? && a.worker in s.workers && s.workers[a.worker].Resigning? then
      var w := s.workers[a.worker];
      set id | id in w.batch && id in w.writes && w.writes[id] != ""
    else {}
  }

  lemma SentBalance(s: State, k: WorkerId, now: int)
    requires k in s.workers && s.workers[k].Forwarding? && WorkerOk(s, s.workers[k])
    requires s.workers[k].send.NotSent? ==> s.workers[k].batch == {}
    ensures var w := s.workers[k];
      && w.batch <= ForwardableIds(s.rows)
      && ForwardableIds(CommitSent(s, k, now).rows)
         == ForwardableIds(s.rows) - (if w.send.Acked? then w.batch else {})
  {}

  lemma ResignBalance(s: State, k: WorkerId, success: bool, error: string)
    requires k in s.workers && s.workers[k].Resigning? && WorkerOk(s, s.workers[k])
    ensures var w := s.workers[k];
      var signed := set id | id in w.batch && id in w.writes && w.writes[id] != "";
      && signed !! ForwardableIds(s.rows)
      && ForwardableIds(CommitResign(s, k, success, error).rows) == ForwardableIds(s.rows) + signed
  {}

  lemma InsertBalance(s: State, w: WriterId)
    requires w in s.writers && s.writers[w].DepthChecked? && DistinctRows(s)
    ensures ForwardableIds(Insert(s, w).rows) == ForwardableIds(s.rows) + Gained(s, InsertRow(w))
    ensures Gained(s, InsertRow(w)) !! ForwardableIds(s.rows)
  {}

  /** Whatever party acts, the forwardable rows change by exactly what is gained and released. */
  lemma StepBalance(c: Config, s: State, a: Action)
    requires Inv(s) && Enabled(c, s, a)
    ensures Released(s, a) <= ForwardableIds(s.rows) && Gained(s, a) !! ForwardableIds(s.rows)
    ensures ForwardableIds(Apply(c, s, a).rows) == ForwardableIds(s.rows) - Released(s, a) + Gained(s, a)
  {
    match a
    case ReleaseSent(k, now) => SentBalance(s, k, now);
    case ReleaseResign(k, success, error) => ResignBalance(s, k, success, error);
    case InsertRow(w) => InsertBalance(s, w);
    case Vacuum(now, days) => VacuumBalance(s.rows, now, days);
    case _ => QuietBalance(c, s, a);
  }

  lemma VacuumBalance(rows: map<RowId, Row>, now: int, days: int)
    ensures ForwardableIds(Kept(rows, now, days)) == ForwardableIds(rows)
  {}

  lemma QuietBalance(c: Config, s: State, a: Action)
    requires Enabled(c, s, a) && !a.ReleaseSent? && !a.ReleaseResign? && !a.InsertRow? && !a.Vacuum?
    ensures Apply(c, s, a).rows == s.rows && Released(s, a) == {} && Gained(s, a) == {}
  {}

  /** The count's balance over one step. */
  ghost predicate Balanced(s: State, a: Action, t: State) {
    |ForwardableIds(t.rows)| + |Released(s, a)| == |ForwardableIds(s.rows)| + |Gained(s, a)|
  }

  lemma StepCounts(c: Config, s: State, a: Action)
    requires Inv(s) && Enabled(c, s, a)
    ensures Balanced(s, a, Apply(c, s, a))
  {
    StepBalance(c, s, a);
    var f, out, more := ForwardableIds(s.rows), Released(s, a), Gained(s, a);
    assert |f - out| == |f| - |out|;
    assert |(f - out) + more| == |f - out| + |more|;
  }

  /** Rows released between states i and j of a run. */
  function ReleasedBetween(states: seq<State>, actions: seq<Action>, i: nat, j: nat): nat
    requires i <= j < |states| == |actions| + 1
    decreases j
  {
    if i == j then 0 else ReleasedBetween(states, actions, i, j - 1) + |Released(states[j - 1], actions[j - 1])|
  }

  function GainedBetween(states: seq<State>, actions: seq<Action>, i: nat, j: nat): nat
    requires i <= j < |states| == |actions| + 1
    decreases j
  {
    if i == j then 0 else GainedBetween(states, actions, i, j - 1) + |Gained(states[j - 1], actions[j - 1])|
  }

  lemma {:induction false} Telescope(states: seq<State>, actions: seq<Action>, i: nat, j: nat)
    requires i <= j < |states| == |actions| + 1
    requires forall k: nat | i <= k < j :: Balanced(states[k], actions[k], states[k + 1])
    ensures |ForwardableIds(states[j].rows)| + ReleasedBetween(states, actions, i, j)
         == |ForwardableIds(states[i].rows)| + GainedBetween(states, actions, i, j)
    decreases j
  {
    if i < j {
      Telescope(states, actions, i, j - 1);
      assert Balanced(states[j - 1], actions[j - 1], states[j - 1 + 1]);
    }
  }

  /** The balance of every stretch of every run, with any writers and workers acting: what was ready, plus what was
      gained, is what is ready plus what was released. */
  lemma RunBalance(c: Config, states: seq<State>, actions: seq<Action>, i: nat, j: nat)
    requires Run(c, states, actions) && Initial(states[0]) && i <= j < |states|
    ensures |ForwardableIds(states[j].rows)| + ReleasedBetween(states, actions, i, j)
         == |ForwardableIds(states[i].rows)| + GainedBetween(states, actions, i, j)
  {
    forall k: nat | i <= k < j ensures Balanced(states[k], actions[k], states[k + 1]) {
      EveryRunIsSafe(c, states, actions, k);
      StepCounts(c, states[k], actions[k]);
    }
    Telescope(states, actions, i, j);
  }

  /** So once the accepted and committed releases of a stretch add up to what was ready and what was gained, nothing
      forwardable is left, and not before. */
  lemma DrainedIff(c: Config, states: seq<State>, actions: seq<Action>, i: nat, j: nat)
    requires Run(c, states, actions) && Initial(states[0]) && i <= j < |states|
    ensures ForwardableIds(states[j].rows) == {} <==>
      ReleasedBetween(states, actions, i, j)
      == |ForwardableIds(states[i].rows)| + GainedBetween(states, actions, i, j)
  {
    RunBalance(c, states, actions, i, j);
  }
}

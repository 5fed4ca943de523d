/**
 The durable audit buffer as a transition system: any number of writers that check the depth and then
 insert, any number of forward and re-sign workers that dequeue under row locks, act, and commit or
 lose their transaction, a sink that may deliver part of a batch and then fail, and Vacuum.

 A row's `jws` is "" for both SQL NULL and the empty text, which every query treats alike.
 */
module AuditBuffer {
  import opened Options

  type RowId = nat
  type WorkerId = nat
  type WriterId = nat

  datatype Row = Row(
    jti: string,
    jws: string,
    signingError: Option<string>,
    payload: string,
    emittedAt: int,
    sentAt: Option<int>,
    attempts: nat,
    lastError: string)

  /** What one row says it was sent as: the sink's view of an event. */
  datatype Event = Event(id: RowId, jti: string, jws: string)

  datatype SendStatus = NotSent | Acked | Rejected(error: string)

  /** An open worker transaction holds FOR UPDATE locks on `batch`; its row writes stay private
      until it commits, and a failed statement aborts it. */
  datatype Worker =
    | Idle
    | Forwarding(batch: set<RowId>, send: SendStatus)
    | Resigning(batch: set<RowId>, writes: map<RowId, string>, aborted: bool)

  /** Who calls CreateSignedAuditLog: SignedStore with a JWS, SignedStore after a signing failure, the
      legacy CreateAuditLog, or any other direct caller. */
  datatype Origin = Signed(jws: string) | SigningFailed(error: string) | Legacy | Direct(jws: string, error: string)

  datatype Insertion = Insertion(jti: string, payload: string, emittedAt: int, origin: Origin)

  datatype Writer = Ready | DepthChecked(insertion: Insertion)

  datatype Config = Config(hardCap: int, batchSize: nat)

  /** The table, the open transactions and writers, and the history: jtis ever inserted, events the
      sink received, events it acknowledged, and jtis deleted by Vacuum. */
  datatype State = State(
    rows: map<RowId, Row>,
    nextId: nat,
    workers: map<WorkerId, Worker>,
    writers: map<WriterId, Writer>,
    inserted: set<string>,
    delivered: set<Event>,
    acked: set<Event>,
    purged: set<string>)

  datatype Action =
    | CheckDepth(writer: WriterId, insertion: Insertion, depthKnown: bool)
    | InsertRow(writer: WriterId)
    | GiveUp(writer: WriterId)
    | DequeuePending(worker: WorkerId, batch: set<RowId>)
    | SinkAcks(worker: WorkerId)
    | SinkFails(worker: WorkerId, reached: set<RowId>, error: string)
    | ReleaseSent(worker: WorkerId, now: int)
    | DequeueUnsigned(worker: WorkerId, batch: set<RowId>)
    | SetJws(worker: WorkerId, id: RowId, jws: string)
    | SetJwsFails(worker: WorkerId)
    | ReleaseResign(worker: WorkerId, success: bool, error: string)
    | LoseTransaction(worker: WorkerId)
    | Vacuum(now: int, retentionDays: int)

  // ---------------------------------------------------------------- row classes

  predicate Unsent(r: Row) { r.sentAt.None? }

  /** WHERE clause of DequeuePending. */
  predicate Forwardable(r: Row) { Unsent(r) && r.jws != "" }

  /** WHERE clause of DequeueUnsignedForResigningWithTx. */
  predicate Resignable(r: Row) { Unsent(r) && r.jws == "" && r.signingError.Some? }

  /** In neither pump's WHERE clause. */
  predicate Parked(r: Row) { Unsent(r) && r.jws == "" && r.signingError.None? }

  // ---------------------------------------------------------------- SQL statements

  function NullIfEmpty(s: string): Option<string> { if s == "" then None else Some(s) }

  function NewRow(i: Insertion): Row {
    match i.origin
    case Signed(jws) => Row(i.jti, jws, None, i.payload, i.emittedAt, None, 0, "")
    case SigningFailed(error) => Row(i.jti, "", NullIfEmpty(error), i.payload, i.emittedAt, None, 0, "")
    case Legacy => Row(i.jti, "", None, i.payload, i.emittedAt, None, 0, "")
    case Direct(jws, error) => Row(i.jti, jws, NullIfEmpty(error), i.payload, i.emittedAt, None, 0, "")
  }

  predicate HasJti(rows: map<RowId, Row>, jti: string) {
    exists id | id in rows :: rows[id].jti == jti
  }

  /** UPDATE ... SET sent_at = now() WHERE id = ANY(batch). */
  function MarkSent(rows: map<RowId, Row>, batch: set<RowId>, now: int): map<RowId, Row> {
    map id | id in rows :: if id in batch then rows[id].(sentAt := Some(now)) else rows[id]
  }

  /** UPDATE ... SET attempts = attempts + 1, last_error = error WHERE id = ANY(batch). */
  function NoteFailure(rows: map<RowId, Row>, batch: set<RowId>, error: string): map<RowId, Row> {
    map id | id in rows ::
      if id in batch then rows[id].(attempts := rows[id].attempts + 1, lastError := error) else rows[id]
  }

  /** The per-row UPDATE ... SET jws_compact statements of one re-sign transaction. */
  function WriteJws(rows: map<RowId, Row>, writes: map<RowId, string>): map<RowId, Row> {
    map id | id in rows :: if id in writes then rows[id].(jws := writes[id]) else rows[id]
  }

  /** UPDATE ... SET signing_error = NULL WHERE id = ANY(batch): the whole batch, re-signed or not. */
  function ClearSigningError(rows: map<RowId, Row>, batch: set<RowId>): map<RowId, Row> {
    map id | id in rows :: if id in batch then rows[id].(signingError := None) else rows[id]
  }

  function Events(rows: map<RowId, Row>, batch: set<RowId>): set<Event> {
    set id | id in batch && id in rows :: Event(id, rows[id].jti, rows[id].jws)
  }

  function UnsentIds(rows: map<RowId, Row>): set<RowId> { set id | id in rows && Unsent(rows[id]) }

  function Depth(rows: map<RowId, Row>): nat { |UnsentIds(rows)| }

  /** DELETE ... WHERE sent_at IS NOT NULL AND sent_at < now() - interval. */
  predicate Expired(r: Row, now: int, retentionDays: int) {
    r.sentAt.Some? && r.sentAt.value < now - retentionDays * 86400
  }

  function Kept(rows: map<RowId, Row>, now: int, retentionDays: int): map<RowId, Row> {
    map id | id in rows && !Expired(rows[id], now, retentionDays) :: rows[id]
  }

  function DeletedJtis(rows: map<RowId, Row>, now: int, retentionDays: int): set<string> {
    set id | id in rows && Expired(rows[id], now, retentionDays) :: rows[id].jti
  }

  function Batch(w: Worker): set<RowId> { if w.Idle? then {} else w.batch }

  predicate Locked(s: State, id: RowId) { exists k | k in s.workers :: id in Batch(s.workers[k]) }

  /** ORDER BY emitted_at FOR UPDATE SKIP LOCKED LIMIT n over the rows of one class. */
  predicate OldestUnlocked(s: State, eligible: set<RowId>, batch: set<RowId>, limit: nat) {
    && batch <= eligible <= s.rows.Keys
    && |batch| <= limit
    && (|batch| < limit ==> batch == eligible)
    && (forall x, y | x in batch && y in eligible - batch :: s.rows[x].emittedAt <= s.rows[y].emittedAt)
  }

  function UnlockedForwardable(s: State): set<RowId> {
    set id | id in s.rows && Forwardable(s.rows[id]) && !Locked(s, id)
  }

  function UnlockedResignable(s: State): set<RowId> {
    set id | id in s.rows && Resignable(s.rows[id]) && !Locked(s, id)
  }

  // ---------------------------------------------------------------- steps

  predicate Holds(s: State, k: WorkerId) { k in s.workers && !s.workers[k].Idle? }

  predicate Enabled(c: Config, s: State, a: Action) {
    match a
    case CheckDepth(w, i, known) =>
      w in s.writers && s.writers[w].Ready? && !(c.hardCap > 0 && known && Depth(s.rows) >= c.hardCap)
    case InsertRow(w) => w in s.writers && s.writers[w].DepthChecked?
    case GiveUp(w) => w in s.writers
    case DequeuePending(k, b) =>
      k in s.workers && s.workers[k].Idle? && OldestUnlocked(s, UnlockedForwardable(s), b, c.batchSize)
    case SinkAcks(k) => k in s.workers && s.workers[k].Forwarding? && s.workers[k].send.NotSent?
    case SinkFails(k, reached, _) =>
      k in s.workers && s.workers[k].Forwarding? && s.workers[k].send.NotSent? && reached <= s.workers[k].batch
    case ReleaseSent(k, _) =>
      k in s.workers && s.workers[k].Forwarding? && (s.workers[k].send.NotSent? ==> s.workers[k].batch == {})
    case DequeueUnsigned(k, b) =>
      k in s.workers && s.workers[k].Idle? && OldestUnlocked(s, UnlockedResignable(s), b, c.batchSize)
    case SetJws(k, id, _) =>
      k in s.workers && s.workers[k].Resigning? && !s.workers[k].aborted && id in s.workers[k].batch
    case SetJwsFails(k) => k in s.workers && s.workers[k].Resigning?
    case ReleaseResign(k, _, _) => k in s.workers && s.workers[k].Resigning? && !s.workers[k].aborted
    case LoseTransaction(k) => k in s.workers
    case Vacuum(_, days) => days > 0
  }

  function Insert(s: State, w: WriterId): State
    requires w in s.writers && s.writers[w].DepthChecked?
  {
    var i := s.writers[w].insertion;
    var done := s.(writers := s.writers[w := Ready]);
    if i.jti == "" || HasJti(s.rows, i.jti) then done  // missing jti error, or ON CONFLICT (jti) DO NOTHING
    else done.(rows := s.rows[s.nextId := NewRow(i)], nextId := s.nextId + 1, inserted := s.inserted + {i.jti})
  }

  /** makeReleaseSent: mark sent after an acknowledged send, note the failure otherwise. */
  function CommitSent(s: State, k: WorkerId, now: int): State
    requires k in s.workers && s.workers[k].Forwarding?
  {
    var w := s.workers[k];
    s.(workers := s.workers[k := Idle],
       rows := if w.send.Rejected? then NoteFailure(s.rows, w.batch, w.send.error) else MarkSent(s.rows, w.batch, now))
  }

  /** makeReleaseResign: the JWS writes of the transaction commit either way. */
  function CommitResign(s: State, k: WorkerId, success: bool, error: string): State
    requires k in s.workers && s.workers[k].Resigning?
  {
    var w := s.workers[k];
    var written := WriteJws(s.rows, w.writes);
    s.(workers := s.workers[k := Idle],
       rows := if success then ClearSigningError(written, w.batch) else NoteFailure(written, w.batch, error))
  }

  function Apply(c: Config, s: State, a: Action): State
    requires Enabled(c, s, a)
  {
    match a
    case CheckDepth(w, i, _) => s.(writers := s.writers[w := DepthChecked(i)])
    case InsertRow(w) => Insert(s, w)
    case GiveUp(w) => s.(writers := s.writers[w := Ready])
    case DequeuePending(k, b) => s.(workers := s.workers[k := Forwarding(b, NotSent)])
    case SinkAcks(k) =>
      var w := s.workers[k];
      var es := Events(s.rows, w.batch);
      s.(workers := s.workers[k := w.(send := Acked)], delivered := s.delivered + es, acked := s.acked + es)
    case SinkFails(k, reached, error) =>
      var w := s.workers[k];
      s.(workers := s.workers[k := w.(send := Rejected(error))], delivered := s.delivered + Events(s.rows, reached))
    case ReleaseSent(k, now) => CommitSent(s, k, now)
    case DequeueUnsigned(k, b) => s.(workers := s.workers[k := Resigning(b, map[], false)])
    case SetJws(k, id, jws) =>
      var w := s.workers[k];
      s.(workers := s.workers[k := w.(writes := w.writes[id := jws])])
    case SetJwsFails(k) =>
      var w := s.workers[k];
      s.(workers := s.workers[k := w.(aborted := true)])
    case ReleaseResign(k, success, error) => CommitResign(s, k, success, error)
    case LoseTransaction(k) => s.(workers := s.workers[k := Idle])
    case Vacuum(now, days) =>
      s.(rows := Kept(s.rows, now, days), purged := s.purged + DeletedJtis(s.rows, now, days))
  }

  predicate Initial(s: State) {
    && s.rows == map[] && s.nextId == 0
    && (forall k | k in s.workers :: s.workers[k].Idle?)
    && (forall w | w in s.writers :: s.writers[w].Ready?)
    && s.inserted == {} && s.delivered == {} && s.acked == {} && s.purged == {}
  }

  /** The state after each action of a schedule, when every action is enabled in turn. */
  ghost predicate Run(c: Config, states: seq<State>, actions: seq<Action>) {
    && |states| == |actions| + 1
    && forall i | 0 <= i < |actions| ::
         Enabled(c, states[i], actions[i]) && states[i + 1] == Apply(c, states[i], actions[i])
  }

  // ---------------------------------------------------------------- safety invariant

  predicate DistinctRows(s: State) {
    && (forall id | id in s.rows :: id < s.nextId)
    && (forall x, y | x in s.rows && y in s.rows && s.rows[x].jti == s.rows[y].jti :: x == y)
  }

  predicate DisjointBatches(s: State) {
    forall j, k | j in s.workers && k in s.workers && j != k :: Batch(s.workers[j]) !! Batch(s.workers[k])
  }

  predicate WorkerOk(s: State, w: Worker) {
    match w
    case Idle => true
    case Forwarding(b, send) =>
      && (forall id | id in b :: id in s.rows && Forwardable(s.rows[id]))
      && (send.Acked? ==> Events(s.rows, b) <= s.acked)
    case Resigning(b, writes, _) =>
      && (forall id | id in b :: id in s.rows && Resignable(s.rows[id]))
      && writes.Keys <= b
  }

  predicate WorkersOk(s: State) { forall k | k in s.workers :: WorkerOk(s, s.workers[k]) }

  predicate EventOf(id: RowId, r: Row, e: Event) { e == Event(id, r.jti, r.jws) }

  /** A sent row carries a JWS and the sink acknowledged exactly that row with that JWS. */
  predicate SentWasAcked(s: State) {
    forall id | id in s.rows && !Unsent(s.rows[id]) ::
      s.rows[id].jws != "" && Event(id, s.rows[id].jti, s.rows[id].jws) in s.acked
  }

  /** Everything the sink ever received carried a JWS, and is still what the table holds. */
  predicate DeliveredIsFinal(s: State) {
    && s.acked <= s.delivered
    && (forall e | e in s.delivered ::
          e.jws != "" && e.id < s.nextId && (e.id in s.rows ==> EventOf(e.id, s.rows[e.id], e)))
  }

  predicate AckedJti(s: State, jti: string) { exists e | e in s.acked :: e.jti == jti && e.jws != "" }

  /** Conservation: an inserted jti is in the table, or was acknowledged and then deleted. */
  predicate NothingLost(s: State) {
    && (forall j | j in s.inserted :: HasJti(s.rows, j) || j in s.purged)
    && (forall id | id in s.rows :: s.rows[id].jti in s.inserted)
    && (forall j | j in s.purged :: AckedJti(s, j))
  }

  predicate Inv(s: State) {
    DistinctRows(s) && DisjointBatches(s) && WorkersOk(s) && SentWasAcked(s) && DeliveredIsFinal(s) && NothingLost(s)
  }
}

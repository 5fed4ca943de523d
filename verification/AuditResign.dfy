/**
 Re-signing over the buffer: which stored payloads read back, and that re-signing signs the original event's bytes.
 */
module AuditResign {
  import opened Options
  import opened AuditBuffer
  import opened AuditForwarder
  import CanonicalEvent
  import CanonicalDepth

  /** What CreateSignedAuditLog stores for an event. */
  ghost predicate StoredFor(lower: string -> string, jti: string, payload: string, e: CanonicalEvent.Event) {
    jti == CanonicalEvent.EventJti(e)
    && exists iat: CanonicalEvent.Int64 :: CanonicalDepth.Encode(lower, e, "aoid", iat) == Some(payload)
  }

  ghost predicate Marshalled(lower: string -> string, jti: string, payload: string) {
    exists e :: StoredFor(lower, jti, payload, e)
  }

  /** Every insertion of the schedule carries the canonical payload of its event. */
  ghost predicate MarshalledInserts(lower: string -> string, actions: seq<Action>) {
    forall n | 0 <= n < |actions| && actions[n].CheckDepth? ::
      Marshalled(lower, actions[n].insertion.jti, actions[n].insertion.payload)
  }

  ghost predicate PayloadsOk(lower: string -> string, s: State) {
    && (forall id | id in s.rows :: Marshalled(lower, s.rows[id].jti, s.rows[id].payload))
    && (forall w | w in s.writers && s.writers[w].DepthChecked? ::
          Marshalled(lower, s.writers[w].insertion.jti, s.writers[w].insertion.payload))
  }

  /** Whatever a step does, each row of the next state is an old row with the same jti and payload, or a writer's
      insertion. */
  lemma RowComesFrom(c: Config, s: State, a: Action, id: RowId)
    requires Enabled(c, s, a) && id in Apply(c, s, a).rows
    ensures var r := Apply(c, s, a).rows[id];
      || (id in s.rows && r.jti == s.rows[id].jti && r.payload == s.rows[id].payload)
      || (a.InsertRow? && s.writers[a.writer].DepthChecked?
          && r.jti == s.writers[a.writer].insertion.jti && r.payload == s.writers[a.writer].insertion.payload)
  {}

  lemma StepKeepsPayloads(lower: string -> string, c: Config, s: State, a: Action)
    requires PayloadsOk(lower, s) && Enabled(c, s, a)
    requires a.CheckDepth? ==> Marshalled(lower, a.insertion.jti, a.insertion.payload)
    ensures PayloadsOk(lower, Apply(c, s, a))
  {
    var t := Apply(c, s, a);
    forall id | id in t.rows ensures Marshalled(lower, t.rows[id].jti, t.rows[id].payload) {
      RowComesFrom(c, s, a, id);
    }
  }

  lemma {:induction false} RunKeepsPayloads(lower: string -> string, c: Config, states: seq<State>,
                                            actions: seq<Action>, n: nat)
    requires Run(c, states, actions) && Initial(states[0]) && n < |states| && MarshalledInserts(lower, actions)
    ensures PayloadsOk(lower, states[n])
  {
    if n > 0 {
      RunKeepsPayloads(lower, c, states, actions, n - 1);
      StepKeepsPayloads(lower, c, states[n - 1], actions[n - 1]);
    }
  }

  /** No details value of the event nests deeper than the decoder allows two levels down. */
  ghost predicate Shallow(e: CanonicalEvent.Event) { CanonicalDepth.DetailsFit(e, CanonicalDepth.LIMIT - 2) }

  /** What the re-signer reads from a payload, if anything, signs as the original event at any issuer and time. */
  ghost predicate ReadsAs(lower: string -> string, jti: string, payload: string, e: CanonicalEvent.Event) {
    var read := CanonicalDepth.Decode(payload);
    && read.Some? && CanonicalEvent.EventJti(read.value.0) == jti
    && forall issuer, iat: CanonicalEvent.Int64 ::
         CanonicalDepth.Encode(lower, read.value.0, issuer, iat) == Some(CanonicalEvent.Marshal(lower, e, issuer, iat))
  }

  /** In every run whose payloads come from MarshalCanonical, each row of each state reads back exactly when its event
      is shallow, and then what a re-sign signs is what the original event would have had signed. */
  lemma EveryRowResignsAsOriginal(lower: string -> string, c: Config, states: seq<State>, actions: seq<Action>, n: nat,
                                  id: RowId)
      returns (e: CanonicalEvent.Event)
    requires CanonicalEvent.Idempotent(lower)
    requires Run(c, states, actions) && Initial(states[0]) && n < |states| && MarshalledInserts(lower, actions)
    requires id in states[n].rows
    ensures StoredFor(lower, states[n].rows[id].jti, states[n].rows[id].payload, e)
    ensures Shallow(e) ==> ReadsAs(lower, states[n].rows[id].jti, states[n].rows[id].payload, e)
    ensures !Shallow(e) ==> CanonicalDepth.Decode(states[n].rows[id].payload).None?
  {
    RunKeepsPayloads(lower, c, states, actions, n);
    var row := states[n].rows[id];
    e :| StoredFor(lower, row.jti, row.payload, e);
    ReadsIffShallow(lower, row.jti, row.payload, e);
  }

  lemma ReadsIffShallow(lower: string -> string, jti: string, payload: string, e: CanonicalEvent.Event)
    requires CanonicalEvent.Idempotent(lower) && StoredFor(lower, jti, payload, e)
    ensures if Shallow(e) then ReadsAs(lower, jti, payload, e) else CanonicalDepth.Decode(payload).None?
  {
    var stored: CanonicalEvent.Int64 :| CanonicalDepth.Encode(lower, e, "aoid", stored) == Some(payload);
    CanonicalDepth.DecodeEncode(lower, e, "aoid", stored);
    if Shallow(e) {
      var read := CanonicalEvent.Normal(lower, e);
      assert read.details == e.details;
      forall issuer, iat: CanonicalEvent.Int64
        ensures CanonicalDepth.Encode(lower, read, issuer, iat) == Some(CanonicalEvent.Marshal(lower, e, issuer, iat))
      {
        CanonicalEvent.MarshalNormal(lower, e, issuer, iat);
      }
    }
  }

  /** An outcome of the re-sign loop that is possible for a row: unparsable exactly when the payload does not read. */
  ghost predicate Possible(row: Row, outcome: ResignOutcome) {
    outcome.Unparsable? <==> CanonicalDepth.Decode(row.payload).None?
  }

  /** So in such a run a row is unparsable exactly when its event nests too deep; else it stays unsigned only if the
      signer or the database fails. */
  lemma UnparsableIffTooDeep(lower: string -> string, c: Config, states: seq<State>, actions: seq<Action>, n: nat,
                             id: RowId, outcome: ResignOutcome)
      returns (e: CanonicalEvent.Event)
    requires CanonicalEvent.Idempotent(lower)
    requires Run(c, states, actions) && Initial(states[0]) && n < |states| && MarshalledInserts(lower, actions)
    requires id in states[n].rows && Possible(states[n].rows[id], outcome)
    ensures StoredFor(lower, states[n].rows[id].jti, states[n].rows[id].payload, e)
    ensures outcome.Unparsable? <==> !Shallow(e)
  {
    e := EveryRowResignsAsOriginal(lower, c, states, actions, n, id);
  }
}

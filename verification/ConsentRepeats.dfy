/**
 Revoking the same grant twice in a row, which the check before a revocation's insert is there to prevent. The check
 reads the newest row of the pair in its own statement, so it protects exactly when it is still true at the insert.
 */
module ConsentRepeats {
  import opened Options
  import opened ConsentLedger
  import opened ConsentRuns

  /** Row m names grant g and no later row is about g's pair. */
  ghost predicate NamedLastAt(rows: seq<Entry>, g: Entry, m: nat) {
    && m < |rows| && rows[m].principal == g.principal && rows[m].purpose == g.purpose && rows[m].revokes == Some(g.id)
    && forall k | m < k < |rows| :: rows[k].principal != g.principal || rows[k].purpose != g.purpose
  }

  ghost predicate NamedLast(rows: seq<Entry>, g: Entry) { exists m: nat :: NamedLastAt(rows, g, m) }

  /** Between rows i and j stands one about their pair that names something else or nothing. */
  ghost predicate Parted(rows: seq<Entry>, i: nat, j: nat)
    requires i < j < |rows|
  {
    exists k :: i < k < j && About(rows[k], rows[i].principal, rows[i].purpose) && rows[k].revokes != rows[i].revokes
  }

  predicate Same(e: Entry, f: Entry) {
    e.principal == f.principal && e.purpose == f.purpose && e.revokes.Some? && e.revokes == f.revokes
  }

  /** No grant is revoked twice in a row. */
  ghost predicate NoRepeat(rows: seq<Entry>) {
    forall i: nat, j: nat | i < j < |rows| && Same(rows[i], rows[j]) :: Parted(rows, i, j)
  }

  lemma LatestIsLast(rows: seq<Entry>, g: Entry)
    requires WellFormed(rows)
    ensures LatestRevokes(rows, g) <==> NamedLast(rows, g)
  {
    if LatestRevokes(rows, g) {
      var r :| NamesItLast(rows, g, r);
      var m: nat :| m < |rows| && rows[m] == r;
      assert forall k | m < k < |rows| :: rows[k] in rows;
      assert NamedLastAt(rows, g, m);
    }
    if m: nat :| NamedLastAt(rows, g, m) { assert NamesItLast(rows, g, rows[m]); }
  }

  /** The check passes exactly when the newest row of the pair is no revocation of the grant the call has read. */
  lemma CheckPassesIff(w: World, call: nat)
    requires Inv(w) && call in w.calls && w.calls[call].Fetched?
    ensures Enabled(w, CheckLatest(call)) <==> !NamedLast(w.rows, w.calls[call].original)
    ensures Enabled(w, CheckLatest(call)) ==>
      Apply(w, CheckLatest(call)) == World(w.rows, w.calls[call := Passed(w.calls[call].original)])
  {
    LatestIsLast(w.rows, w.calls[call].original);
  }

  // ---------------------------------------------------------------- one appended row

  lemma LastOfPair(rows: seq<Entry>, e: Entry, i: nat) returns (m: nat)
    requires i < |rows| && About(rows[i], e.principal, e.purpose)
    ensures i <= m < |rows| && About(rows[m], e.principal, e.purpose)
    ensures forall k | m < k < |rows| :: !About(rows[k], e.principal, e.purpose)
    decreases |rows| - i
  {
    m := i;
    if k :| i < k < |rows| && About(rows[k], e.principal, e.purpose) { m := LastOfPair(rows, e, k); }
  }

  lemma PartedBelow(rows: seq<Entry>, e: Entry, i: nat, j: nat)
    requires i < j < |rows|
    ensures Parted(rows + [e], i, j) <==> Parted(rows, i, j)
  {
    if Parted(rows, i, j) {
      var k :| i < k < j && About(rows[k], rows[i].principal, rows[i].purpose) && rows[k].revokes != rows[i].revokes;
      assert (rows + [e])[k] == rows[k];
    }
  }

  /** A row keeps grants from being revoked twice in a row exactly when it is no revocation of a grant named last. */
  lemma AppendRepeatsIff(rows: seq<Entry>, e: Entry, g: Entry)
    requires NoRepeat(rows)
    requires e.revokes.Some? ==> e.revokes == Some(g.id) && About(g, e.principal, e.purpose)
    ensures NoRepeat(rows + [e]) <==> !(e.revokes.Some? && NamedLast(rows, g))
  {
    var n, next := |rows|, rows + [e];
    if e.revokes.Some? && NamedLast(rows, g) {
      var m: nat :| NamedLastAt(rows, g, m);
      assert Same(next[m], next[n]) && !Parted(next, m, n);
    } else {
      forall i: nat, j: nat | i < j < |next| && Same(next[i], next[j]) ensures Parted(next, i, j) {
        if j < n { PartedBelow(rows, e, i, j); } else { PartedByLast(rows, e, g, i); }
      }
    }
  }

  lemma PartedByLast(rows: seq<Entry>, e: Entry, g: Entry, i: nat)
    requires i < |rows| && Same(rows[i], e) && e.revokes == Some(g.id) && About(g, e.principal, e.purpose)
    requires !NamedLast(rows, g)
    ensures Parted(rows + [e], i, |rows|)
  {
    var m := LastOfPair(rows, e, i);
    if rows[m].revokes == Some(g.id) { assert NamedLastAt(rows, g, m); }
    assert (rows + [e])[m] == rows[m] && (rows + [e])[i] == rows[i];
  }

  // ---------------------------------------------------------------- whole runs

  /** The row an insert appends names a grant that was named last when it happened. */
  ghost predicate Repeats(w: World, a: Action)
    requires Enabled(w, a)
  {
    a.Insert? && NamedLast(w.rows, w.calls[a.call].original)
  }

  lemma StepRepeatsIff(w: World, a: Action)
    requires Enabled(w, a) && NoRepeat(w.rows)
    ensures NoRepeat(Apply(w, a).rows) <==> !Repeats(w, a)
  {
    match a
    case GrantCall(req, id, now) =>
      var e := GrantEntry(req, id, now);
      AppendRepeatsIff(w.rows, e, e);
    case Insert(call, revoker, evidence, id, now) =>
      var g := w.calls[call].original;
      AppendRepeatsIff(w.rows, RevocationOf(g, revoker, evidence, id, now), g);
    case _ =>
  }

  ghost predicate RepeatsAt(worlds: seq<World>, actions: seq<Action>, n: nat) {
    n < |actions| && n < |worlds| && Enabled(worlds[n], actions[n]) && Repeats(worlds[n], actions[n])
  }

  lemma {:induction false} NoneRepeats(worlds: seq<World>, actions: seq<Action>, n: nat)
    requires Run(worlds, actions) && Initial(worlds[0]) && n < |worlds|
    requires forall i: nat | i < n :: !RepeatsAt(worlds, actions, i)
    ensures NoRepeat(worlds[n].rows)
  {
    if n > 0 {
      NoneRepeats(worlds, actions, n - 1);
      assert !RepeatsAt(worlds, actions, n - 1);
      assert Leads(worlds[n - 1], actions[n - 1], worlds[n - 1 + 1]);
      StepRepeatsIff(worlds[n - 1], actions[n - 1]);
    }
  }

  /** No world of a run has a grant revoked twice in a row exactly when no insert of it comes after its grant was, by
      then, named last. */
  lemma NoRepeatIff(worlds: seq<World>, actions: seq<Action>)
    requires Run(worlds, actions) && Initial(worlds[0])
    ensures (forall n: nat | n < |worlds| :: NoRepeat(worlds[n].rows)) <==>
      (forall n: nat :: !RepeatsAt(worlds, actions, n))
  {
    if forall n: nat :: !RepeatsAt(worlds, actions, n) {
      forall n: nat | n < |worlds| ensures NoRepeat(worlds[n].rows) { NoneRepeats(worlds, actions, n); }
    }
    if n: nat :| RepeatsAt(worlds, actions, n) {
      assert Leads(worlds[n], actions[n], worlds[n + 1]);
      if NoRepeat(worlds[n].rows) { StepRepeatsIff(worlds[n], actions[n]); }
    }
  }

  /** Every insert directly follows the check of its own call. */
  ghost predicate Prompt(actions: seq<Action>) {
    forall n: nat | n < |actions| && actions[n].Insert? :: n > 0 && actions[n - 1] == CheckLatest(actions[n].call)
  }

  /** Then the check does its work: whatever else the run does, no grant is revoked twice in a row. */
  lemma PromptNeverRepeats(worlds: seq<World>, actions: seq<Action>, n: nat)
    requires Run(worlds, actions) && Initial(worlds[0]) && Prompt(actions) && n < |worlds|
    ensures NoRepeat(worlds[n].rows)
  {
    forall i: nat ensures !RepeatsAt(worlds, actions, i) {
      if RepeatsAt(worlds, actions, i) {
        assert actions[i].Insert?;
        assert Leads(worlds[i - 1], actions[i - 1], worlds[i - 1 + 1]);
        EveryRunIsWellFormed(worlds, actions, i - 1, i - 1);
        CheckPassesIff(worlds[i - 1], actions[i].call);
      }
    }
    NoRepeatIff(worlds, actions);
  }

  // ---------------------------------------------------------------- two calls at once

  /** When two calls check before either inserts, both insert: the grant is revoked twice in a row. */
  lemma RacingRevocationsRepeat(req: GrantRequest) returns (worlds: seq<World>, actions: seq<Action>)
    requires req.purpose != ""
    ensures Run(worlds, actions) && Initial(worlds[0]) && |worlds| == 8
    ensures !NoRepeat(worlds[7].rows)
  {
    var g := GrantEntry(req, 1, 1);
    var r, q := RevocationOf(g, req.consenter, "", 2, 2), RevocationOf(g, req.consenter, "", 3, 3);
    actions := [GrantCall(req, 1, 1), Fetch(0, 0), Fetch(1, 0), CheckLatest(0), CheckLatest(1),
                Insert(0, req.consenter, "", 2, 2), Insert(1, req.consenter, "", 3, 3)];
    worlds := [World([], map[]), World([g], map[]), World([g], map[0 := Fetched(g)]),
               World([g], map[0 := Fetched(g), 1 := Fetched(g)]), World([g], map[0 := Passed(g), 1 := Fetched(g)]),
               World([g], map[0 := Passed(g), 1 := Passed(g)]), World([g, r], map[1 := Passed(g)]),
               World([g, r, q], map[])];
    assert [] + [g] == [g];
    TwoReads(g);
    TwoInserts(g, r, q, req.consenter);
    SevenSteps(worlds, actions);
    assert Same(worlds[7].rows[1], worlds[7].rows[2]) && !Parted(worlds[7].rows, 1, 2);
  }

  lemma TwoReads(g: Entry)
    requires g.revokes.None?
    ensures Leads(World([g], map[]), Fetch(0, 0), World([g], map[0 := Fetched(g)]))
    ensures Leads(World([g], map[0 := Fetched(g)]), Fetch(1, 0), World([g], map[0 := Fetched(g), 1 := Fetched(g)]))
    ensures Leads(World([g], map[0 := Fetched(g), 1 := Fetched(g)]), CheckLatest(0),
                  World([g], map[0 := Passed(g), 1 := Fetched(g)]))
    ensures Leads(World([g], map[0 := Passed(g), 1 := Fetched(g)]), CheckLatest(1),
                  World([g], map[0 := Passed(g), 1 := Passed(g)]))
  {
    assert map[0 := Fetched(g), 1 := Fetched(g)][0 := Passed(g)] == map[0 := Passed(g), 1 := Fetched(g)];
    assert map[0 := Passed(g), 1 := Fetched(g)][1 := Passed(g)] == map[0 := Passed(g), 1 := Passed(g)];
  }

  lemma TwoInserts(g: Entry, r: Entry, q: Entry, revoker: nat)
    requires g.revokes.None? && g.id == g.grantedAt == 1
    requires r == RevocationOf(g, revoker, "", 2, 2) && q == RevocationOf(g, revoker, "", 3, 3)
    ensures Leads(World([g], map[0 := Passed(g), 1 := Passed(g)]), Insert(0, revoker, "", 2, 2),
                  World([g, r], map[1 := Passed(g)]))
    ensures Leads(World([g, r], map[1 := Passed(g)]), Insert(1, revoker, "", 3, 3), World([g, r, q], map[]))
  {
    assert [g] + [r] == [g, r] && [g, r] + [q] == [g, r, q];
    assert map[0 := Passed(g), 1 := Passed(g)] - {0} == map[1 := Passed(g)];
    assert map[1 := Passed(g)] - {1} == map[];
  }

  lemma SevenSteps(w: seq<World>, a: seq<Action>)
    requires |w| == 8 && |a| == 7
    requires Leads(w[0], a[0], w[1]) && Leads(w[1], a[1], w[2]) && Leads(w[2], a[2], w[3]) && Leads(w[3], a[3], w[4])
    requires Leads(w[4], a[4], w[5]) && Leads(w[5], a[5], w[6]) && Leads(w[6], a[6], w[7])
    ensures Run(w, a)
  {}

  // ---------------------------------------------------------------- one call with nothing in between

  /** A grant is recorded exactly when it names a purpose. */
  lemma GrantAlone(w: World, req: GrantRequest, id: nat, now: int)
    requires Fresh(w.rows, id, now)
    ensures Enabled(w, GrantCall(req, id, now)) <==> req.purpose != ""
    ensures req.purpose != "" ==>
      Apply(w, GrantCall(req, id, now)) ==
      w.(rows := w.rows + [Entry(id, req.household, req.principal, req.consenter, req.purpose,
                                 if req.scope == "" then "{}" else req.scope, req.textVersion,
                                 if req.evidence == "" then "{}" else req.evidence, now, None)])
  {}

  /** A revocation fetches the grant it names and goes through exactly when that grant is not named last; a call that
      stops leaves no trace. */
  lemma RevokeAlone(w: World, call: nat, at: nat, revoker: nat, evidence: string, id: nat, now: int)
    requires Inv(w) && call !in w.calls && at < |w.rows| && w.rows[at].revokes.None? && Fresh(w.rows, id, now)
    ensures var g := w.rows[at];
      var fetched := World(w.rows, w.calls[call := Fetched(g)]);
      var passed := World(w.rows, w.calls[call := Passed(g)]);
      && Leads(w, Fetch(call, at), fetched) && Leads(fetched, Return(call), w) && Leads(passed, Return(call), w)
      && (Leads(fetched, CheckLatest(call), passed) <==> !NamedLast(w.rows, g))
      && Leads(passed, Insert(call, revoker, evidence, id, now),
               World(w.rows + [Entry(id, g.household, g.principal, revoker, g.purpose, g.scope, g.textVersion,
                                     if evidence == "" then "{}" else evidence, now, Some(g.id))], w.calls))
  {
    var g := w.rows[at];
    assert w.calls[call := Fetched(g)] - {call} == w.calls == w.calls[call := Passed(g)] - {call};
    assert w.calls[call := Fetched(g)][call := Passed(g)] == w.calls[call := Passed(g)];
    LatestIsLast(w.rows, g);
  }

  /** A revocation is never fetched as something to revoke. */
  lemma OnlyGrantsAreFetched(w: World, call: nat, at: nat)
    requires call !in w.calls
    ensures Enabled(w, Fetch(call, at)) <==> at < |w.rows| && w.rows[at].revokes == None
  {}
}

/**
 Any interleaving of Grant and Revoke calls. A Revoke call reads its original, then reads the newest row of the
 pair, then inserts; other calls may insert in between, so both reads may be stale by then.
 */
module ConsentRuns {
  import opened Options
  import opened ConsentLedger

  /** How far a Revoke call has come. */
  datatype Call = Fetched(original: Entry) | Passed(original: Entry)

  datatype World = World(rows: seq<Entry>, calls: map<nat, Call>)

  datatype Action =
    | GrantCall(req: GrantRequest, id: nat, now: int)
    | Fetch(call: nat, at: nat)
    | CheckLatest(call: nat)
    | Insert(call: nat, revoker: nat, evidence: string, id: nat, now: int)
    | Return(call: nat)

  ghost predicate Enabled(w: World, a: Action) {
    match a
    case GrantCall(req, id, now) => req.purpose != "" && Fresh(w.rows, id, now)
    case Fetch(call, at) => call !in w.calls && at < |w.rows| && w.rows[at].revokes.None?
    case CheckLatest(call) =>
      call in w.calls && w.calls[call].Fetched? && !LatestRevokes(w.rows, w.calls[call].original)
    case Insert(call, _, _, id, now) => call in w.calls && w.calls[call].Passed? && Fresh(w.rows, id, now)
    case Return(call) => call in w.calls
  }

  ghost function Apply(w: World, a: Action): World
    requires Enabled(w, a)
  {
    match a
    case GrantCall(req, id, now) => w.(rows := w.rows + [GrantEntry(req, id, now)])
    case Fetch(call, at) => w.(calls := w.calls[call := Fetched(w.rows[at])])
    case CheckLatest(call) => w.(calls := w.calls[call := Passed(w.calls[call].original)])
    case Insert(call, revoker, evidence, id, now) =>
      World(w.rows + [RevocationOf(w.calls[call].original, revoker, evidence, id, now)], w.calls - {call})
    case Return(call) => w.(calls := w.calls - {call})
  }

  predicate Initial(w: World) { w == World([], map[]) }

  ghost predicate Leads(w: World, a: Action, v: World) { Enabled(w, a) && v == Apply(w, a) }

  ghost predicate Run(worlds: seq<World>, actions: seq<Action>) {
    && |worlds| == |actions| + 1
    && forall i: nat | i < |actions| :: Leads(worlds[i], actions[i], worlds[i + 1])
  }

  // ---------------------------------------------------------------- the ledger of every run

  /** What a call has read is still in the ledger. */
  ghost predicate Inv(w: World) {
    && WellFormed(w.rows)
    && forall c | c in w.calls :: w.calls[c].original in w.rows && w.calls[c].original.revokes.None?
  }

  lemma StepKeepsInv(w: World, a: Action)
    requires Inv(w) && Enabled(w, a)
    ensures Inv(Apply(w, a)) && w.rows <= Apply(w, a).rows
  {
    match a
    case GrantCall(req, id, now) =>
      GrantIsAppendable(w.rows, req, id, now);
      AppendKeepsWellFormed(w.rows, GrantEntry(req, id, now));
    case Insert(call, revoker, evidence, id, now) =>
      RevocationIsAppendable(w.rows, w.calls[call].original, revoker, evidence, id, now);
      AppendKeepsWellFormed(w.rows, RevocationOf(w.calls[call].original, revoker, evidence, id, now));
    case _ =>
  }

  /** In every run of Grant and Revoke calls the ledger only grows and stays well formed: ids differ, times
      increase, and each revocation points at an earlier grant, never a revocation, with the same household,
      principal, purpose, scope and text version. */
  lemma {:induction false} EveryRunIsWellFormed(worlds: seq<World>, actions: seq<Action>, i: nat, j: nat)
    requires Run(worlds, actions) && Initial(worlds[0]) && i <= j < |worlds|
    ensures Inv(worlds[j]) && worlds[i].rows <= worlds[j].rows
  {
    if j > 0 {
      EveryRunIsWellFormed(worlds, actions, if i < j then i else j - 1, j - 1);
      assert Leads(worlds[j - 1], actions[j - 1], worlds[j - 1 + 1]);
      StepKeepsInv(worlds[j - 1], actions[j - 1]);
    }
  }

  /** Each revocation of every run, spelled out: it names an earlier row that is a grant, and copies it. */
  lemma EveryRevocationCopies(worlds: seq<World>, actions: seq<Action>, n: nat, k: nat) returns (g: nat)
    requires Run(worlds, actions) && Initial(worlds[0]) && n < |worlds|
    requires k < |worlds[n].rows| && worlds[n].rows[k].revokes != None
    ensures g < k
    ensures var rows := worlds[n].rows;
      && rows[g].revokes == None && rows[k].revokes == Some(rows[g].id)
      && rows[g].household == rows[k].household && rows[g].principal == rows[k].principal
      && rows[g].purpose == rows[k].purpose && rows[g].scope == rows[k].scope
      && rows[g].textVersion == rows[k].textVersion
  {
    EveryRunIsWellFormed(worlds, actions, n, n);
    assert RevokesEarlierGrant(worlds[n].rows, k);
    g :| g < k && IsRevokedGrant(worlds[n].rows[g], worlds[n].rows[k]);
  }

  // ---------------------------------------------------------------- what the query means

  /** In every settled reading about every pair, the query says whether a grant is outstanding. */
  ghost predicate Agrees(rows: seq<Entry>) { forall principal, purpose :: AgreesOn(rows, principal, purpose) }

  /** The revocation about to be inserted names the only outstanding grant of its pair. */
  ghost predicate NamesTheOnlyGrant(w: World, a: Action)
    requires Enabled(w, a) && a.Insert?
  {
    var g := w.calls[a.call].original;
    Outstanding(w.rows, g.principal, g.purpose) <= {g}
  }

  lemma StepAgreesIff(w: World, a: Action)
    requires Inv(w) && Enabled(w, a) && Agrees(w.rows)
    ensures Agrees(Apply(w, a).rows) <==> (a.Insert? ==> NamesTheOnlyGrant(w, a))
  {
    match a
    case GrantCall(req, id, now) =>
      GrantIsAppendable(w.rows, req, id, now);
      GrantAgrees(w.rows, GrantEntry(req, id, now));
    case Insert(call, revoker, evidence, id, now) =>
      var g := w.calls[call].original;
      var e := RevocationOf(g, revoker, evidence, id, now);
      RevocationIsAppendable(w.rows, g, revoker, evidence, id, now);
      RevocationAgrees(w.rows, e, g);
    case _ =>
  }

  lemma GrantAgrees(rows: seq<Entry>, e: Entry)
    requires WellFormed(rows) && Appendable(rows, e) && e.revokes.None? && Agrees(rows)
    ensures Agrees(rows + [e])
  {
    forall principal, purpose ensures AgreesOn(rows + [e], principal, purpose) {
      AppendAgreesIff(rows, e, principal, purpose);
    }
  }

  lemma RevocationAgrees(rows: seq<Entry>, e: Entry, g: Entry)
    requires WellFormed(rows) && Appendable(rows, e) && g in rows && IsRevokedGrant(g, e) && Agrees(rows)
    ensures Agrees(rows + [e]) <==> Outstanding(rows, g.principal, g.purpose) <= {g}
  {
    AppendAgreesIff(rows, e, g.principal, g.purpose);
    if Outstanding(rows, g.principal, g.purpose) <= {g} {
      forall principal, purpose ensures AgreesOn(rows + [e], principal, purpose) {
        AppendAgreesIff(rows, e, principal, purpose);
      }
    }
  }

  ghost predicate OnlyGrantsAreRevoked(worlds: seq<World>, actions: seq<Action>)
    requires Run(worlds, actions)
  {
    forall n: nat | n < |actions| && actions[n].Insert? ::
      Leads(worlds[n], actions[n], worlds[n + 1]) && NamesTheOnlyGrant(worlds[n], actions[n])
  }

  lemma {:induction false} AgreementHolds(worlds: seq<World>, actions: seq<Action>, n: nat)
    requires Run(worlds, actions) && Initial(worlds[0]) && n < |worlds| && OnlyGrantsAreRevoked(worlds, actions)
    ensures Agrees(worlds[n].rows)
  {
    if n == 0 {
      NothingAgrees();
    } else {
      AgreementHolds(worlds, actions, n - 1);
      EveryRunIsWellFormed(worlds, actions, n - 1, n - 1);
      assert Leads(worlds[n - 1], actions[n - 1], worlds[n - 1 + 1]);
      StepAgreesIff(worlds[n - 1], actions[n - 1]);
    }
  }

  lemma NothingAgrees()
    ensures Agrees([])
  {
    forall principal, purpose, at
      ensures Answer([], principal, purpose, at) <==> Outstanding([], principal, purpose) != {}
    {}
  }

  /** The query means "some grant is outstanding" in every world of a run exactly when each revocation of the run
      named the only outstanding grant of its pair. */
  lemma QueryMeansOutstandingIff(worlds: seq<World>, actions: seq<Action>)
    requires Run(worlds, actions) && Initial(worlds[0])
    ensures (forall n: nat | n < |worlds| :: Agrees(worlds[n].rows)) <==> OnlyGrantsAreRevoked(worlds, actions)
  {
    if OnlyGrantsAreRevoked(worlds, actions) {
      forall n: nat | n < |worlds| ensures Agrees(worlds[n].rows) { AgreementHolds(worlds, actions, n); }
    } else {
      var n: nat :| n < |actions| && actions[n].Insert? && Leads(worlds[n], actions[n], worlds[n + 1])
        && !NamesTheOnlyGrant(worlds[n], actions[n]);
      EveryRunIsWellFormed(worlds, actions, n, n);
      if Agrees(worlds[n].rows) { StepAgreesIff(worlds[n], actions[n]); }
    }
  }

  lemma FiveSteps(w: seq<World>, a: seq<Action>)
    requires |w| == 6 && |a| == 5
    requires Leads(w[0], a[0], w[1]) && Leads(w[1], a[1], w[2]) && Leads(w[2], a[2], w[3])
    requires Leads(w[3], a[3], w[4]) && Leads(w[4], a[4], w[5])
    ensures Run(w, a)
  {}

  /** The condition can fail at the first revocation: of two outstanding grants the older is revoked, and the
      query answers no although the newer one is outstanding. */
  lemma RevokingTheOlderHidesTheNewer(req: GrantRequest) returns (worlds: seq<World>, actions: seq<Action>)
    requires req.purpose != ""
    ensures Run(worlds, actions) && Initial(worlds[0]) && |worlds| == 6
    ensures GrantEntry(req, 2, 2) in Outstanding(worlds[5].rows, req.principal, req.purpose)
    ensures forall at | at >= 3 :: !Answer(worlds[5].rows, req.principal, req.purpose, at)
  {
    var g, h := GrantEntry(req, 1, 1), GrantEntry(req, 2, 2);
    var r := RevocationOf(g, req.consenter, "", 3, 3);
    actions := [GrantCall(req, 1, 1), GrantCall(req, 2, 2), Fetch(0, 0), CheckLatest(0),
                Insert(0, req.consenter, "", 3, 3)];
    worlds := [World([], map[]), World([g], map[]), World([g, h], map[]), World([g, h], map[0 := Fetched(g)]),
               World([g, h], map[0 := Passed(g)]), World([g, h, r], map[])];
    TwoGrants(req, g, h);
    OneRevocation(g, h, req.consenter, r);
    FiveSteps(worlds, actions);
    OlderRevoked(g, h, r);
  }

  lemma TwoGrants(req: GrantRequest, g: Entry, h: Entry)
    requires req.purpose != "" && g == GrantEntry(req, 1, 1) && h == GrantEntry(req, 2, 2)
    ensures Leads(World([], map[]), GrantCall(req, 1, 1), World([g], map[]))
    ensures Leads(World([g], map[]), GrantCall(req, 2, 2), World([g, h], map[]))
  {
    assert [] + [g] == [g] && [g] + [h] == [g, h];
  }

  lemma OneRevocation(g: Entry, h: Entry, revoker: nat, r: Entry)
    requires g.revokes.None? && h.revokes.None? && g.id == g.grantedAt == 1 && h.id == h.grantedAt == 2
    requires r == RevocationOf(g, revoker, "", 3, 3)
    ensures Leads(World([g, h], map[]), Fetch(0, 0), World([g, h], map[0 := Fetched(g)]))
    ensures Leads(World([g, h], map[0 := Fetched(g)]), CheckLatest(0), World([g, h], map[0 := Passed(g)]))
    ensures Leads(World([g, h], map[0 := Passed(g)]), Insert(0, revoker, "", 3, 3), World([g, h, r], map[]))
  {
    assert [g, h] + [r] == [g, h, r];
    assert map[0 := Passed(g)] - {0} == map[];
  }

  lemma OlderRevoked(g: Entry, h: Entry, r: Entry)
    requires g.revokes.None? && h.revokes.None? && g.id == g.grantedAt == 1 && h.id == h.grantedAt == 2
    requires h == g.(id := 2, grantedAt := 2) && IsRevokedGrant(g, r) && r.grantedAt == 3
    ensures h in Outstanding([g, h, r], g.principal, g.purpose)
    ensures forall at | at >= 3 :: !Answer([g, h, r], g.principal, g.purpose, at)
  {
    assert [g, h] + [r] == [g, h, r];
    LastWordCounts([g, h], r);
    assert !Named([g, h, r], 2);
  }
}

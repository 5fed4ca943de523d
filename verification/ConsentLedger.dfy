/**
 * The append-only consent ledger. A validity query reads one row, the newest of its (principal, purpose);
 * the reference is a replay of the whole ledger up to the time asked about.
 */
module ConsentLedger {
  import opened Options

  datatype Entry = Entry(
    id: nat,
    household: nat,
    principal: nat,
    consenter: nat,
    purpose: string,
    scope: string,
    textVersion: string,
    evidence: string,
    grantedAt: int,
    revokes: Option<nat>)

  datatype GrantRequest = GrantRequest(
    household: nat,
    principal: nat,
    consenter: nat,
    purpose: string,
    scope: string,
    textVersion: string,
    evidence: string)

  datatype Error = EmptyPurpose | NotFound | CannotRevokeRevocation | AlreadyRevoked(latest: Entry)

  datatype Validity = Validity(valid: bool, latest: Option<Entry>)

  predicate About(e: Entry, principal: nat, purpose: string) { e.principal == principal && e.purpose == purpose }

  /** Missing JSON documents are stored as the empty object. */
  function OrEmptyObject(doc: string): string { if doc == "" then "{}" else doc }

  // ---------------------------------------------------------------- what a ledger looks like

  /** Entry k is a revocation of an earlier grant about the same thing. */
  ghost predicate RevokesEarlierGrant(rows: seq<Entry>, k: nat)
    requires k < |rows| && rows[k].revokes.Some?
  {
    exists g: nat :: g < k && IsRevokedGrant(rows[g], rows[k])
  }

  predicate IsRevokedGrant(g: Entry, r: Entry) {
    && g.revokes.None? && r.revokes == Some(g.id)
    && g.household == r.household && g.principal == r.principal && g.purpose == r.purpose
    && g.scope == r.scope && g.textVersion == r.textVersion
  }

  ghost predicate WellFormed(rows: seq<Entry>) {
    && (forall i, j | 0 <= i < j < |rows| :: rows[i].id != rows[j].id && rows[i].grantedAt < rows[j].grantedAt)
    && (forall i | 0 <= i < |rows| :: rows[i].purpose != "")
    && (forall k: nat | k < |rows| && rows[k].revokes.Some? :: RevokesEarlierGrant(rows, k))
  }

  /** A new id and a later time than any row's, as the database assigns them. */
  ghost predicate Fresh(rows: seq<Entry>, id: nat, now: int) {
    forall i | 0 <= i < |rows| :: rows[i].id != id && rows[i].grantedAt < now
  }

  /** The entry Grant inserts. */
  function GrantEntry(req: GrantRequest, id: nat, now: int): Entry {
    Entry(id, req.household, req.principal, req.consenter, req.purpose, OrEmptyObject(req.scope), req.textVersion,
          OrEmptyObject(req.evidence), now, None)
  }

  /** The entry Revoke inserts, built from the original it read. */
  function RevocationOf(original: Entry, revoker: nat, evidence: string, id: nat, now: int): Entry {
    Entry(id, original.household, original.principal, revoker, original.purpose, original.scope, original.textVersion,
          OrEmptyObject(evidence), now, Some(original.id))
  }

  /** An entry that keeps the ledger well formed. */
  ghost predicate Appendable(rows: seq<Entry>, e: Entry) {
    && Fresh(rows, e.id, e.grantedAt)
    && e.purpose != ""
    && (e.revokes.Some? ==> exists g: nat :: g < |rows| && IsRevokedGrant(rows[g], e))
  }

  lemma GrantIsAppendable(rows: seq<Entry>, req: GrantRequest, id: nat, now: int)
    requires Fresh(rows, id, now) && req.purpose != ""
    ensures Appendable(rows, GrantEntry(req, id, now))
  {}

  /** Rows never change, so a revocation built from a grant read earlier is still right when it is inserted. */
  lemma RevocationIsAppendable(rows: seq<Entry>, original: Entry, revoker: nat, evidence: string, id: nat, now: int)
    requires WellFormed(rows) && Fresh(rows, id, now) && original in rows && original.revokes.None?
    ensures Appendable(rows, RevocationOf(original, revoker, evidence, id, now))
    ensures IsRevokedGrant(original, RevocationOf(original, revoker, evidence, id, now))
  {
    var g: nat :| g < |rows| && rows[g] == original;
    assert IsRevokedGrant(rows[g], RevocationOf(original, revoker, evidence, id, now));
  }

  lemma AppendKeepsWellFormed(rows: seq<Entry>, e: Entry)
    requires WellFormed(rows) && Appendable(rows, e)
    ensures WellFormed(rows + [e])
  {
    var next := rows + [e];
    forall k: nat | k < |next| && next[k].revokes.Some? ensures RevokesEarlierGrant(next, k) {
      if k < |rows| {
        assert RevokesEarlierGrant(rows, k);
        var g: nat :| g < k && IsRevokedGrant(rows[g], rows[k]);
        assert IsRevokedGrant(next[g], next[k]);
      } else {
        var g: nat :| g < |rows| && IsRevokedGrant(rows[g], e);
        assert IsRevokedGrant(next[g], next[k]);
      }
    }
  }

  // ---------------------------------------------------------------- replay

  datatype Status = Never | Granted(grant: nat) | Withdrawn(grant: nat)

  function Replayed(status: Status, e: Entry, principal: nat, purpose: string, at: int): Status {
    if !About(e, principal, purpose) || e.grantedAt > at then status
    else if e.revokes.None? then Granted(e.id)
    else Withdrawn(e.revokes.value)
  }

  /** The ledger replayed from the start, as of `at`. */
  function Replay(status: Status, rows: seq<Entry>, principal: nat, purpose: string, at: int): Status
    decreases rows
  {
    if rows == [] then status
    else Replay(Replayed(status, rows[0], principal, purpose, at), rows[1..], principal, purpose, at)
  }

  ghost predicate ValidAsOf(rows: seq<Entry>, principal: nat, purpose: string, at: int) {
    Replay(Never, rows, principal, purpose, at).Granted?
  }

  lemma {:induction false} ReplayLast(status: Status, rows: seq<Entry>, e: Entry, principal: nat, purpose: string,
                                      at: int)
    ensures Replay(status, rows + [e], principal, purpose, at)
         == Replayed(Replay(status, rows, principal, purpose, at), e, principal, purpose, at)
    decreases rows
  {
    if rows != [] {
      assert (rows + [e])[1..] == rows[1..] + [e];
      ReplayLast(Replayed(status, rows[0], principal, purpose, at), rows[1..], e, principal, purpose, at);
    } else {
      assert rows + [e] == [e] && [e][1..] == [];
    }
  }

  /** Replaying rows that are not about the pair, or too late, changes nothing. */
  lemma {:induction false} ReplayIgnores(status: Status, rows: seq<Entry>, principal: nat, purpose: string, at: int)
    requires forall i | 0 <= i < |rows| :: !About(rows[i], principal, purpose) || rows[i].grantedAt > at
    ensures Replay(status, rows, principal, purpose, at) == status
  {
    if rows != [] { ReplayIgnores(status, rows[1..], principal, purpose, at); }
  }

  lemma {:induction false} ReplayConcat(status: Status, a: seq<Entry>, b: seq<Entry>, principal: nat, purpose: string,
                                        at: int)
    ensures Replay(status, a + b, principal, purpose, at)
         == Replay(Replay(status, a, principal, purpose, at), b, principal, purpose, at)
    decreases a
  {
    if a == [] {
      assert a + b == b;
    } else {
      assert (a + b)[1..] == a[1..] + b;
      ReplayConcat(Replayed(status, a[0], principal, purpose, at), a[1..], b, principal, purpose, at);
    }
  }

  /** Entry k bears on the pair as of `at`. */
  predicate Counts(rows: seq<Entry>, k: nat, principal: nat, purpose: string, at: int) {
    k < |rows| && About(rows[k], principal, purpose) && rows[k].grantedAt <= at
  }

  /** The replay ends with the verdict of the last entry that counts. */
  lemma ReplayEndsAt(rows: seq<Entry>, k: nat, principal: nat, purpose: string, at: int)
    requires Counts(rows, k, principal, purpose, at)
    requires forall i: nat | k < i < |rows| :: !Counts(rows, i, principal, purpose, at)
    ensures ValidAsOf(rows, principal, purpose, at) <==> rows[k].revokes.None?
  {
    ReplayConcat(Never, rows[..k + 1], rows[k + 1..], principal, purpose, at);
    assert rows == rows[..k + 1] + rows[k + 1..] && rows[..k + 1] == rows[..k] + [rows[k]];
    ReplayLast(Never, rows[..k], rows[k], principal, purpose, at);
    var later := rows[k + 1..];
    forall i: nat | i < |later| ensures !About(later[i], principal, purpose) || later[i].grantedAt > at {
      assert !Counts(rows, k + 1 + i, principal, purpose, at);
    }
    ReplayIgnores(Replay(Never, rows[..k + 1], principal, purpose, at), later, principal, purpose, at);
  }

  /** What was replayed as of a past time never changes as the ledger grows. */
  lemma PastIsFixed(rows: seq<Entry>, later: seq<Entry>, principal: nat, purpose: string, at: int)
    requires WellFormed(rows + later) && forall e | e in later :: e.grantedAt > at
    ensures ValidAsOf(rows + later, principal, purpose, at) <==> ValidAsOf(rows, principal, purpose, at)
  {
    ReplayConcat(Never, rows, later, principal, purpose, at);
    ReplayIgnores(Replay(Never, rows, principal, purpose, at), later, principal, purpose, at);
  }

  /** No entry about the pair is later than `at`. */
  ghost predicate SettledBy(rows: seq<Entry>, principal: nat, purpose: string, at: int) {
    forall e | e in rows && About(e, principal, purpose) :: e.grantedAt <= at
  }

  /** The answer of a validity query, exactly: valid on replay, and asked at or after the newest entry. */
  ghost predicate Answer(rows: seq<Entry>, principal: nat, purpose: string, at: int) {
    SettledBy(rows, principal, purpose, at) && ValidAsOf(rows, principal, purpose, at)
  }

  /** A historical query fails its as-of promise as soon as the pair has a later entry, even a renewed grant:
      the same question about time 2 is first answered yes, then no, while the replay still says yes. */
  lemma RenewalRewritesHistory(first: Entry, renewed: Entry)
    requires first.revokes.None? && renewed == first.(id := first.id + 1, grantedAt := 3) && first.grantedAt == 1
    requires first.purpose != ""
    ensures WellFormed([first, renewed])
    ensures Answer([first], first.principal, first.purpose, 2)
    ensures !Answer([first, renewed], first.principal, first.purpose, 2)
    ensures ValidAsOf([first, renewed], first.principal, first.purpose, 2)
  {
    ReplayEndsAt([first], 0, first.principal, first.purpose, 2);
    ReplayEndsAt([first, renewed], 0, first.principal, first.purpose, 2);
    assert renewed in [first, renewed];
  }

  /** The query and the replay agree exactly when the pair is settled by `at`, or the last entry that counts at
      `at` is not a grant. */
  lemma AgreesIff(rows: seq<Entry>, principal: nat, purpose: string, at: int)
    requires WellFormed(rows)
    ensures (Answer(rows, principal, purpose, at) <==> ValidAsOf(rows, principal, purpose, at))
      <==> SettledBy(rows, principal, purpose, at) || !LastBeforeIsGrant(rows, principal, purpose, at)
  {
    if exists k: nat :: Counts(rows, k, principal, purpose, at) {
      var k := LastCounting(rows, |rows|, principal, purpose, at);
      ReplayEndsAt(rows, k, principal, purpose, at);
    } else {
      forall i: nat | i < |rows| ensures !About(rows[i], principal, purpose) || rows[i].grantedAt > at {
        assert !Counts(rows, i, principal, purpose, at);
      }
      ReplayIgnores(Never, rows, principal, purpose, at);
    }
  }

  ghost predicate LastBeforeIsGrant(rows: seq<Entry>, principal: nat, purpose: string, at: int) {
    exists k: nat :: Counts(rows, k, principal, purpose, at) && rows[k].revokes.None?
      && forall i: nat | k < i < |rows| :: !Counts(rows, i, principal, purpose, at)
  }

  lemma {:induction false} LastCounting(rows: seq<Entry>, n: nat, principal: nat, purpose: string, at: int)
      returns (k: nat)
    requires n <= |rows| && exists j: nat :: j < n && Counts(rows, j, principal, purpose, at)
    ensures k < n && Counts(rows, k, principal, purpose, at)
    ensures forall i: nat | k < i < n :: !Counts(rows, i, principal, purpose, at)
  {
    if Counts(rows, n - 1, principal, purpose, at) { return n - 1; }
    k := LastCounting(rows, n - 1, principal, purpose, at);
  }

  // ---------------------------------------------------------------- grants still outstanding

  ghost predicate Named(rows: seq<Entry>, id: nat) { exists r | r in rows :: r.revokes == Some(id) }

  /** Grants about the pair that no revocation names. */
  ghost function Outstanding(rows: seq<Entry>, principal: nat, purpose: string): set<Entry> {
    set g | g in rows && About(g, principal, purpose) && g.revokes.None? && !Named(rows, g.id)
  }

  /** A yes always rests on a grant that is not revoked. */
  lemma ValidNeedsAnOutstandingGrant(rows: seq<Entry>, principal: nat, purpose: string, at: int)
    requires WellFormed(rows) && Answer(rows, principal, purpose, at)
    ensures Outstanding(rows, principal, purpose) != {}
  {
    if !exists k: nat :: Counts(rows, k, principal, purpose, at) {
      forall i: nat | i < |rows| ensures !About(rows[i], principal, purpose) || rows[i].grantedAt > at {
        assert !Counts(rows, i, principal, purpose, at);
      }
      ReplayIgnores(Never, rows, principal, purpose, at);
    }
    var k := LastCounting(rows, |rows|, principal, purpose, at);
    ReplayEndsAt(rows, k, principal, purpose, at);
    forall r | r in rows ensures r.revokes != Some(rows[k].id) {
      var j: nat :| j < |rows| && rows[j] == r;
      if r.revokes == Some(rows[k].id) { RevokerCountsLater(rows, j, k, principal, purpose, at); }
    }
    assert rows[k] in Outstanding(rows, principal, purpose);
  }

  /** What revokes a grant about the pair comes later and is about the pair. */
  lemma RevokerCountsLater(rows: seq<Entry>, j: nat, k: nat, principal: nat, purpose: string, at: int)
    requires WellFormed(rows) && SettledBy(rows, principal, purpose, at) && Counts(rows, k, principal, purpose, at)
    requires j < |rows| && rows[j].revokes == Some(rows[k].id)
    ensures k < j && Counts(rows, j, principal, purpose, at)
  {
    assert RevokesEarlierGrant(rows, j);
    var g: nat :| g < j && IsRevokedGrant(rows[g], rows[j]);
    assert g == k;
    assert rows[j] in rows;
  }

  // How one more entry changes what is outstanding.

  lemma NamedAfter(rows: seq<Entry>, e: Entry, id: nat)
    ensures Named(rows + [e], id) <==> Named(rows, id) || e.revokes == Some(id)
  {
    assert e in rows + [e];
    if Named(rows, id) {
      var r :| r in rows && r.revokes == Some(id);
      assert r in rows + [e];
    }
  }

  /** Only ids in the ledger are named. */
  lemma NamedIsThere(rows: seq<Entry>, id: nat) returns (g: nat)
    requires WellFormed(rows) && Named(rows, id)
    ensures g < |rows| && rows[g].id == id
  {
    var r :| r in rows && r.revokes == Some(id);
    var k: nat :| k < |rows| && rows[k] == r;
    assert RevokesEarlierGrant(rows, k);
    g :| g < k && IsRevokedGrant(rows[g], rows[k]);
  }

  lemma OutstandingElsewhere(rows: seq<Entry>, e: Entry, principal: nat, purpose: string)
    requires WellFormed(rows) && Appendable(rows, e) && !About(e, principal, purpose)
    ensures Outstanding(rows + [e], principal, purpose) == Outstanding(rows, principal, purpose)
  {
    forall g ensures g in Outstanding(rows + [e], principal, purpose) <==> g in Outstanding(rows, principal, purpose) {
      NamedAfter(rows, e, g.id);
      if g in rows && e.revokes == Some(g.id) { NamesOneGrant(rows, e, g); }
    }
  }

  lemma NamesOneGrant(rows: seq<Entry>, e: Entry, g: Entry)
    requires WellFormed(rows) && Appendable(rows, e) && g in rows && e.revokes == Some(g.id)
    ensures IsRevokedGrant(g, e)
  {
    var i: nat :| i < |rows| && IsRevokedGrant(rows[i], e);
    var j: nat :| j < |rows| && rows[j] == g;
    assert i == j;
  }

  lemma OutstandingAfterGrant(rows: seq<Entry>, e: Entry)
    requires WellFormed(rows) && Appendable(rows, e) && e.revokes.None?
    ensures e in Outstanding(rows + [e], e.principal, e.purpose)
  {
    NamedAfter(rows, e, e.id);
    if Named(rows, e.id) { var g := NamedIsThere(rows, e.id); }
    assert e in rows + [e];
  }

  lemma OutstandingAfterRevocation(rows: seq<Entry>, e: Entry, g: Entry)
    requires WellFormed(rows) && Appendable(rows, e) && g in rows && IsRevokedGrant(g, e)
    ensures Outstanding(rows + [e], e.principal, e.purpose) == Outstanding(rows, e.principal, e.purpose) - {g}
  {
    var before, after := Outstanding(rows, e.principal, e.purpose), Outstanding(rows + [e], e.principal, e.purpose);
    forall h ensures h in after <==> h in before - {g} {
      StillOutstanding(rows, e, g, h);
    }
  }

  lemma StillOutstanding(rows: seq<Entry>, e: Entry, g: Entry, h: Entry)
    requires WellFormed(rows) && g in rows && IsRevokedGrant(g, e)
    ensures h in Outstanding(rows + [e], e.principal, e.purpose) <==>
      h in Outstanding(rows, e.principal, e.purpose) && h != g
  {
    NamedAfter(rows, e, h.id);
    if h in rows { SameIdSameEntry(rows, g, h); }
  }

  lemma SameIdSameEntry(rows: seq<Entry>, g: Entry, h: Entry)
    requires WellFormed(rows) && g in rows && h in rows
    ensures g.id == h.id ==> g == h
  {
    var i: nat :| i < |rows| && rows[i] == g;
    var j: nat :| j < |rows| && rows[j] == h;
  }

  /** After a revocation the query answers "some grant is outstanding" exactly when the grant named was the only
      one outstanding: what a caller of Revoke can check beforehand. */
  lemma RevocationAgreesIff(rows: seq<Entry>, e: Entry, g: Entry, at: int)
    requires WellFormed(rows) && Appendable(rows, e) && g in rows && IsRevokedGrant(g, e) && at >= e.grantedAt
    ensures (Answer(rows + [e], e.principal, e.purpose, at) <==> Outstanding(rows + [e], e.principal, e.purpose) != {})
      <==> Outstanding(rows, e.principal, e.purpose) <= {g}
  {
    LastWordCounts(rows, e);
    OutstandingAfterRevocation(rows, e, g);
  }

  /** In every settled reading the query means "some grant about the pair is outstanding". */
  ghost predicate AgreesOn(rows: seq<Entry>, principal: nat, purpose: string) {
    forall at | SettledBy(rows, principal, purpose, at) ::
      Answer(rows, principal, purpose, at) <==> Outstanding(rows, principal, purpose) != {}
  }

  /** Entries about other pairs change nothing; a grant restores agreement; a revocation keeps or restores it
      exactly when it names the only outstanding grant. */
  lemma AppendAgreesIff(rows: seq<Entry>, e: Entry, principal: nat, purpose: string)
    requires WellFormed(rows) && Appendable(rows, e)
    ensures !About(e, principal, purpose) ==>
      (AgreesOn(rows + [e], principal, purpose) <==> AgreesOn(rows, principal, purpose))
    ensures About(e, principal, purpose) && e.revokes.None? ==> AgreesOn(rows + [e], principal, purpose)
    ensures forall g | About(e, principal, purpose) && g in rows && IsRevokedGrant(g, e) ::
      AgreesOn(rows + [e], principal, purpose) <==> Outstanding(rows, principal, purpose) <= {g}
  {
    if !About(e, principal, purpose) {
      OtherPairUnmoved(rows, e, principal, purpose);
    } else {
      assert e in rows + [e];
      if e.revokes.None? {
        LastWordCounts(rows, e);
        OutstandingAfterGrant(rows, e);
      }
      forall g | g in rows && IsRevokedGrant(g, e)
        ensures AgreesOn(rows + [e], principal, purpose) <==> Outstanding(rows, principal, purpose) <= {g}
      {
        SettledAgreesIff(rows, e, g);
      }
    }
  }

  lemma SettledAgreesIff(rows: seq<Entry>, e: Entry, g: Entry)
    requires WellFormed(rows) && Appendable(rows, e) && g in rows && IsRevokedGrant(g, e)
    ensures AgreesOn(rows + [e], e.principal, e.purpose) <==> Outstanding(rows, e.principal, e.purpose) <= {g}
  {
    assert e in rows + [e];
    assert SettledBy(rows + [e], e.principal, e.purpose, e.grantedAt);
    RevocationAgreesIff(rows, e, g, e.grantedAt);
    forall at | SettledBy(rows + [e], e.principal, e.purpose, at) ensures at >= e.grantedAt {}
    forall at | at >= e.grantedAt
      ensures (Answer(rows + [e], e.principal, e.purpose, at)
               <==> Outstanding(rows + [e], e.principal, e.purpose) != {})
        <==> Outstanding(rows, e.principal, e.purpose) <= {g}
    {
      RevocationAgreesIff(rows, e, g, at);
    }
  }

  lemma OtherPairUnmoved(rows: seq<Entry>, e: Entry, principal: nat, purpose: string)
    requires WellFormed(rows) && Appendable(rows, e) && !About(e, principal, purpose)
    ensures AgreesOn(rows + [e], principal, purpose) <==> AgreesOn(rows, principal, purpose)
  {
    OutstandingElsewhere(rows, e, principal, purpose);
    forall at
      ensures SettledBy(rows + [e], principal, purpose, at) <==> SettledBy(rows, principal, purpose, at)
      ensures Answer(rows + [e], principal, purpose, at) <==> Answer(rows, principal, purpose, at)
    {
      ReplayLast(Never, rows, e, principal, purpose, at);
    }
  }

  /** The converse fails: revoking an old grant a second time hides the newer grant that is still outstanding. */
  lemma SecondRevocationHidesNewGrant(g: Entry, r: Entry, h: Entry, again: Entry)
    requires g.purpose != "" && g.revokes.None? && g.grantedAt == 1 && g.id == 1
    requires r == g.(id := 2, grantedAt := 2, revokes := Some(1))
    requires h == g.(id := 3, grantedAt := 3)
    requires again == r.(id := 4, grantedAt := 4)
    ensures Appendable([], g) && Appendable([g], r) && Appendable([g, r], h) && Appendable([g, r, h], again)
    ensures h in Outstanding([g, r, h, again], g.principal, g.purpose)
    ensures !Answer([g, r, h, again], g.principal, g.purpose, 5)
  {
    assert IsRevokedGrant([g][0], r);
    assert IsRevokedGrant([g, r, h][0], again);
    ReplayEndsAt([g, r, h, again], 3, g.principal, g.purpose, 5);
  }

  // ---------------------------------------------------------------- the service

  /** Row r is the newest of the grant's pair, and a revocation of that very grant. */
  ghost predicate NamesItLast(rows: seq<Entry>, g: Entry, r: Entry) {
    && r in rows && About(r, g.principal, g.purpose) && r.revokes == Some(g.id)
    && forall e | e in rows && About(e, g.principal, g.purpose) :: e.grantedAt <= r.grantedAt
  }

  ghost predicate LatestRevokes(rows: seq<Entry>, g: Entry) { exists r :: NamesItLast(rows, g, r) }

  lemma OneNewest(rows: seq<Entry>, g: Entry, k: nat)
    requires WellFormed(rows) && LatestRevokes(rows, g) && k < |rows| && About(rows[k], g.principal, g.purpose)
    requires forall e | e in rows && About(e, g.principal, g.purpose) :: e.grantedAt <= rows[k].grantedAt
    ensures rows[k].revokes == Some(g.id)
  {
    var r :| NamesItLast(rows, g, r);
    var j: nat :| j < |rows| && rows[j] == r;
    assert rows[k] in rows;
  }

  class Service {
    var rows: seq<Entry>

    ghost predicate Valid() reads this { WellFormed(rows) }

    constructor ()
      ensures Valid() && rows == []
    {
      rows := [];
    }

    method GetEntry(id: nat) returns (r: Option<nat>)
      ensures r.None? ==> forall i | 0 <= i < |rows| :: rows[i].id != id
      ensures r.Some? ==> r.value < |rows| && rows[r.value].id == id
    {
      for i := 0 to |rows|
        invariant forall j | 0 <= j < i :: rows[j].id != id
      {
        if rows[i].id == id { return Some(i); }
      }
      r := None;
    }

    /** The newest row of the pair, by time. */
    method LatestForPurpose(principal: nat, purpose: string) returns (r: Option<nat>)
      ensures r.None? ==> forall e | e in rows :: !About(e, principal, purpose)
      ensures r.Some? ==> r.value < |rows| && About(rows[r.value], principal, purpose)
      ensures r.Some? ==> forall e | e in rows && About(e, principal, purpose) :: e.grantedAt <= rows[r.value].grantedAt
    {
      r := None;
      for i := 0 to |rows|
        invariant r.None? ==> forall e | e in rows[..i] :: !About(e, principal, purpose)
        invariant r.Some? ==> r.value < i && About(rows[r.value], principal, purpose)
        invariant r.Some? ==>
          forall e | e in rows[..i] && About(e, principal, purpose) :: e.grantedAt <= rows[r.value].grantedAt
      {
        assert rows[..i + 1] == rows[..i] + [rows[i]];
        if About(rows[i], principal, purpose) && (r.None? || rows[i].grantedAt >= rows[r.value].grantedAt) {
          r := Some(i);
        }
      }
      assert rows[..|rows|] == rows;
    }

    /** `id` and `now` are the database's. */
    method Grant(req: GrantRequest, id: nat, now: int) returns (r: Result<Entry, Error>)
      requires Valid() && Fresh(rows, id, now)
      modifies this
      ensures Valid()
      ensures r.Err? <==> req.purpose == ""
      ensures r.Err? ==> r.error == EmptyPurpose && rows == old(rows)
      ensures r.Ok? ==> rows == old(rows) + [r.value] && r.value == GrantEntry(req, id, now)
      ensures r.Ok? ==> r.value.id == id && r.value.grantedAt == now && r.value.revokes == None
      ensures r.Ok? ==> r.value.household == req.household && r.value.principal == req.principal
      ensures r.Ok? ==> r.value.consenter == req.consenter && r.value.purpose == req.purpose
      ensures r.Ok? ==> r.value.scope == (if req.scope == "" then "{}" else req.scope)
      ensures r.Ok? ==> r.value.evidence == (if req.evidence == "" then "{}" else req.evidence)
      ensures r.Ok? ==> r.value.textVersion == req.textVersion
      ensures r.Ok? ==> forall at | at >= now :: Answer(rows, req.principal, req.purpose, at)
    {
      if req.purpose == "" { return Err(EmptyPurpose); }
      var e := Entry(id, req.household, req.principal, req.consenter, req.purpose,
                     OrEmptyObject(req.scope), req.textVersion, OrEmptyObject(req.evidence), now, None);
      GrantIsAppendable(rows, req, id, now);
      AppendKeepsWellFormed(rows, e);
      LastWordCounts(rows, e);
      rows := rows + [e];
      r := Ok(e);
    }

    method Revoke(original: nat, revoker: nat, evidence: string, id: nat, now: int) returns (r: Result<Entry, Error>)
      requires Valid() && Fresh(rows, id, now)
      modifies this
      ensures Valid()
      ensures r.Err? ==> rows == old(rows)
      ensures r.Ok? ==> rows == old(rows) + [r.value]
      ensures r.Ok? ==> exists g ::
        && g in old(rows) && g.id == original && g.revokes.None? && !LatestRevokes(old(rows), g)
        && r.value == RevocationOf(g, revoker, evidence, id, now)
      ensures r.Ok? ==> r.value.id == id && r.value.grantedAt == now && r.value.revokes == Some(original)
      ensures r.Ok? ==> r.value.consenter == revoker && r.value.evidence == (if evidence == "" then "{}" else evidence)
      ensures r.Ok? ==> exists g ::
        && g in old(rows) && g.id == original && g.household == r.value.household
        && g.principal == r.value.principal && g.purpose == r.value.purpose && g.scope == r.value.scope
        && g.textVersion == r.value.textVersion
      ensures r.Ok? ==> forall at | at >= now :: !Answer(rows, r.value.principal, r.value.purpose, at)
      ensures r.Err? && r.error == NotFound ==> forall e | e in rows :: e.id != original
      ensures r.Err? && r.error == CannotRevokeRevocation ==>
        exists e :: e in rows && e.id == original && e.revokes.Some?
      ensures r.Err? && r.error.AlreadyRevoked? ==>
        exists g :: g in rows && g.id == original && g.revokes.None? && NamesItLast(rows, g, r.error.latest)
      ensures r.Err? ==> r.error == NotFound || r.error == CannotRevokeRevocation || r.error.AlreadyRevoked?
    {
      var at := GetEntry(original);
      if at.None? { return Err(NotFound); }
      var g := rows[at.value];
      assert g in rows;
      if g.revokes.Some? { return Err(CannotRevokeRevocation); }
      var latest := LatestForPurpose(g.principal, g.purpose);
      if latest.Some? && rows[latest.value].revokes == Some(original) {
        assert NamesItLast(rows, g, rows[latest.value]);
        return Err(AlreadyRevoked(rows[latest.value]));
      }
      assert !LatestRevokes(rows, g) by {
        if LatestRevokes(rows, g) { OneNewest(rows, g, latest.value); }
      }
      var e := Entry(id, g.household, g.principal, revoker, g.purpose, g.scope, g.textVersion,
                     OrEmptyObject(evidence), now, Some(original));
      RevocationIsAppendable(rows, g, revoker, evidence, id, now);
      AppendKeepsWellFormed(rows, e);
      LastWordCounts(rows, e);
      rows := rows + [e];
      r := Ok(e);
    }

    /** One row decides, and the answer is exactly: valid on replay and nothing later about the pair. */
    method IsValid(principal: nat, purpose: string, at: int) returns (r: Result<Validity, Error>)
      requires Valid()
      ensures r.Err? <==> purpose == ""
      ensures r.Err? ==> r.error == EmptyPurpose
      ensures r.Ok? ==> (r.value.valid <==> Answer(rows, principal, purpose, at))
      ensures r.Ok? ==> (r.value.latest.None? <==> forall e | e in rows :: !About(e, principal, purpose))
      // The entry returned is the newest about the pair.
      ensures r.Ok? && r.value.latest.Some? ==>
        && r.value.latest.value in rows
        && r.value.latest.value.principal == principal && r.value.latest.value.purpose == purpose
        && forall e | e in rows && e.principal == principal && e.purpose == purpose ::
             e.grantedAt <= r.value.latest.value.grantedAt
    {
      if purpose == "" { return Err(EmptyPurpose); }
      var latest := LatestForPurpose(principal, purpose);
      if latest.None? {
        ReplayIgnores(Never, rows, principal, purpose, at);
        return Ok(Validity(false, None));
      }
      var e := rows[latest.value];
      assert e in rows;
      if e.grantedAt > at { return Ok(Validity(false, Some(e))); }
      forall i | latest.value < i < |rows| ensures !About(rows[i], principal, purpose) {
        assert rows[i] in rows;
      }
      ReplayEndsAt(rows, latest.value, principal, purpose, at);
      r := Ok(Validity(e.revokes.None?, Some(e)));
    }
  }

  /** From its time on, the newest entry decides. */
  lemma LastWordCounts(rows: seq<Entry>, e: Entry)
    requires forall i | 0 <= i < |rows| :: rows[i].grantedAt < e.grantedAt
    ensures forall at | at >= e.grantedAt :: Answer(rows + [e], e.principal, e.purpose, at) <==> e.revokes.None?
  {
    forall at | at >= e.grantedAt ensures Answer(rows + [e], e.principal, e.purpose, at) <==> e.revokes.None? {
      ReplayEndsAt(rows + [e], |rows|, e.principal, e.purpose, at);
    }
  }
}

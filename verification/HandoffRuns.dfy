/**
 Any interleaving of mints and redemptions over one handoff store. Each store call is atomic; other calls
 may run between the two calls of one redemption, between a code's validation and its mark, and between a
 put and the signing of its code. The readings that store calls take never decrease; where they must
 increase strictly, a lemma says so.
 */
module HandoffRuns {
  import opened Options
  import opened Sets
  import opened HandoffSubject
  import opened HandoffStore

  /** A token signed by this service: its subject and its expiry, cut to whole seconds. */
  datatype Code = Code(subject: string, expiry: int)

  datatype Mint = Mint(tokens: Tokens, audience: ByteString, putAt: int, expiresAt: int)

  /** A redemption past the single-use gate; `returned` is set when it has loaded the tokens. */
  datatype Claim = Claim(jti: string, audience: string, at: int, done: bool, returned: Option<Tokens>)

  datatype World = World(
    clock: int,
    store: Store,
    minted: map<string, Mint>,
    issued: set<Code>,
    claims: seq<Claim>)

  datatype Action =
    | MintCode(jti: string, audience: ByteString, tokens: Tokens, ttl: int, sweepAt: int, putAt: int, signAt: int)
    | IssueOther(code: Code)
    | Redeem(code: Code, presented: string, validateAt: int, sweepAt: int, checkAt: int, setAt: int)
    | Collect(claim: nat, at: int)

  function WholeSeconds(t: int): int { t / 1_000_000_000 * 1_000_000_000 }

  predicate Enabled(w: World, a: Action) {
    match a
    case MintCode(jti, audience, _, ttl, sweepAt, putAt, signAt) =>
      && w.clock <= sweepAt <= putAt <= signAt
      && jti != "" && '|' !in jti && jti !in w.minted && audience != "" && ttl <= HANDOFF_TTL
    case IssueOther(code) => ParseSubject(code.subject).None?
    case Redeem(code, _, validateAt, sweepAt, checkAt, setAt) =>
      validateAt <= sweepAt && w.clock <= sweepAt <= checkAt <= setAt
    case Collect(i, at) => i < |w.claims| && !w.claims[i].done && w.clock <= at
  }

  /** Every reading is later than the one before. */
  predicate Ticks(w: World, a: Action) {
    match a
    case MintCode(_, _, _, _, sweepAt, putAt, signAt) => w.clock < sweepAt < putAt < signAt
    case IssueOther(_) => true
    case Redeem(_, _, validateAt, sweepAt, checkAt, setAt) =>
      validateAt < sweepAt && w.clock < sweepAt < checkAt < setAt
    case Collect(_, at) => w.clock < at
  }

  /** RedeemHandoff up to the mark: what a presented code names, if it is authentic, unexpired, tagged as
      a handoff and bound to this audience. */
  function Accepted(w: World, code: Code, audience: string, validateAt: int): Option<string> {
    if code !in w.issued || validateAt >= code.expiry then None
    else
      var parsed := ParseSubject(code.subject);
      if parsed.None? || parsed.value.1 != audience || audience == "" then None else Some(parsed.value.0)
  }

  function Apply(w: World, a: Action): World
    requires Enabled(w, a)
  {
    match a
    case MintCode(jti, audience, tokens, ttl, sweepAt, putAt, signAt) =>
      var r := Put(w.store, jti, tokens, ttl, sweepAt, putAt);
      if r.Err? then w.(clock := putAt, store := r.error)
      else w.(clock := putAt, store := r.value,
              minted := w.minted[jti := Mint(tokens, audience, putAt, putAt + ttl)],
              issued := w.issued + {Code(Subject(jti, audience), WholeSeconds(signAt + ttl))})
    case IssueOther(code) => w.(issued := w.issued + {code})
    case Redeem(code, audience, validateAt, sweepAt, checkAt, setAt) =>
      var jti := Accepted(w, code, audience, validateAt);
      if jti.None? then w
      else
        var r := Mark(w.store, jti.value, HANDOFF_TTL, sweepAt, checkAt, setAt);
        if r.Err? then w.(clock := setAt, store := r.error)
        else w.(clock := setAt, store := r.value, claims := w.claims + [Claim(jti.value, audience, setAt, false, None)])
    case Collect(i, at) =>
      var c := w.claims[i];
      w.(clock := at, claims := w.claims[i := c.(done := true, returned := Load(w.store, c.jti, at))])
  }

  predicate Initial(w: World) {
    w.store == Store(map[], map[]) && w.minted == map[] && w.issued == {} && w.claims == []
  }

  ghost predicate Leads(w: World, a: Action, v: World) { Enabled(w, a) && v == Apply(w, a) }

  ghost predicate Run(worlds: seq<World>, actions: seq<Action>) {
    && |worlds| == |actions| + 1
    && forall i | 0 <= i < |actions| :: Leads(worlds[i], actions[i], worlds[i + 1])
  }

  // ---------------------------------------------------------------- invariant

  /** Stored entries are what was minted; an entry leaves only after it expired. */
  ghost predicate EntriesOk(w: World) {
    && |w.store.entries| <= MAX_ENTRIES
    && (forall j | j in w.store.entries ::
          j in w.minted && w.store.entries[j] == Item(w.minted[j].tokens, w.minted[j].expiresAt))
    && (forall j | j in w.minted && w.clock <= w.minted[j].expiresAt :: j in w.store.entries)
  }

  ghost predicate MintsOk(w: World) {
    forall j | j in w.minted ::
      && j != "" && '|' !in j && w.minted[j].audience != ""
      && w.minted[j].putAt <= w.clock && w.minted[j].expiresAt <= w.minted[j].putAt + HANDOFF_TTL
  }

  /** A code that parses as a handoff was minted, for that audience. */
  ghost predicate CodesOk(w: World) {
    forall c | c in w.issued && ParseSubject(c.subject).Some? ::
      var (jti, audience) := ParseSubject(c.subject).value;
      jti in w.minted && w.minted[jti].audience == audience
  }

  ghost predicate ClaimOk(w: World, c: Claim) {
    && c.jti in w.minted && c.audience == w.minted[c.jti].audience
    && w.minted[c.jti].putAt <= c.at <= w.clock
    && (c.returned.Some? ==> c.done && c.returned.value == w.minted[c.jti].tokens && c.at <= w.minted[c.jti].expiresAt)
    && Guarded(w, c)
  }

  /** For one TTL after a claim its jti is marked. */
  ghost predicate Guarded(w: World, c: Claim) {
    (c.jti in w.store.redeemed && c.at + HANDOFF_TTL <= w.store.redeemed[c.jti]) || c.at + HANDOFF_TTL < w.clock
  }

  ghost predicate ClaimsOk(w: World) { forall i | 0 <= i < |w.claims| :: ClaimOk(w, w.claims[i]) }

  /** Two claims on a jti are at least one TTL apart. */
  ghost predicate ClaimsApart(w: World) {
    forall i, j | 0 <= i < j < |w.claims| && w.claims[i].jti == w.claims[j].jti ::
      w.claims[i].at + HANDOFF_TTL <= w.claims[j].at
  }

  ghost predicate Claimed(w: World, jti: string) { exists i | 0 <= i < |w.claims| :: w.claims[i].jti == jti }

  ghost predicate MarksOk(w: World) { forall j | j in w.store.redeemed :: Claimed(w, j) }

  ghost predicate Inv(w: World) {
    EntriesOk(w) && MintsOk(w) && CodesOk(w) && ClaimsOk(w) && ClaimsApart(w) && MarksOk(w)
  }

  // ---------------------------------------------------------------- every step keeps it

  lemma LiveIsSmaller(entries: map<string, Item>, now: int)
    ensures |Live(entries, now)| <= |entries|
  {
    assert Live(entries, now).Keys <= entries.Keys;
    SubsetSize(Live(entries, now).Keys, entries.Keys);
    assert |Live(entries, now)| == |Live(entries, now).Keys| && |entries| == |entries.Keys|;
  }

  /** Time passes and the store is swept: nothing else changes. */
  lemma SweepKeepsInv(w: World, sweepAt: int, clock: int)
    requires Inv(w) && w.clock <= sweepAt <= clock
    ensures Inv(w.(clock := clock, store := Sweep(w.store, sweepAt)))
  {
    var v := w.(clock := clock, store := Sweep(w.store, sweepAt));
    LiveIsSmaller(w.store.entries, sweepAt);
    forall i | 0 <= i < |v.claims| ensures ClaimOk(v, v.claims[i]) {
      assert ClaimOk(w, w.claims[i]);
    }
    forall j | j in v.store.redeemed ensures Claimed(v, j) {
      assert Claimed(w, j);
    }
  }

  /** Recording a new mint under a fresh jti. */
  ghost predicate Records(w: World, v: World, jti: string, m: Mint, code: Code) {
    && jti !in w.minted && jti != "" && '|' !in jti && m.audience != "" && |w.store.entries| < MAX_ENTRIES
    && m.putAt <= w.clock && m.expiresAt <= m.putAt + HANDOFF_TTL && code.subject == Subject(jti, m.audience)
    && v == w.(store := w.store.(entries := w.store.entries[jti := Item(m.tokens, m.expiresAt)]),
               minted := w.minted[jti := m], issued := w.issued + {code})
  }

  lemma RecordKeepsEntries(w: World, v: World, jti: string, m: Mint, code: Code)
    requires EntriesOk(w) && MintsOk(w) && Records(w, v, jti, m, code)
    ensures EntriesOk(v) && MintsOk(v)
  {
    OneMoreEntry(w.store.entries, jti, Item(m.tokens, m.expiresAt));
  }

  lemma OneMoreEntry(entries: map<string, Item>, jti: string, item: Item)
    ensures |entries[jti := item]| <= |entries| + 1
  {
    var more := entries[jti := item];
    assert more.Keys == entries.Keys + {jti};
    assert |more| == |more.Keys| && |entries| == |entries.Keys|;
  }

  lemma RecordKeepsCodes(w: World, v: World, jti: string, m: Mint, code: Code)
    requires CodesOk(w) && Records(w, v, jti, m, code)
    ensures CodesOk(v)
  {
    SubjectRoundTrip(jti, m.audience);
  }

  lemma RecordKeepsClaims(w: World, v: World, jti: string, m: Mint, code: Code)
    requires ClaimsOk(w) && ClaimsApart(w) && MarksOk(w) && Records(w, v, jti, m, code)
    ensures ClaimsOk(v) && ClaimsApart(v) && MarksOk(v)
  {
    forall i | 0 <= i < |v.claims| ensures ClaimOk(v, v.claims[i]) {
      assert ClaimOk(w, w.claims[i]);
    }
    forall j | j in v.store.redeemed ensures Claimed(v, j) {
      assert Claimed(w, j);
    }
  }

  lemma RecordKeepsInv(w: World, v: World, jti: string, m: Mint, code: Code)
    requires Inv(w) && Records(w, v, jti, m, code)
    ensures Inv(v)
  {
    RecordKeepsEntries(w, v, jti, m, code);
    RecordKeepsCodes(w, v, jti, m, code);
    RecordKeepsClaims(w, v, jti, m, code);
  }

  function Swept(w: World, sweepAt: int, clock: int): World { w.(clock := clock, store := Sweep(w.store, sweepAt)) }

  lemma MintRecords(w: World, a: Action, swept: World)
    requires a.MintCode? && Enabled(w, a) && swept == Swept(w, a.sweepAt, a.putAt)
    requires |swept.store.entries| < MAX_ENTRIES
    ensures Records(swept, Apply(w, a), a.jti, Mint(a.tokens, a.audience, a.putAt, a.putAt + a.ttl),
                    Code(Subject(a.jti, a.audience), WholeSeconds(a.signAt + a.ttl)))
  {}

  lemma MintKeepsInv(w: World, a: Action)
    requires Inv(w) && a.MintCode? && Enabled(w, a)
    ensures Inv(Apply(w, a))
  {
    SweepKeepsInv(w, a.sweepAt, a.putAt);
    var swept := Swept(w, a.sweepAt, a.putAt);
    if |swept.store.entries| < MAX_ENTRIES {
      MintRecords(w, a, swept);
      RecordKeepsInv(swept, Apply(w, a), a.jti, Mint(a.tokens, a.audience, a.putAt, a.putAt + a.ttl),
                     Code(Subject(a.jti, a.audience), WholeSeconds(a.signAt + a.ttl)));
    } else {
      assert Apply(w, a) == swept;
    }
  }

  ghost predicate Marks(w: World, v: World, jti: string, audience: string, checkAt: int, setAt: int) {
    && jti in w.minted && w.minted[jti].audience == audience
    && w.minted[jti].putAt <= setAt && checkAt <= setAt == w.clock
    && (jti in w.store.redeemed ==> w.store.redeemed[jti] <= checkAt)
    && v == w.(store := w.store.(redeemed := w.store.redeemed[jti := setAt + HANDOFF_TTL]),
               claims := w.claims + [Claim(jti, audience, setAt, false, None)])
  }

  /** A mark that goes through: any earlier claim on the jti is at least one TTL old. */
  lemma MarkKeepsInv(w: World, v: World, jti: string, audience: string, checkAt: int, setAt: int)
    requires Inv(w) && Marks(w, v, jti, audience, checkAt, setAt)
    ensures Inv(v)
  {
    var n := |w.claims|;
    forall i | 0 <= i < |v.claims| ensures ClaimOk(v, v.claims[i]) {
      if i < n { assert ClaimOk(w, w.claims[i]); }
    }
    forall i, j | 0 <= i < j < |v.claims| && v.claims[i].jti == v.claims[j].jti
      ensures v.claims[i].at + HANDOFF_TTL <= v.claims[j].at
    {
      assert ClaimOk(w, w.claims[i]);
    }
    forall j | j in v.store.redeemed ensures Claimed(v, j) {
      if j == jti {
        assert v.claims[n].jti == j;
      } else {
        assert Claimed(w, j);
        var i :| 0 <= i < |w.claims| && w.claims[i].jti == j;
        assert v.claims[i].jti == j;
      }
    }
  }

  lemma AcceptedWasMinted(w: World, code: Code, audience: string, at: int)
    requires CodesOk(w) && Accepted(w, code, audience, at).Some?
    ensures var jti := Accepted(w, code, audience, at).value;
      jti in w.minted && w.minted[jti].audience == audience
  {}

  /** A redemption is refused before the mark, refused by the mark, or marks. */
  lemma RedeemCases(w: World, a: Action, jti: Option<string>)
    requires a.Redeem? && Enabled(w, a) && MintsOk(w) && jti == Accepted(w, a.code, a.presented, a.validateAt)
    requires jti.Some? ==> jti.value in w.minted && w.minted[jti.value].audience == a.presented
    ensures var swept := Swept(w, a.sweepAt, a.setAt);
      if jti.None? then Apply(w, a) == w
      else Apply(w, a) == swept || Marks(swept, Apply(w, a), jti.value, a.presented, a.checkAt, a.setAt)
  {}

  lemma RedeemKeepsInv(w: World, a: Action)
    requires Inv(w) && a.Redeem? && Enabled(w, a)
    ensures Inv(Apply(w, a))
  {
    var jti := Accepted(w, a.code, a.presented, a.validateAt);
    if jti.Some? {
      AcceptedWasMinted(w, a.code, a.presented, a.validateAt);
      RedeemCases(w, a, jti);
      SweepKeepsInv(w, a.sweepAt, a.setAt);
      var swept := Swept(w, a.sweepAt, a.setAt);
      if Apply(w, a) != swept { MarkKeepsInv(swept, Apply(w, a), jti.value, a.presented, a.checkAt, a.setAt); }
    }
  }

  lemma CollectKeepsInv(w: World, a: Action)
    requires Inv(w) && a.Collect? && Enabled(w, a)
    ensures Inv(Apply(w, a))
  {
    var v := Apply(w, a);
    assert ClaimOk(w, w.claims[a.claim]);
    forall i | 0 <= i < |v.claims| ensures ClaimOk(v, v.claims[i]) {
      assert ClaimOk(w, w.claims[i]);
    }
    forall j | j in v.store.redeemed ensures Claimed(v, j) {
      var i :| 0 <= i < |w.claims| && w.claims[i].jti == j;
      assert v.claims[i].jti == j;
    }
  }

  lemma StepKeepsInv(w: World, a: Action)
    requires Inv(w) && Enabled(w, a)
    ensures Inv(Apply(w, a))
  {
    match a
    case MintCode(_, _, _, _, _, _, _) => MintKeepsInv(w, a);
    case Redeem(_, _, _, _, _, _) => RedeemKeepsInv(w, a);
    case Collect(_, _) => CollectKeepsInv(w, a);
    case IssueOther(code) =>
      var v := Apply(w, a);
      forall i | 0 <= i < |v.claims| ensures ClaimOk(v, v.claims[i]) { assert ClaimOk(w, w.claims[i]); }
      forall j | j in v.store.redeemed ensures Claimed(v, j) { assert Claimed(w, j); }
  }

  lemma {:induction false} RunKeepsInv(worlds: seq<World>, actions: seq<Action>, n: nat)
    requires Run(worlds, actions) && Initial(worlds[0]) && n < |worlds|
    ensures Inv(worlds[n])
  {
    if n > 0 {
      RunKeepsInv(worlds, actions, n - 1);
      StepKeepsInv(worlds[n - 1], actions[n - 1]);
    }
  }

  // ---------------------------------------------------------------- what each step does

  /** What a redemption presents is good: issued by this service, not expired when validated, a handoff, and bound to
      the audience that presents it. */
  ghost predicate GoodCode(w: World, a: Action, jti: string)
    requires a.Redeem?
  {
    a.code in w.issued && a.validateAt < a.code.expiry && a.presented != ""
    && ParseSubject(a.code.subject) == Some((jti, a.presented))
  }

  /** A redemption adds a claim, and marks its jti for one minute, exactly when its code is good and no mark stands
      that is later than the check. A code that is not good, expired ones included, changes nothing. */
  lemma RedeemEffect(w: World, a: Action)
    requires a.Redeem? && a.validateAt <= a.sweepAt && w.clock <= a.sweepAt <= a.checkAt <= a.setAt
    ensures Enabled(w, a)
    ensures (forall jti :: !GoodCode(w, a, jti)) ==> Apply(w, a) == w
    ensures forall jti | GoodCode(w, a, jti) ::
      var v := Apply(w, a);
      && v.minted == w.minted && v.issued == w.issued && v.clock == a.setAt
      && if jti in w.store.redeemed && a.checkAt < w.store.redeemed[jti]
         then v.claims == w.claims && (jti in v.store.redeemed ==> v.store.redeemed[jti] == w.store.redeemed[jti])
         else
           && v.claims == w.claims + [Claim(jti, a.presented, a.setAt, false, None)]
           && jti in v.store.redeemed && v.store.redeemed[jti] == a.setAt + 60_000_000_000
  {
    if ParseSubject(a.code.subject).Some? {
      var (jti, audience) := ParseSubject(a.code.subject).value;
      assert GoodCode(w, a, jti) <==> Accepted(w, a.code, a.presented, a.validateAt) == Some(jti);
    }
  }

  lemma ExpiredCodeIsHarmless(w: World, a: Action)
    requires a.Redeem? && Enabled(w, a) && (a.validateAt >= a.code.expiry || ParseSubject(a.code.subject).None?)
    ensures Apply(w, a) == w
  {
    RedeemEffect(w, a);
  }

  /** A mint is refused when ten thousand entries are live; else it stores the pair until `ttl` after the put and
      issues a code for it that expires at the last whole second by `ttl` after the signing. */
  lemma MintEffect(w: World, a: Action)
    requires a.MintCode? && w.clock <= a.sweepAt <= a.putAt <= a.signAt && a.ttl <= 60_000_000_000
    requires a.jti != "" && '|' !in a.jti && a.jti !in w.minted && a.audience != ""
    ensures Enabled(w, a)
    ensures var v := Apply(w, a);
      var live := map j | j in w.store.entries && a.sweepAt <= w.store.entries[j].expiresAt :: w.store.entries[j];
      && v.claims == w.claims && v.clock == a.putAt
      && if |live| >= 10_000 then v.minted == w.minted && v.issued == w.issued && v.store.entries == live
         else
           && v.minted == w.minted[a.jti := Mint(a.tokens, a.audience, a.putAt, a.putAt + a.ttl)]
           && v.store.entries == live[a.jti := Item(a.tokens, a.putAt + a.ttl)]
           && exists code :: v.issued == w.issued + {code} && IssuedFor(a, code)
  {
    var code := Code(Subject(a.jti, a.audience), WholeSeconds(a.signAt + a.ttl));
    SubjectText(a.jti, a.audience);
    assert IssuedFor(a, code);
    var live := map j | j in w.store.entries && a.sweepAt <= w.store.entries[j].expiresAt :: w.store.entries[j];
    assert Live(w.store.entries, a.sweepAt) == live;
  }

  ghost predicate IssuedFor(a: Action, code: Code)
    requires a.MintCode?
  {
    && code.subject == "edenhandoff.v1|" + a.jti + "|" + QueryEscape(a.audience)
    && code.expiry % 1_000_000_000 == 0 && code.expiry <= a.signAt + a.ttl < code.expiry + 1_000_000_000
  }

  /** Collecting a claim returns the minted pair exactly when its entry has not expired. */
  lemma CollectEffect(w: World, a: Action)
    requires Inv(w) && a.Collect? && a.claim < |w.claims| && !w.claims[a.claim].done && w.clock <= a.at
    ensures Enabled(w, a)
    ensures var v := Apply(w, a); var c := w.claims[a.claim];
      && c.jti in w.minted && v == w.(clock := a.at, claims := v.claims)
      && v.claims == w.claims[a.claim := c.(done := true, returned :=
           if a.at <= w.minted[c.jti].expiresAt then Some(w.minted[c.jti].tokens) else None)]
  {
    assert ClaimOk(w, w.claims[a.claim]);
  }

  /** Codes for other purposes are issued by the same signer; no redemption accepts them. */
  lemma OtherCodes(w: World, code: Code, a: Action)
    requires ParseSubject(code.subject).None?
    ensures Enabled(w, IssueOther(code)) && Apply(w, IssueOther(code)) == w.(issued := w.issued + {code})
    ensures a.Redeem? && a.code == code && Enabled(w, a) ==> Apply(w, a) == w
  {
    if a.Redeem? && Enabled(w, a) { RedeemEffect(w, a); }
  }

  /** Every claim of every run was made by a redemption whose code was good when it was validated. */
  lemma {:induction false} ClaimHasCode(worlds: seq<World>, actions: seq<Action>, n: nat, i: nat) returns (m: nat)
    requires Run(worlds, actions) && n < |worlds| && |worlds[0].claims| <= i < |worlds[n].claims|
    ensures m < n && actions[m].Redeem? && |worlds[m].claims| == i
    ensures GoodCode(worlds[m], actions[m], worlds[n].claims[i].jti)
    ensures worlds[n].claims[i].audience == actions[m].presented && worlds[n].claims[i].at == actions[m].setAt
  {
    assert Leads(worlds[n - 1], actions[n - 1], worlds[n - 1 + 1]);
    if i < |worlds[n - 1].claims| {
      m := ClaimHasCode(worlds, actions, n - 1, i);
    } else {
      m := n - 1;
      RedeemEffect(worlds[m], actions[m]);
    }
  }

  // ---------------------------------------------------------------- what a run guarantees

  /** Claims i and j have both returned the pair minted under one jti. */
  predicate ReturnedTwice(w: World, i: nat, j: nat) {
    && i < j < |w.claims| && w.claims[i].jti == w.claims[j].jti
    && w.claims[i].returned.Some? && w.claims[j].returned.Some?
  }

  /** Right audience, right tokens, within the cap, whatever the readings. */
  lemma ReturnsAreDue(worlds: seq<World>, actions: seq<Action>, n: nat)
    requires Run(worlds, actions) && Initial(worlds[0]) && n < |worlds|
    ensures |worlds[n].store.entries| <= MAX_ENTRIES
    ensures forall i | 0 <= i < |worlds[n].claims| && worlds[n].claims[i].returned.Some? ::
      var w := worlds[n]; var c := w.claims[i];
      c.jti in w.minted && c.returned.value == w.minted[c.jti].tokens && c.audience == w.minted[c.jti].audience
  {
    RunKeepsInv(worlds, actions, n);
    forall i | 0 <= i < |worlds[n].claims| ensures ClaimOk(worlds[n], worlds[n].claims[i]) {}
  }

  /** In every run, a pair returned twice had a full TTL, was claimed first at the very reading of its put and
      again at the very reading of its expiry. */
  lemma TwoReturnsForce(worlds: seq<World>, actions: seq<Action>, n: nat, i: nat, j: nat)
    requires Run(worlds, actions) && Initial(worlds[0]) && n < |worlds| && ReturnedTwice(worlds[n], i, j)
    ensures var w := worlds[n]; var jti := w.claims[i].jti;
      && jti in w.minted
      && w.minted[jti].expiresAt == w.minted[jti].putAt + HANDOFF_TTL
      && w.claims[i].at == w.minted[jti].putAt
      && w.claims[j].at == w.minted[jti].expiresAt
  {
    RunKeepsInv(worlds, actions, n);
    assert ClaimOk(worlds[n], worlds[n].claims[i]) && ClaimOk(worlds[n], worlds[n].claims[j]);
  }

  /** No pair is put and claimed at one reading with a full TTL. */
  predicate NoInstantClaim(w: World) {
    forall i | 0 <= i < |w.claims| && w.claims[i].jti in w.minted ::
      var m := w.minted[w.claims[i].jti];
      m.expiresAt < m.putAt + HANDOFF_TTL || m.putAt < w.claims[i].at
  }

  /** Single use: each minted pair is returned at most once, even after its mark was swept, in every world of
      every run whose mints have a shorter TTL or whose claims come after their puts. */
  lemma SingleUseUnlessInstant(worlds: seq<World>, actions: seq<Action>, n: nat)
    requires Run(worlds, actions) && Initial(worlds[0]) && n < |worlds| && NoInstantClaim(worlds[n])
    ensures forall i, j :: !ReturnedTwice(worlds[n], i, j)
  {
    forall i, j ensures !ReturnedTwice(worlds[n], i, j) {
      if ReturnedTwice(worlds[n], i, j) { TwoReturnsForce(worlds, actions, n, i, j); }
    }
  }

  ghost predicate StrictRun(worlds: seq<World>, actions: seq<Action>) {
    Run(worlds, actions) && forall i | 0 <= i < |actions| :: Ticks(worlds[i], actions[i])
  }

  ghost predicate ClaimsFollowPuts(w: World) {
    forall i | 0 <= i < |w.claims| :: w.claims[i].jti in w.minted && w.minted[w.claims[i].jti].putAt < w.claims[i].at
  }

  lemma TickKeepsClaimsLater(w: World, a: Action)
    requires Inv(w) && Enabled(w, a) && Ticks(w, a) && ClaimsFollowPuts(w)
    ensures ClaimsFollowPuts(Apply(w, a))
  {
    if a.Redeem? && Accepted(w, a.code, a.presented, a.validateAt).Some? {
      AcceptedWasMinted(w, a.code, a.presented, a.validateAt);
    }
  }

  lemma {:induction false} StrictClaimsFollowPuts(worlds: seq<World>, actions: seq<Action>, n: nat)
    requires StrictRun(worlds, actions) && Initial(worlds[0]) && n < |worlds|
    ensures ClaimsFollowPuts(worlds[n])
  {
    if n > 0 {
      StrictClaimsFollowPuts(worlds, actions, n - 1);
      RunKeepsInv(worlds, actions, n - 1);
      TickKeepsClaimsLater(worlds[n - 1], actions[n - 1]);
    }
  }

  /** Single use under strictly increasing readings. */
  lemma SingleUse(worlds: seq<World>, actions: seq<Action>, n: nat)
    requires StrictRun(worlds, actions) && Initial(worlds[0]) && n < |worlds|
    ensures forall i, j :: !ReturnedTwice(worlds[n], i, j)
  {
    StrictClaimsFollowPuts(worlds, actions, n);
    SingleUseUnlessInstant(worlds, actions, n);
  }

  /** The first redemption for the right audience passes the gate while the code is unexpired, whatever
      wrong-audience attempts and other codes came before. */
  lemma FirstRedemptionClaims(w: World, a: Action, jti: string)
    requires Inv(w) && a.Redeem? && Enabled(w, a) && jti in w.minted && !Claimed(w, jti)
    requires a.code in w.issued && a.code.subject == Subject(jti, w.minted[jti].audience)
    requires a.presented == w.minted[jti].audience
    requires a.validateAt < a.code.expiry
    ensures Apply(w, a).claims == w.claims + [Claim(jti, a.presented, a.setAt, false, None)]
  {
    SubjectRoundTrip(jti, w.minted[jti].audience);
    assert jti !in w.store.redeemed;
  }

  /** A wrong-audience attempt changes nothing. */
  lemma WrongAudienceIsHarmless(w: World, a: Action, jti: string)
    requires Inv(w) && a.Redeem? && Enabled(w, a) && jti in w.minted
    requires a.code.subject == Subject(jti, w.minted[jti].audience) && a.presented != w.minted[jti].audience
    ensures Apply(w, a) == w
  {
    SubjectRoundTrip(jti, w.minted[jti].audience);
  }

  /** A minted jti stays minted unchanged, and a claim keeps its jti, for the rest of a run. */
  lemma {:induction false} Persistence(worlds: seq<World>, actions: seq<Action>, m: nat, n: nat)
    requires Run(worlds, actions) && m <= n < |worlds|
    ensures |worlds[m].claims| <= |worlds[n].claims|
    ensures forall i | 0 <= i < |worlds[m].claims| :: worlds[n].claims[i].jti == worlds[m].claims[i].jti
    ensures forall j | j in worlds[m].minted :: j in worlds[n].minted && worlds[n].minted[j] == worlds[m].minted[j]
    decreases n - m
  {
    if m < n {
      Persistence(worlds, actions, m, n - 1);
      assert Leads(worlds[n - 1], actions[n - 1], worlds[n - 1 + 1]);
    }
  }

  /** A claim collected no later than the entry's expiry returns the minted tokens. */
  lemma ClaimPaysOut(worlds: seq<World>, actions: seq<Action>, n: nat)
    requires Run(worlds, actions) && Initial(worlds[0]) && n < |actions| && actions[n].Collect?
    requires actions[n].claim < |worlds[n].claims| && worlds[n].claims[actions[n].claim].jti in worlds[n].minted
    requires actions[n].at <= worlds[n].minted[worlds[n].claims[actions[n].claim].jti].expiresAt
    ensures worlds[n + 1].claims[actions[n].claim].returned ==
      Some(worlds[n].minted[worlds[n].claims[actions[n].claim].jti].tokens)
  {
    RunKeepsInv(worlds, actions, n);
    assert Leads(worlds[n], actions[n], worlds[n + 1]);
  }

  /** First right-audience redemption before both expiries succeeds: the Redeem step at m is the first to
      claim jti, and its Collect at n, any steps in between, returns the tokens minted under jti. */
  lemma FirstRedemptionSucceeds(worlds: seq<World>, actions: seq<Action>, m: nat, n: nat, jti: string)
    requires Run(worlds, actions) && Initial(worlds[0]) && m < n < |actions|
    requires jti in worlds[m].minted && !Claimed(worlds[m], jti)
    requires actions[m].Redeem? && actions[m].code in worlds[m].issued && actions[m].validateAt < actions[m].code.expiry
    requires actions[m].code.subject == Subject(jti, worlds[m].minted[jti].audience)
    requires actions[m].presented == worlds[m].minted[jti].audience
    requires actions[n].Collect? && actions[n].claim == |worlds[m].claims|
    requires actions[n].at <= worlds[m].minted[jti].expiresAt
    ensures actions[n].claim < |worlds[n + 1].claims|
    ensures worlds[n + 1].claims[actions[n].claim].returned == Some(worlds[m].minted[jti].tokens)
  {
    RedemptionClaims(worlds, actions, m, jti);
    Persistence(worlds, actions, m, n);
    Persistence(worlds, actions, m + 1, n);
    ClaimPaysOut(worlds, actions, n);
  }

  lemma RedemptionClaims(worlds: seq<World>, actions: seq<Action>, m: nat, jti: string)
    requires Run(worlds, actions) && Initial(worlds[0]) && m < |actions|
    requires jti in worlds[m].minted && !Claimed(worlds[m], jti)
    requires actions[m].Redeem? && actions[m].code in worlds[m].issued && actions[m].validateAt < actions[m].code.expiry
    requires actions[m].code.subject == Subject(jti, worlds[m].minted[jti].audience)
    requires actions[m].presented == worlds[m].minted[jti].audience
    ensures |worlds[m + 1].claims| == |worlds[m].claims| + 1 && worlds[m + 1].claims[|worlds[m].claims|].jti == jti
  {
    RunKeepsInv(worlds, actions, m);
    assert Enabled(worlds[m], actions[m]) && worlds[m + 1] == Apply(worlds[m], actions[m]);
    FirstRedemptionClaims(worlds[m], actions[m], jti);
  }

  // ---------------------------------------------------------------- the edge is reached

  lemma SecondMarkPasses(jti: string, item: Item, marks: map<string, int>, at: int)
    requires at <= item.expiresAt && forall j | j in marks :: j == jti && marks[j] <= at
    ensures Mark(Store(map[jti := item], marks), jti, HANDOFF_TTL, at, at, at)
         == Ok(Store(map[jti := item], map[jti := at + HANDOFF_TTL]))
  {
    assert Live(map[jti := item], at) == map[jti := item];
    var swept := Standing(marks, at);
    assert swept[jti := at + HANDOFF_TTL] == map[jti := at + HANDOFF_TTL];
  }

  /** One minted pair, its marks and its claims. */
  function OnePair(clock: int, jti: string, m: Mint, code: Code, marks: map<string, int>, claims: seq<Claim>): World {
    World(clock, Store(map[jti := Item(m.tokens, m.expiresAt)], marks), map[jti := m], {code}, claims)
  }

  lemma RedeemOnePair(w: World, jti: string, m: Mint, code: Code, validateAt: int, at: int)
    requires jti != "" && '|' !in jti && m.audience != "" && code.subject == Subject(jti, m.audience)
    requires w == OnePair(w.clock, jti, m, code, w.store.redeemed, w.claims)
    requires validateAt < code.expiry && validateAt <= at && w.clock <= at <= m.expiresAt
    requires forall j | j in w.store.redeemed :: j == jti && w.store.redeemed[j] <= at
    ensures Enabled(w, Redeem(code, m.audience, validateAt, at, at, at))
    ensures Apply(w, Redeem(code, m.audience, validateAt, at, at, at))
         == OnePair(at, jti, m, code, map[jti := at + HANDOFF_TTL],
                    w.claims + [Claim(jti, m.audience, at, false, None)])
  {
    SubjectRoundTrip(jti, m.audience);
    SecondMarkPasses(jti, Item(m.tokens, m.expiresAt), w.store.redeemed, at);
  }

  lemma CollectOnePair(w: World, jti: string, m: Mint, code: Code, i: nat)
    requires w == OnePair(w.clock, jti, m, code, w.store.redeemed, w.claims) && w.clock <= m.expiresAt
    requires i < |w.claims| && !w.claims[i].done && w.claims[i].jti == jti
    ensures Enabled(w, Collect(i, w.clock))
    ensures Apply(w, Collect(i, w.clock))
         == w.(claims := w.claims[i := w.claims[i].(done := true, returned := Some(m.tokens))])
  {}

  lemma MintOnePair(w: World, jti: string, audience: ByteString, tokens: Tokens, t: int)
    requires jti != "" && '|' !in jti && audience != "" && w == World(t, Store(map[], map[]), map[], {}, [])
    ensures var a := MintCode(jti, audience, tokens, HANDOFF_TTL, t, t, t);
      Enabled(w, a) && Apply(w, a) == OnePair(t, jti, Mint(tokens, audience, t, t + HANDOFF_TTL),
        Code(Subject(jti, audience), WholeSeconds(t + HANDOFF_TTL)), map[], [])
  {
    FirstPut(jti, tokens, t);
    var m := Mint(tokens, audience, t, t + HANDOFF_TTL);
    assert w.minted[jti := m] == map[jti := m];
  }

  lemma FirstPut(jti: string, tokens: Tokens, t: int)
    ensures Put(Store(map[], map[]), jti, tokens, HANDOFF_TTL, t, t)
         == Ok(Store(map[jti := Item(tokens, t + HANDOFF_TTL)], map[]))
  {
    assert Live(map[], t) == map[] && Standing(map[], t) == map[];
  }

  lemma FiveSteps(w: seq<World>, a: seq<Action>)
    requires |w| == 6 && |a| == 5
    requires Leads(w[0], a[0], w[1]) && Leads(w[1], a[1], w[2]) && Leads(w[2], a[2], w[3])
    requires Leads(w[3], a[3], w[4]) && Leads(w[4], a[4], w[5])
    ensures Run(w, a)
  {}

  lemma FirstReturn(jti: string, m: Mint, code: Code, t: int, paid: Claim, w0: World, w1: World, w2: World, w3: World)
    requires jti != "" && '|' !in jti && m.audience != "" && m.putAt == t && m.expiresAt == t + HANDOFF_TTL
    requires code == Code(Subject(jti, m.audience), WholeSeconds(m.expiresAt))
    requires w0 == World(t, Store(map[], map[]), map[], {}, []) && w1 == OnePair(t, jti, m, code, map[], [])
    requires w2 == OnePair(t, jti, m, code, map[jti := t + HANDOFF_TTL], [Claim(jti, m.audience, t, false, None)])
    requires paid == Claim(jti, m.audience, t, true, Some(m.tokens)) && w3 == w2.(claims := [paid])
    ensures Leads(w0, MintCode(jti, m.audience, m.tokens, HANDOFF_TTL, t, t, t), w1)
    ensures Leads(w1, Redeem(code, m.audience, t, t, t, t), w2) && Leads(w2, Collect(0, t), w3)
  {
    MintOnePair(w0, jti, m.audience, m.tokens, t);
    RedeemOnePair(w1, jti, m, code, t, t);
    CollectOnePair(w2, jti, m, code, 0);
  }

  lemma SecondReturn(jti: string, m: Mint, code: Code, t: int, paid: Claim, w3: World, w4: World, w5: World)
    requires jti != "" && '|' !in jti && m.audience != "" && m.putAt == t && m.expiresAt == t + HANDOFF_TTL
    requires code == Code(Subject(jti, m.audience), WholeSeconds(m.expiresAt))
    requires w3 == OnePair(t, jti, m, code, map[jti := m.expiresAt], [paid])
    requires w4 == OnePair(m.expiresAt, jti, m, code, map[jti := m.expiresAt + HANDOFF_TTL],
                           [paid, Claim(jti, m.audience, m.expiresAt, false, None)])
    requires w5 == w4.(claims := [paid, Claim(jti, m.audience, m.expiresAt, true, Some(m.tokens))])
    ensures Leads(w3, Redeem(code, m.audience, t, m.expiresAt, m.expiresAt, m.expiresAt), w4)
    ensures Leads(w4, Collect(1, m.expiresAt), w5)
  {
    RedeemOnePair(w3, jti, m, code, t, m.expiresAt);
    CollectOnePair(w4, jti, m, code, 1);
  }

  /** Put and claimed at t, claimed again at t + TTL by a redemption that validated its code earlier: for every
      jti, audience, pair and t such a run returns the pair twice. */
  lemma InstantClaimReturnsTwice(jti: string, audience: ByteString, tokens: Tokens, t: int)
      returns (worlds: seq<World>, actions: seq<Action>)
    requires jti != "" && '|' !in jti && audience != ""
    ensures Run(worlds, actions) && Initial(worlds[0]) && |worlds| == 6
    ensures ReturnedTwice(worlds[5], 0, 1) && worlds[5].claims[0].jti == jti
    ensures worlds[5].claims[0].returned == Some(tokens)
  {
    var expiry := t + HANDOFF_TTL;
    var m, code := Mint(tokens, audience, t, expiry), Code(Subject(jti, audience), WholeSeconds(expiry));
    var paid, second := Claim(jti, audience, t, true, Some(tokens)), Claim(jti, audience, expiry, false, None);
    var w0 := World(t, Store(map[], map[]), map[], {}, []);
    var w1 := OnePair(t, jti, m, code, map[], []);
    var w2 := OnePair(t, jti, m, code, map[jti := expiry], [Claim(jti, audience, t, false, None)]);
    var w3 := OnePair(t, jti, m, code, map[jti := expiry], [paid]);
    var w4 := OnePair(expiry, jti, m, code, map[jti := expiry + HANDOFF_TTL], [paid, second]);
    var w5 := w4.(claims := [paid, second.(done := true, returned := Some(tokens))]);
    FirstReturn(jti, m, code, t, paid, w0, w1, w2, w3);
    SecondReturn(jti, m, code, t, paid, w3, w4, w5);
    actions := [MintCode(jti, audience, tokens, HANDOFF_TTL, t, t, t),
                Redeem(code, audience, t, t, t, t), Collect(0, t),
                Redeem(code, audience, t, expiry, expiry, expiry), Collect(1, expiry)];
    worlds := [w0, w1, w2, w3, w4, w5];
    FiveSteps(worlds, actions);
  }
}

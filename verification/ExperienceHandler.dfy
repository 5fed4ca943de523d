/** The experience service: three operations over one shared store, as steps of a run and as methods. */
module ExperienceHandler {
  import opened Options
  import opened ExperienceSpec
  import opened SpecStore
  import opened ContentHash
  import opened Resolution
  import opened Versions
  import opened Negotiation
  import opened NavCoherence

  datatype Call =
    | StoreSpec(def: Option<AppDefinition>)
    | ResolveSpec(app: string, role: string, formFactor: string)
    | ValidateSpec(def: Option<AppDefinition>)

  /** A call, the scope of its authenticated principal if there is one, and the clock's stamp. */
  datatype Request = Request(principal: Option<Scope>, call: Call, stamp: string)

  datatype Finding = Nav(problem: Problem) | Version(reason: Reason)

  datatype Response =
    | Unauthenticated
    | SpecRequired
    | IdRequired
    | Denied
    | Stored(id: string, contentHash: string, schemaVersion: string)
    | ResolvedSpec(spec: Spec)
    | Validated(valid: bool, findings: seq<Finding>)

  /** The entitlements service, the marshaller and the hash. */
  datatype Env = Env(entitlements: (Scope, string, string) -> Tuple, marshal: Marshal, hash: Hash)

  predicate HasSpec(def: Option<AppDefinition>) { def.Some? && def.value.spec.Some? }

  /** Authority overwrite: the principal's scope replaces whatever the body carried. */
  function Stamped(def: AppDefinition, scope: Scope): AppDefinition
    requires def.spec.Some?
  {
    def.(spec := Some(def.spec.value.(tenant := scope.tenant, org := scope.org)))
  }

  // ---------------------------------------------------------------- steps

  predicate Stores(req: Request) {
    req.principal.Some? && req.call.StoreSpec? && HasSpec(req.call.def) && req.call.def.value.id != ""
  }

  function After(defs: Defs, req: Request): Defs {
    if !Stores(req) then defs
    else
      var def := Stamped(req.call.def.value, req.principal.value);
      defs[StoreKey(req.principal.value, def.id) := def]
  }

  function Findings(problems: seq<Problem>): (r: seq<Finding>)
    ensures |r| == |problems| && forall i | 0 <= i < |r| :: r[i] == Nav(problems[i])
  {
    seq(|problems|, i requires 0 <= i < |problems| => Nav(problems[i]))
  }

  function FirstUngranted(referenced: seq<string>, granted: set<string>): (k: nat)
    ensures k <= |referenced| && (forall j: nat | j < k :: referenced[j] in granted)
    ensures k < |referenced| ==> referenced[k] !in granted
  {
    if referenced == [] || referenced[0] !in granted then 0 else 1 + FirstUngranted(referenced[1..], granted)
  }

  /** A spec negotiated at its own floor is blocked only by a surface that is not granted. */
  function VersionFindings(spec: Spec, granted: set<string>): seq<Finding> {
    var k := FirstUngranted(spec.referenced, granted);
    if Tolerant(spec.policy) || k == |spec.referenced| then []
    else [Version(UnknownSurface(spec.referenced[k], spec.policy))]
  }

  ghost function ResolveAnswer(env: Env, def: Option<AppDefinition>, scope: Scope, role: string, formFactor: string,
                               stamp: string): Response {
    var t := env.entitlements(scope, role, formFactor);
    if HasSpec(def) && InScope(def.value.spec.value, t)
    then ResolvedSpec(Resolved(def.value.spec.value, t, "", stamp, env.marshal, env.hash))
    else Denied
  }

  ghost function ValidateAnswer(env: Env, spec: Spec, scope: Scope): Response {
    var granted := env.entitlements(scope, "", "").granted;
    var findings := Findings(Problems(spec.nav, granted)) + VersionFindings(spec, granted);
    Validated(findings == [], findings)
  }

  ghost function Answer(env: Env, defs: Defs, req: Request): Response {
    if req.principal.None? then Unauthenticated
    else
      match req.call
      case StoreSpec(def) =>
        if !HasSpec(def) then SpecRequired
        else if def.value.id == "" then IdRequired
        else Stored(def.value.id, def.value.spec.value.contentHash, def.value.spec.value.schemaVersion)
      case ResolveSpec(app, role, formFactor) =>
        ResolveAnswer(env, Lookup(defs, req.principal.value, app), req.principal.value, role, formFactor, req.stamp)
      case ValidateSpec(def) =>
        if !HasSpec(def) then SpecRequired else ValidateAnswer(env, def.value.spec.value, req.principal.value)
  }

  // ---------------------------------------------------------------- runs

  function DefsAfter(reqs: seq<Request>): Defs {
    if reqs == [] then map[] else After(DefsAfter(reqs[..|reqs| - 1]), reqs[|reqs| - 1])
  }

  /** The calls of one scope, in order. */
  function CallsOf(reqs: seq<Request>, s: Scope): seq<Request> {
    if reqs == [] then []
    else
      var last := reqs[|reqs| - 1];
      CallsOf(reqs[..|reqs| - 1], s) + if last.principal == Some(s) then [last] else []
  }

  /** What a scope is answered in the course of a run. */
  ghost function AnswersTo(env: Env, reqs: seq<Request>, s: Scope): seq<Response> {
    if reqs == [] then []
    else
      var init, last := reqs[..|reqs| - 1], reqs[|reqs| - 1];
      AnswersTo(env, init, s) + if last.principal == Some(s) then [Answer(env, DefsAfter(init), last)] else []
  }

  ghost predicate NulFreeRun(reqs: seq<Request>) {
    forall r | r in reqs && r.principal.Some? :: NulFree(r.principal.value)
  }

  /** The last definition this scope stored under this id, with the scope stamped on: no keys involved. */
  function LastStored(reqs: seq<Request>, s: Scope, app: string): (d: Option<AppDefinition>)
    ensures d.Some? ==> d.value.spec.Some?
  {
    if reqs == [] then None
    else
      var last := reqs[|reqs| - 1];
      if Stores(last) && last.principal.value == s && last.call.def.value.id == app
      then Some(Stamped(last.call.def.value, s))
      else LastStored(reqs[..|reqs| - 1], s, app)
  }

  /** The store answers each scope with its own last definition. */
  lemma {:induction false} LookupIsLastStored(reqs: seq<Request>, s: Scope, app: string)
    requires NulFreeRun(reqs) && NulFree(s)
    ensures Lookup(DefsAfter(reqs), s, app) == LastStored(reqs, s, app)
  {
    if reqs != [] {
      var init, last := reqs[..|reqs| - 1], reqs[|reqs| - 1];
      assert forall r | r in init :: r in reqs;
      LookupIsLastStored(init, s, app);
      if Stores(last) {
        assert last in reqs;
        if StoreKey(last.principal.value, last.call.def.value.id) == StoreKey(s, app) {
          StoreKeyIsInjective(last.principal.value, last.call.def.value.id, s, app);
        }
      }
    }
  }

  lemma {:induction false} LastStoredIsOwn(reqs: seq<Request>, s: Scope, app: string)
    ensures LastStored(reqs, s, app) == LastStored(CallsOf(reqs, s), s, app)
  {
    if reqs != [] {
      var init, last := reqs[..|reqs| - 1], reqs[|reqs| - 1];
      LastStoredIsOwn(init, s, app);
      var calls := CallsOf(init, s);
      assert (calls + [last])[..|calls|] == calls && calls + [] == calls;
    }
  }

  lemma {:induction false} CallsOfIsPart(reqs: seq<Request>, s: Scope)
    ensures forall r | r in CallsOf(reqs, s) :: r in reqs && r.principal == Some(s)
  {
    if reqs != [] { CallsOfIsPart(reqs[..|reqs| - 1], s); }
  }

  lemma SameViewSameAnswer(env: Env, defs: Defs, others: Defs, req: Request)
    requires req.principal.Some?
    requires forall app :: Lookup(defs, req.principal.value, app) == Lookup(others, req.principal.value, app)
    ensures Answer(env, defs, req) == Answer(env, others, req)
  {}

  lemma SameView(reqs: seq<Request>, s: Scope)
    requires NulFreeRun(reqs) && NulFree(s)
    ensures forall app :: Lookup(DefsAfter(reqs), s, app) == Lookup(DefsAfter(CallsOf(reqs, s)), s, app)
  {
    CallsOfIsPart(reqs, s);
    forall app ensures Lookup(DefsAfter(reqs), s, app) == Lookup(DefsAfter(CallsOf(reqs, s)), s, app) {
      LookupIsLastStored(reqs, s, app);
      LookupIsLastStored(CallsOf(reqs, s), s, app);
      LastStoredIsOwn(reqs, s, app);
    }
  }

  /** A scope is answered in a run as if it were alone. */
  lemma {:induction false} AnsweredAsIfAlone(env: Env, reqs: seq<Request>, s: Scope)
    requires NulFreeRun(reqs) && NulFree(s)
    ensures AnswersTo(env, reqs, s) == AnswersTo(env, CallsOf(reqs, s), s)
  {
    if reqs != [] {
      var init, last := reqs[..|reqs| - 1], reqs[|reqs| - 1];
      assert forall r | r in init :: r in reqs;
      AnsweredAsIfAlone(env, init, s);
      var calls := CallsOf(init, s);
      if last.principal == Some(s) {
        SameView(init, s);
        SameViewSameAnswer(env, DefsAfter(init), DefsAfter(calls), last);
        assert (calls + [last])[..|calls|] == calls && (calls + [last])[|calls|] == last;
      } else {
        assert calls + [] == calls;
      }
    }
  }

  /** Non-interference: two runs that agree on one scope's calls and stamps answer it alike, whatever others do. */
  lemma NonInterference(env: Env, run: seq<Request>, other: seq<Request>, s: Scope)
    requires NulFreeRun(run) && NulFreeRun(other) && NulFree(s)
    requires CallsOf(run, s) == CallsOf(other, s)
    ensures AnswersTo(env, run, s) == AnswersTo(env, other, s)
  {
    AnsweredAsIfAlone(env, run, s);
    AnsweredAsIfAlone(env, other, s);
  }

  /** The NUL-free condition is needed: with a NUL in a tenant, two scopes share a row. */
  lemma NulFreeIsNeeded(x: string, y: string, org: string, def: AppDefinition)
    requires def.spec.Some? && def.id != ""
    ensures var stored := Request(Some(Scope(x + [NUL] + y, org)), StoreSpec(Some(def)), "");
      && Lookup(DefsAfter([stored]), Scope(x, y), org + [NUL] + def.id).Some?
      && Lookup(DefsAfter([]), Scope(x, y), org + [NUL] + def.id).None?
  {
    var stored := Request(Some(Scope(x + [NUL] + y, org)), StoreSpec(Some(def)), "");
    NulInTenantCollides(x, y, org, def.id);
    assert [stored][..0] == [];
  }

  lemma {:induction false} LastStoredInScope(reqs: seq<Request>, s: Scope, app: string)
    ensures var d := LastStored(reqs, s, app);
      d.Some? ==>
        && d.value.spec.Some? && d.value.id == app
        && d.value.spec.value.tenant == s.tenant && d.value.spec.value.org == s.org
  {
    if reqs != [] { LastStoredInScope(reqs[..|reqs| - 1], s, app); }
  }

  /** In every run, resolving succeeds exactly when the scope itself stored the app and its tuple is for its own
      scope, and gives its own last definition, filtered. A miss and a divergence are the same answer. */
  lemma ResolveAnswersFromOwnSpec(env: Env, reqs: seq<Request>, s: Scope, app: string, role: string,
                                  formFactor: string, stamp: string)
    requires NulFreeRun(reqs) && NulFree(s)
    ensures var r := Answer(env, DefsAfter(reqs), Request(Some(s), ResolveSpec(app, role, formFactor), stamp));
      var t := env.entitlements(s, role, formFactor);
      var own := LastStored(reqs, s, app);
      && (r == Denied <==> own.None? || t.tenant != s.tenant || t.org != s.org)
      && (r != Denied ==>
            && ChangedOnly(own.value.spec.value, r.spec, t, "", stamp)
            && r == ResolvedSpec(Resolved(own.value.spec.value, t, "", stamp, env.marshal, env.hash))
            && r.spec.tenant == s.tenant && r.spec.org == s.org && forall x | x in r.spec.referenced :: x in t.granted)
  {
    LookupIsLastStored(reqs, s, app);
    LastStoredInScope(reqs, s, app);
    var own, t := LastStored(reqs, s, app), env.entitlements(s, role, formFactor);
    if own.Some? {
      ResolvedIsSound(own.value.spec.value, t, "", stamp, env.marshal, env.hash);
      ResolvedKeepsTheRest(own.value.spec.value, t, "", stamp, env.marshal, env.hash);
    }
  }

  /** What storing does, request by request: refused without a principal, a spec or an id, changing nothing; else the
      definition goes under the principal's scope with only the spec's tenant and org replaced by it, and the answer
      carries its id, the body's content hash and the body's schema version. */
  lemma StoreEffect(env: Env, defs: Defs, principal: Option<Scope>, body: Option<AppDefinition>, stamp: string)
    ensures var req := Request(principal, StoreSpec(body), stamp);
      if principal.None? then Answer(env, defs, req) == Unauthenticated && After(defs, req) == defs
      else if body.None? || body.value.spec.None? then
        Answer(env, defs, req) == SpecRequired && After(defs, req) == defs
      else if body.value.id == "" then Answer(env, defs, req) == IdRequired && After(defs, req) == defs
      else
        var spec, scope := body.value.spec.value, principal.value;
        && Answer(env, defs, req) == Stored(body.value.id, spec.contentHash, spec.schemaVersion)
        && After(defs, req) == defs[StoreKey(scope, body.value.id) :=
             AppDefinition(body.value.id, Some(spec.(tenant := scope.tenant, org := scope.org)), body.value.rest)]
  {}

  /** Reading requests change nothing, and without a principal they are refused. */
  lemma ReadEffect(env: Env, defs: Defs, req: Request)
    requires !req.call.StoreSpec?
    ensures After(defs, req) == defs
    ensures Answer(env, defs, req) == Unauthenticated <==> req.principal.None?
    ensures Answer(env, defs, req) == SpecRequired <==>
      req.principal.Some? && req.call.ValidateSpec? && (req.call.def.None? || req.call.def.value.spec.None?)
  {}

  /** A validation lists the graph's problems first, in their order, and then at most one version problem, about the
      first referenced surface that is not granted. */
  lemma ValidationLists(env: Env, defs: Defs, def: AppDefinition, s: Scope, stamp: string)
    requires def.spec.Some?
    ensures var r := Answer(env, defs, Request(Some(s), ValidateSpec(Some(def)), stamp));
      var spec := def.spec.value; var granted := env.entitlements(s, "", "").granted;
      var problems := Problems(spec.nav, granted);
      && r.Validated? && |problems| <= |r.findings| <= |problems| + 1
      && (forall i | 0 <= i < |problems| :: r.findings[i] == Nav(problems[i]))
      && (|r.findings| > |problems| ==> exists k: nat ::
            && FirstUnknown(spec.referenced, granted, k)
            && r.findings[|problems|] == Version(UnknownSurface(spec.referenced[k], spec.policy)))
  {
    var spec, granted := def.spec.value, env.entitlements(s, "", "").granted;
    var k := FirstUngranted(spec.referenced, granted);
    if k < |spec.referenced| { assert FirstUnknown(spec.referenced, granted, k); }
  }

  /** A spec is reported valid exactly when its graph is coherent and no ungranted surface meets a blocking policy. */
  lemma ValidIff(env: Env, defs: Defs, def: AppDefinition, s: Scope, stamp: string)
    requires def.spec.Some?
    ensures var r := Answer(env, defs, Request(Some(s), ValidateSpec(Some(def)), stamp));
      var granted := env.entitlements(s, "", "").granted;
      r.Validated? && (r.valid <==>
        && Problems(def.spec.value.nav, granted) == []
        && (def.spec.value.policy !in {Ignore, RenderDegraded} ==>
              forall x | x in def.spec.value.referenced :: x in granted))
  {
    var spec, granted := def.spec.value, env.entitlements(s, "", "").granted;
    var k := FirstUngranted(spec.referenced, granted);
    if k < |spec.referenced| { assert spec.referenced[k] in spec.referenced; }
    var nav, version := Findings(Problems(spec.nav, granted)), VersionFindings(spec, granted);
    assert nav + version == [] <==> |nav| == 0 && |version| == 0;
  }

  // ---------------------------------------------------------------- the handler

  method CollectKeys(granted: set<string>) returns (known: seq<string>)
    ensures (set id | id in known) == granted
  {
    known := [];
    var rest := granted;
    while rest != {}
      invariant rest <= granted && forall id :: id in known <==> id in granted - rest
      decreases |rest|
    {
      var id :| id in rest;
      known := known + [id];
      rest := rest - {id};
    }
  }

  /** At the spec's own floor, negotiation against the granted surfaces finds exactly VersionFindings. */
  lemma FloorIsMet(spec: Spec, granted: set<string>, r: Outcome)
    requires Negotiated(spec, granted, spec.minBinaryVersion, r)
    ensures VersionFindings(spec, granted) == if r.blocked then [Version(r.reason)] else []
  {
    ExactlyOne(spec.minBinaryVersion, spec.minBinaryVersion);
    var k := FirstUngranted(spec.referenced, granted);
    if k < |spec.referenced| { assert spec.referenced[k] in spec.referenced; }
    if r.blocked {
      var j: nat :| StoppedAt(spec, granted, j, r);
      assert j == k;
    }
  }

  class Handler {
    const env: Env
    const store: MemorySpecStore

    constructor (env: Env)
      ensures this.env == env && fresh(store) && store.defs == map[]
    {
      this.env := env;
      store := new MemorySpecStore();
    }

    method HandleStore(principal: Option<Scope>, body: Option<AppDefinition>, stamp: string) returns (r: Response)
      modifies store
      ensures store.defs == After(old(store.defs), Request(principal, StoreSpec(body), stamp))
      ensures r == Answer(env, old(store.defs), Request(principal, StoreSpec(body), stamp))
    {
      if principal.None? { return Unauthenticated; }
      if body.None? || body.value.spec.None? { return SpecRequired; }
      if body.value.id == "" { return IdRequired; }
      var def := Stamped(body.value, principal.value);
      store.Put(principal.value, def);
      r := Stored(def.id, def.spec.value.contentHash, def.spec.value.schemaVersion);
    }

    method HandleResolve(principal: Option<Scope>, app: string, role: string, formFactor: string, stamp: string)
        returns (r: Response)
      ensures r == Answer(env, store.defs, Request(principal, ResolveSpec(app, role, formFactor), stamp))
    {
      if principal.None? { return Unauthenticated; }
      var def := store.Get(principal.value, app);
      if def.None? { return Denied; }
      var t := env.entitlements(principal.value, role, formFactor);
      var resolved := Resolve(def.value.spec, t, "", stamp, env.marshal, env.hash);
      if resolved.None? { return Denied; }
      r := ResolvedSpec(resolved.value);
    }

    /** Never stops at the first problem. */
    method HandleValidate(principal: Option<Scope>, body: Option<AppDefinition>, stamp: string) returns (r: Response)
      ensures r == Answer(env, store.defs, Request(principal, ValidateSpec(body), stamp))
    {
      if principal.None? { return Unauthenticated; }
      if body.None? || body.value.spec.None? { return SpecRequired; }
      var spec := body.value.spec.value.(tenant := principal.value.tenant, org := principal.value.org);
      var t := env.entitlements(principal.value, "", "");
      var nav := ValidateNavGraph(spec.nav, t.granted);
      var findings: seq<Finding> := [];
      for i := 0 to |nav|
        invariant findings == Findings(nav[..i])
      {
        findings := findings + [Nav(nav[i])];
      }
      assert nav[..|nav|] == nav;
      var manifest := CollectKeys(t.granted);
      var outcome := Negotiate(spec, manifest, spec.minBinaryVersion);
      FloorIsMet(spec, t.granted, outcome);
      if outcome.blocked { findings := findings + [Version(outcome.reason)]; }
      r := Validated(|findings| == 0, findings);
    }
  }
}

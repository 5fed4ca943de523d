/** Version negotiation between a resolved spec and the binary that must render it. */
module Negotiation {
  import opened ExperienceSpec
  import opened Versions

  datatype Reason =
    | NotBlocked
    | BelowFloor(binary: string, floor: string)
    | UnknownSurface(surface: string, policy: Policy)

  datatype Outcome = Outcome(
    rendered: seq<string>,
    dropped: seq<string>,
    degraded: seq<string>,
    blocked: bool,
    reason: Reason,
    tenant: string,
    org: string)

  predicate Tolerant(p: Policy) { p == Ignore || p == RenderDegraded }

  ghost predicate FloorUnmet(spec: Spec, binary: string) {
    spec.minBinaryVersion != "" && Precedes(binary, spec.minBinaryVersion)
  }

  /** Surface k is the first referenced one the binary does not know. */
  predicate FirstUnknown(referenced: seq<string>, known: set<string>, k: nat) {
    k < |referenced| && referenced[k] !in known && forall j: nat | j < k :: referenced[j] in known
  }

  /** Negotiation stops at surface k. */
  ghost predicate StoppedAt(spec: Spec, known: set<string>, k: nat, r: Outcome) {
    && FirstUnknown(spec.referenced, known, k)
    && r == Outcome(spec.referenced[..k], [], [], true, UnknownSurface(spec.referenced[k], spec.policy),
                    spec.tenant, spec.org)
  }

  /** The outcome once the floor is met. */
  ghost predicate SurfacesNegotiated(spec: Spec, known: set<string>, r: Outcome) {
    if !Tolerant(spec.policy) && exists x | x in spec.referenced :: x !in known
    then exists k: nat :: StoppedAt(spec, known, k, r)
    else
      var unknown := Select(spec.referenced, known, false);
      r == Outcome(Select(spec.referenced, known, true),
                   if spec.policy == Ignore then unknown else [],
                   if spec.policy == RenderDegraded then unknown else [],
                   false, NotBlocked, spec.tenant, spec.org)
  }

  ghost predicate Negotiated(spec: Spec, known: set<string>, binary: string, r: Outcome) {
    if FloorUnmet(spec, binary) then
      r == Outcome([], [], [], true, BelowFloor(binary, spec.minBinaryVersion), spec.tenant, spec.org)
    else SurfacesNegotiated(spec, known, r)
  }

  method KnownSet(ids: seq<string>) returns (known: set<string>)
    ensures known == set id | id in ids
  {
    known := {};
    for i := 0 to |ids|
      invariant known == set id | id in ids[..i]
    {
      known := known + {ids[i]};
    }
    assert ids[..|ids|] == ids;
  }

  method Negotiate(spec: Spec, manifest: seq<string>, binary: string) returns (r: Outcome)
    ensures Negotiated(spec, (set id | id in manifest), binary, r)
  {
    r := Outcome([], [], [], false, NotBlocked, spec.tenant, spec.org);
    var floor := spec.minBinaryVersion;
    if floor != "" {
      var c := CompareVersions(binary, floor);
      if c < 0 { return r.(blocked := true, reason := BelowFloor(binary, floor)); }
    }
    var known := KnownSet(manifest);
    r := NegotiateSurfaces(spec, known);
  }

  method NegotiateSurfaces(spec: Spec, known: set<string>) returns (r: Outcome)
    ensures SurfacesNegotiated(spec, known, r)
  {
    var rendered, dropped, degraded: seq<string> := [], [], [];
    for i := 0 to |spec.referenced|
      invariant rendered == Select(spec.referenced[..i], known, true)
      invariant dropped == if spec.policy == Ignore then Select(spec.referenced[..i], known, false) else []
      invariant degraded == if spec.policy == RenderDegraded then Select(spec.referenced[..i], known, false) else []
      invariant !Tolerant(spec.policy) ==> forall j: nat | j < i :: spec.referenced[j] in known
    {
      var id := spec.referenced[i];
      SelectSnoc(spec.referenced, i, known, true);
      SelectSnoc(spec.referenced, i, known, false);
      if id in known {
        rendered := rendered + [id];
      } else if spec.policy == Ignore {
        dropped := dropped + [id];
      } else if spec.policy == RenderDegraded {
        degraded := degraded + [id];
      } else {
        r := Outcome(rendered, dropped, degraded, true, UnknownSurface(id, spec.policy), spec.tenant, spec.org);
        StopsHere(spec, known, i, r);
        return;
      }
    }
    assert spec.referenced[..|spec.referenced|] == spec.referenced;
    r := Outcome(rendered, dropped, degraded, false, NotBlocked, spec.tenant, spec.org);
    GoesThrough(spec, known, r);
  }

  lemma StopsHere(spec: Spec, known: set<string>, i: nat, r: Outcome)
    requires !Tolerant(spec.policy) && FirstUnknown(spec.referenced, known, i)
    requires r == Outcome(Select(spec.referenced[..i], known, true), [], [], true,
                          UnknownSurface(spec.referenced[i], spec.policy), spec.tenant, spec.org)
    ensures SurfacesNegotiated(spec, known, r)
  {
    SelectAll(spec.referenced[..i], known);
    assert StoppedAt(spec, known, i, r);
    assert spec.referenced[i] in spec.referenced;
  }

  lemma GoesThrough(spec: Spec, known: set<string>, r: Outcome)
    requires !Tolerant(spec.policy) ==> forall j: nat | j < |spec.referenced| :: spec.referenced[j] in known
    requires var unknown := Select(spec.referenced, known, false);
      r == Outcome(Select(spec.referenced, known, true),
                   if spec.policy == Ignore then unknown else [],
                   if spec.policy == RenderDegraded then unknown else [],
                   false, NotBlocked, spec.tenant, spec.org)
    ensures SurfacesNegotiated(spec, known, r)
  {}

  /** Blocked exactly when the floor is unmet, or a surface is unknown under a policy that does not tolerate it. */
  lemma BlockedIff(spec: Spec, known: set<string>, binary: string, r: Outcome)
    requires Negotiated(spec, known, binary, r)
    ensures r.blocked <==>
      || (spec.minBinaryVersion != "" && Precedes(binary, spec.minBinaryVersion))
      || (spec.policy != Ignore && spec.policy != RenderDegraded && exists x | x in spec.referenced :: x !in known)
    ensures r.tenant == spec.tenant && r.org == spec.org
  {}

  /** Why it is blocked, and what was rendered by then: below the floor nothing, with both versions named; else all
      surfaces before the first unknown one, which is named with the policy. */
  lemma ReasonIs(spec: Spec, known: set<string>, binary: string, r: Outcome)
    requires Negotiated(spec, known, binary, r)
    ensures !r.blocked ==> r.reason == NotBlocked
    ensures spec.minBinaryVersion != "" && Precedes(binary, spec.minBinaryVersion) ==>
      r.reason == BelowFloor(binary, spec.minBinaryVersion) && r.rendered == r.dropped == r.degraded == []
    ensures r.blocked && !(spec.minBinaryVersion != "" && Precedes(binary, spec.minBinaryVersion)) ==>
      && r.reason.UnknownSurface? && r.reason.policy == spec.policy && r.dropped == r.degraded == []
      && |r.rendered| < |spec.referenced| && r.rendered == spec.referenced[..|r.rendered|]
      && r.reason.surface == spec.referenced[|r.rendered|] && r.reason.surface !in known
      && forall x | x in r.rendered :: x in known
  {
    if r.blocked && !FloorUnmet(spec, binary) {
      var k: nat :| StoppedAt(spec, known, k, r);
    }
  }

  /** Unknown surfaces are dropped under IGNORE, degraded under RENDER_DEGRADED, and block under every other policy. */
  lemma PolicyDecides(spec: Spec, known: set<string>, binary: string, r: Outcome)
    requires Negotiated(spec, known, binary, r) && !r.blocked
    ensures spec.policy != Ignore ==> r.dropped == []
    ensures spec.policy != RenderDegraded ==> r.degraded == []
    ensures spec.policy != Ignore && spec.policy != RenderDegraded ==> r.rendered == spec.referenced
  {
    if !Tolerant(spec.policy) { SelectAll(spec.referenced, known); }
  }

  /** Unblocked results split the referenced list, in order, into what the binary knows and what it does not. */
  lemma UnblockedSplits(spec: Spec, known: set<string>, binary: string, r: Outcome)
    requires Negotiated(spec, known, binary, r) && !r.blocked
    ensures MergeOf(spec.referenced, r.rendered, r.dropped + r.degraded)
    ensures r.dropped == [] || r.degraded == []
    ensures (forall x | x in r.rendered :: x in known) && (forall x | x in r.dropped + r.degraded :: x !in known)
  {
    SelectSplits(spec.referenced, known);
    assert [] + r.degraded == r.degraded && r.dropped + [] == r.dropped;
    if !Tolerant(spec.policy) { SelectAll(spec.referenced, known); }
  }

  /** A newer binary or a larger manifest never turns an unblocked result into a blocked one, and never loses a
      rendered surface: the old list is what the old manifest selects from the new one. */
  lemma Monotone(spec: Spec, known: set<string>, more: set<string>, binary: string, newer: string, r: Outcome,
                 s: Outcome)
    requires Negotiated(spec, known, binary, r) && Negotiated(spec, more, newer, s)
    requires known <= more
    ensures AtMost(binary, newer) && !r.blocked ==> !s.blocked && r.rendered == Select(s.rendered, known, true)
  {
    if AtMost(binary, newer) && !r.blocked {
      if FloorUnmet(spec, newer) { Transitive(binary, newer, spec.minBinaryVersion); }
      SelectTwice(spec.referenced, known, more);
    }
  }

  /** The outcome is determined. */
  lemma Deterministic(spec: Spec, known: set<string>, binary: string, r: Outcome, s: Outcome)
    requires Negotiated(spec, known, binary, r) && Negotiated(spec, known, binary, s)
    ensures r == s
  {
    if r.blocked && !FloorUnmet(spec, binary) {
      var j: nat :| StoppedAt(spec, known, j, r);
      var k: nat :| StoppedAt(spec, known, k, s);
      assert j == k;
    }
  }
}

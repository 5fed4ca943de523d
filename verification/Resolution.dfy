/** The server-side filter: a spec requests surfaces, the principal's tuple grants them. */
module Resolution {
  import opened Options
  import opened ExperienceSpec
  import opened ContentHash
  import opened Negotiation

  const UPSELL := "This feature is not included in your current plan."
  const RESOLVER := "experience-resolver/140-08"

  function Lock(xs: seq<string>): (r: seq<LockedSurface>)
    ensures |r| == |xs| && forall i | 0 <= i < |xs| :: r[i] == LockedSurface(xs[i], UPSELL)
  {
    seq(|xs|, i requires 0 <= i < |xs| => LockedSurface(xs[i], UPSELL))
  }

  /** Same tenant and org; anything else is denied, whether or not such a spec exists elsewhere. */
  predicate InScope(spec: Spec, t: Tuple) { t.tenant == spec.tenant && t.org == spec.org }

  /** The resolved spec before its hash is stamped. */
  ghost function Filtered(spec: Spec, t: Tuple, version: string, resolvedAt: string): Spec {
    spec.(
      referenced := Select(spec.referenced, t.granted, true),
      locked := Lock(Select(spec.referenced, t.granted, false)),
      provenance := Some(Provenance(t.tenant, t.org, resolvedAt, if version == "" then RESOLVER else version)))
  }

  ghost function Resolved(spec: Spec, t: Tuple, version: string, resolvedAt: string, marshal: Marshal,
                          hash: Hash): Spec {
    var filtered := Filtered(spec, t, version, resolvedAt);
    filtered.(contentHash := HashOf(filtered, t, marshal, hash))
  }

  /** Only the surfaces, the locks, the provenance and the hash of a spec are replaced. */
  ghost predicate ChangedOnly(spec: Spec, r: Spec, t: Tuple, version: string, resolvedAt: string) {
    r == Spec(spec.tenant, spec.org, spec.schemaVersion, spec.contractVersion, spec.minBinaryVersion, spec.policy,
              r.referenced, spec.nav, r.locked,
              Some(Provenance(t.tenant, t.org, resolvedAt,
                              if version == "" then "experience-resolver/140-08" else version)),
              r.contentHash, spec.rest)
  }

  method Resolve(spec: Option<Spec>, t: Tuple, version: string, resolvedAt: string, marshal: Marshal, hash: Hash)
      returns (r: Option<Spec>)
    ensures r.Some? <==> spec.Some? && t.tenant == spec.value.tenant && t.org == spec.value.org
    ensures r.Some? ==> ChangedOnly(spec.value, r.value, t, version, resolvedAt)
    ensures r.Some? ==> r.value == Resolved(spec.value, t, version, resolvedAt, marshal, hash)
  {
    if spec.None? { return None; }
    if t.tenant != spec.value.tenant || t.org != spec.value.org { return None; }
    var resolved := spec.value;
    var granted: seq<string>, locked: seq<LockedSurface> := [], [];
    for i := 0 to |resolved.referenced|
      invariant granted == Select(resolved.referenced[..i], t.granted, true)
      invariant locked == Lock(Select(resolved.referenced[..i], t.granted, false))
    {
      var surface := resolved.referenced[i];
      SelectSnoc(resolved.referenced, i, t.granted, true);
      SelectSnoc(resolved.referenced, i, t.granted, false);
      if surface in t.granted {
        granted := granted + [surface];
      } else {
        locked := locked + [LockedSurface(surface, UPSELL)];
      }
    }
    assert resolved.referenced[..|resolved.referenced|] == resolved.referenced;
    var tag := if version == "" then RESOLVER else version;
    resolved := resolved.(
      referenced := granted, locked := locked, provenance := Some(Provenance(t.tenant, t.org, resolvedAt, tag)));
    var contentHash := ComputeHash(resolved, t, marshal, hash);
    r := Some(resolved.(contentHash := contentHash));
  }

  /** Every referenced surface is either kept or locked, in order; nothing ungranted is kept, nothing unrequested
      appears, and the stamped hash is what hashing the stamped spec gives. */
  lemma ResolvedIsSound(spec: Spec, t: Tuple, version: string, resolvedAt: string, marshal: Marshal, hash: Hash)
    ensures var r := Resolved(spec, t, version, resolvedAt, marshal, hash);
      && (forall x | x in r.referenced :: x in t.granted && x in spec.referenced)
      && r.contentHash == HashOf(r, t, marshal, hash)
      && r.tenant == spec.tenant && r.org == spec.org
    ensures var r := Resolved(spec, t, version, resolvedAt, marshal, hash);
      exists kept, dropped :: r.referenced == kept && r.locked == Lock(dropped)
        && MergeOf(spec.referenced, kept, dropped) && forall x | x in dropped :: x !in t.granted
  {
    SelectSplits(spec.referenced, t.granted);
    var r := Resolved(spec, t, version, resolvedAt, marshal, hash);
    assert Unhashed(r) == Unhashed(Filtered(spec, t, version, resolvedAt));
    assert r.locked == Lock(Select(spec.referenced, t.granted, false));
  }

  /** A locked surface carries the upsell text. */
  lemma LockText(xs: seq<string>, i: nat)
    requires i < |xs|
    ensures Lock(xs)[i] == LockedSurface(xs[i], "This feature is not included in your current plan.")
  {}

  /** Resolution leaves everything but surfaces, locks, provenance and hash as it was stored; in particular a resolved
      spec has the floor of the stored one, so it blocks exactly the binaries that one blocks. */
  lemma ResolvedKeepsTheRest(spec: Spec, t: Tuple, version: string, resolvedAt: string, marshal: Marshal, hash: Hash)
    ensures ChangedOnly(spec, Resolved(spec, t, version, resolvedAt, marshal, hash), t, version, resolvedAt)
    ensures forall binary ::
      FloorUnmet(Resolved(spec, t, version, resolvedAt, marshal, hash), binary) <==> FloorUnmet(spec, binary)
    ensures forall known, binary, before, after
      | Negotiated(spec, known, binary, before)
        && Negotiated(Resolved(spec, t, version, resolvedAt, marshal, hash), known, binary, after) ::
      after.reason.BelowFloor? <==> before.reason.BelowFloor?
  {}

  /** The hash does not collide on these two preimages, nor the marshaller on these two specs. */
  ghost predicate Separated(x: Spec, t: Tuple, y: Spec, u: Tuple, marshal: Marshal, hash: Hash) {
    && (hash(Preimage(x, t, marshal)) == hash(Preimage(y, u, marshal)) ==>
          Preimage(x, t, marshal) == Preimage(y, u, marshal))
    && (marshal(Unhashed(x)) == marshal(Unhashed(y)) ==> Unhashed(x) == Unhashed(y))
  }

  /** Two resolutions with one content hash are the same resolution: same tuple, same spec. */
  lemma HashIdentifiesResolution(a: Spec, t: Tuple, v: string, at: string, b: Spec, u: Tuple, w: string, bt: string,
                                 marshal: Marshal, hash: Hash)
    requires Separated(Filtered(a, t, v, at), t, Filtered(b, u, w, bt), u, marshal, hash)
    requires |marshal(Unhashed(Filtered(a, t, v, at)))| < TWO32 && |marshal(Unhashed(Filtered(b, u, w, bt)))| < TWO32
    requires |TupleBytes(t)| < TWO32 && |TupleBytes(u)| < TWO32
    ensures Resolved(a, t, v, at, marshal, hash).contentHash == Resolved(b, u, w, bt, marshal, hash).contentHash
      <==> t == u && Resolved(a, t, v, at, marshal, hash) == Resolved(b, u, w, bt, marshal, hash)
  {
    var x, y := Filtered(a, t, v, at), Filtered(b, u, w, bt);
    if HashOf(x, t, marshal, hash) == HashOf(y, u, marshal, hash) {
      CacheKeyNamesOneSpec(x, t, y, u, marshal, hash);
      assert x.(contentHash := HashOf(x, t, marshal, hash)) == Unhashed(x).(contentHash := HashOf(x, t, marshal, hash));
      assert y.(contentHash := HashOf(y, u, marshal, hash)) == Unhashed(y).(contentHash := HashOf(y, u, marshal, hash));
    }
  }
}

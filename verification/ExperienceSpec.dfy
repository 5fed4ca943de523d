/** The messages of the experience contract, as far as the server looks into them. */
module ExperienceSpec {
  import opened Options

  datatype Policy = Unspecified | Ignore | RenderDegraded | BlockUpgrade | OtherPolicy(number: int)

  datatype NavSlot = NavSlot(surface: string, primary: bool)
  datatype NavEdge = NavEdge(from: string, to: string)
  datatype NavGraph = NavGraph(landing: string, slots: seq<NavSlot>, edges: seq<NavEdge>)

  datatype LockedSurface = LockedSurface(surface: string, reason: string)
  datatype Provenance = Provenance(tenant: string, org: string, resolvedAt: string, resolverVersion: string)

  /** `rest` stands for the fields that no operation here reads or writes. */
  datatype Spec = Spec(
    tenant: string,
    org: string,
    schemaVersion: string,
    contractVersion: string,
    minBinaryVersion: string,
    policy: Policy,
    referenced: seq<string>,
    nav: Option<NavGraph>,
    locked: seq<LockedSurface>,
    provenance: Option<Provenance>,
    contentHash: string,
    rest: string)

  datatype AppDefinition = AppDefinition(id: string, spec: Option<Spec>, rest: string)

  /** What the entitlements service answers for a principal, a role and a form factor. */
  datatype Tuple = Tuple(
    role: string,
    entitlement: string,
    formFactor: string,
    tenant: string,
    org: string,
    granted: set<string>)

  datatype Scope = Scope(tenant: string, org: string)

  // ---------------------------------------------------------------- splitting a list of surfaces

  /** The items of xs that are (or are not) among the given ones, in order. */
  function Select(xs: seq<string>, among: set<string>, inside: bool): seq<string> {
    if xs == [] then []
    else
      var last := xs[|xs| - 1];
      Select(xs[..|xs| - 1], among, inside) + if (last in among) == inside then [last] else []
  }

  /** xs is an order-preserving merge of ys and zs: nothing lost, nothing duplicated, no pair swapped. */
  predicate MergeOf(xs: seq<string>, ys: seq<string>, zs: seq<string>) {
    if xs == [] then ys == [] && zs == []
    else
      var n := |xs| - 1;
      || (ys != [] && ys[|ys| - 1] == xs[n] && MergeOf(xs[..n], ys[..|ys| - 1], zs))
      || (zs != [] && zs[|zs| - 1] == xs[n] && MergeOf(xs[..n], ys, zs[..|zs| - 1]))
  }

  lemma SelectSnoc(xs: seq<string>, i: nat, among: set<string>, inside: bool)
    requires i < |xs|
    ensures Select(xs[..i + 1], among, inside)
         == Select(xs[..i], among, inside) + if (xs[i] in among) == inside then [xs[i]] else []
  {
    assert xs[..i + 1][..i] == xs[..i];
  }

  lemma {:induction false} SelectSplits(xs: seq<string>, among: set<string>)
    ensures MergeOf(xs, Select(xs, among, true), Select(xs, among, false))
    ensures forall x | x in Select(xs, among, true) :: x in among && x in xs
    ensures forall x | x in Select(xs, among, false) :: x !in among && x in xs
  {
    if xs != [] {
      var n := |xs| - 1;
      SelectSplits(xs[..n], among);
      var ys, zs := Select(xs[..n], among, true), Select(xs[..n], among, false);
      assert (ys + [xs[n]])[..|ys|] == ys && (zs + [xs[n]])[..|zs|] == zs;
      assert ys + [] == ys && zs + [] == zs;
    }
  }

  /** Selecting by the smaller set can be done after selecting by the larger. */
  lemma {:induction false} SelectTwice(xs: seq<string>, small: set<string>, large: set<string>)
    requires small <= large
    ensures Select(Select(xs, large, true), small, true) == Select(xs, small, true)
  {
    if xs != [] {
      var n := |xs| - 1;
      SelectTwice(xs[..n], small, large);
      var kept := Select(xs[..n], large, true);
      assert (kept + [xs[n]])[..|kept|] == kept && kept + [] == kept;
    }
  }

  lemma {:induction false} SelectAll(xs: seq<string>, among: set<string>)
    requires forall x | x in xs :: x in among
    ensures Select(xs, among, true) == xs && Select(xs, among, false) == []
  {
    if xs != [] {
      SelectAll(xs[..|xs| - 1], among);
    }
  }
}

/** Flag evaluation: the most specific matching override, the rollout, the default. */
module FeatureFlags {
  import opened Options

  datatype Eval = Eval(subject: string, household: string, tenant: string, environment: string)

  /** A value of dynamic type, as far as evaluation looks at it. */
  datatype Value = BoolValue(on: bool) | NameValue(name: string) | OtherValue(tag: int)

  datatype Axes = Axes(tenant: string, household: string, subject: string, environment: string)
  datatype Override = Override(axes: Axes, value: Value)
  datatype Rollout = Rollout(percentage: int, salt: string)

  datatype Flag = Flag(
    enabled: bool,
    variants: Option<map<string, Value>>,
    default: string,
    rollout: Option<Rollout>,
    overrides: seq<Override>)

  /** The bucketing of a subject: subject, salt and percentage decide. */
  type Bucketing = (string, string, int) -> bool

  predicate AxisMatches(pinned: string, actual: string) { pinned == "" || pinned == actual }

  predicate Matches(o: Override, e: Eval) {
    && AxisMatches(o.axes.tenant, e.tenant)
    && AxisMatches(o.axes.household, e.household)
    && AxisMatches(o.axes.subject, e.subject)
    && AxisMatches(o.axes.environment, e.environment)
  }

  function Specificity(o: Override): nat {
    (if o.axes.subject != "" then 8 else 0) + (if o.axes.household != "" then 4 else 0)
    + (if o.axes.tenant != "" then 2 else 0) + (if o.axes.environment != "" then 1 else 0)
  }

  /** Override i applies, and every other one that applies is less specific, or as specific and declared later. */
  ghost predicate IsBest(overrides: seq<Override>, e: Eval, i: nat) {
    && i < |overrides| && Matches(overrides[i], e)
    && forall j: nat | j < |overrides| && Matches(overrides[j], e) ::
         Specificity(overrides[j]) < Specificity(overrides[i])
         || (Specificity(overrides[j]) == Specificity(overrides[i]) && i <= j)
  }

  ghost predicate NoneMatches(overrides: seq<Override>, e: Eval) {
    forall j: nat | j < |overrides| :: !Matches(overrides[j], e)
  }

  lemma BestIsUnique(overrides: seq<Override>, e: Eval, i: nat, j: nat)
    requires IsBest(overrides, e, i) && IsBest(overrides, e, j)
    ensures i == j
  {}

  /** The value of the best override, if any applies. */
  ghost function BestOf(overrides: seq<Override>, e: Eval): Option<Value> {
    if exists i: nat :: IsBest(overrides, e, i) then
      var i: nat :| IsBest(overrides, e, i);
      Some(overrides[i].value)
    else None
  }

  lemma BestOfIs(overrides: seq<Override>, e: Eval, i: nat)
    requires IsBest(overrides, e, i)
    ensures BestOf(overrides, e) == Some(overrides[i].value)
  {
    var j: nat :| IsBest(overrides, e, j) && BestOf(overrides, e) == Some(overrides[j].value);
    BestIsUnique(overrides, e, i, j);
  }

  // ---------------------------------------------------------------- bestOverride

  datatype Match = Match(spec: nat, idx: nat, val: Value)

  /** The comparator: higher specificity first, then the earlier declaration. */
  predicate Before(a: Match, b: Match) { if a.spec != b.spec then a.spec > b.spec else a.idx <= b.idx }

  predicate SortedMatches(ms: seq<Match>) { forall i, j | 0 <= i < j < |ms| :: Before(ms[i], ms[j]) }

  lemma InsertedIsSorted(ms: seq<Match>, k: nat, m: Match)
    requires k <= |ms| && SortedMatches(ms)
    requires forall j: nat | j < k :: Before(ms[j], m)
    requires forall j: nat | k <= j < |ms| :: Before(m, ms[j])
    ensures SortedMatches(ms[..k] + [m] + ms[k..])
    ensures multiset(ms[..k] + [m] + ms[k..]) == multiset(ms) + multiset{m}
  {
    var r := ms[..k] + [m] + ms[k..];
    forall i, j | 0 <= i < j < |r| ensures Before(r[i], r[j]) {
      assert r[i] == if i < k then ms[i] else if i == k then m else ms[i - 1];
      assert r[j] == if j < k then ms[j] else if j == k then m else ms[j - 1];
    }
    assert ms == ms[..k] + ms[k..];
  }

  method InsertMatch(ms: seq<Match>, m: Match) returns (r: seq<Match>)
    requires SortedMatches(ms)
    ensures SortedMatches(r) && multiset(r) == multiset(ms) + multiset{m}
  {
    var k := |ms|;
    while k > 0 && !Before(ms[k - 1], m)
      invariant 0 <= k <= |ms|
      invariant forall j: nat | k <= j < |ms| :: Before(m, ms[j])
    {
      k := k - 1;
    }
    assert forall j: nat | j < k :: j < k - 1 ==> Before(ms[j], ms[k - 1]);
    InsertedIsSorted(ms, k, m);
    r := ms[..k] + [m] + ms[k..];
  }

  method SortMatches(ms: seq<Match>) returns (r: seq<Match>)
    ensures SortedMatches(r) && multiset(r) == multiset(ms)
  {
    r := [];
    for i := 0 to |ms|
      invariant SortedMatches(r) && multiset(r) == multiset(ms[..i])
    {
      assert ms[..i + 1] == ms[..i] + [ms[i]];
      r := InsertMatch(r, ms[i]);
    }
    assert ms[..|ms|] == ms;
  }

  method BestOverride(flag: Flag, e: Eval) returns (r: Option<Value>)
    ensures r == BestOf(flag.overrides, e)
    ensures r.None? <==> NoneMatches(flag.overrides, e)
    ensures r.Some? ==> exists i: nat :: IsBest(flag.overrides, e, i) && r.value == flag.overrides[i].value
  {
    var matches: seq<Match> := [];
    for i := 0 to |flag.overrides|
      invariant forall m | m in matches ::
        m.idx < i && Matches(flag.overrides[m.idx], e)
        && m == Match(Specificity(flag.overrides[m.idx]), m.idx, flag.overrides[m.idx].value)
      invariant forall j: nat | j < i && Matches(flag.overrides[j], e) ::
        Match(Specificity(flag.overrides[j]), j, flag.overrides[j].value) in matches
    {
      if Matches(flag.overrides[i], e) {
        matches := matches + [Match(Specificity(flag.overrides[i]), i, flag.overrides[i].value)];
      }
    }
    if matches == [] { return None; }
    var sorted := SortMatches(matches);
    assert forall m :: m in matches <==> m in multiset(sorted);
    assert |sorted| > 0 by { assert matches[0] in multiset(sorted); }
    assert sorted[0] in multiset(sorted);
    forall j: nat | j < |flag.overrides| && Matches(flag.overrides[j], e)
      ensures Before(sorted[0], Match(Specificity(flag.overrides[j]), j, flag.overrides[j].value))
    {
      var m := Match(Specificity(flag.overrides[j]), j, flag.overrides[j].value);
      assert m in multiset(sorted);
      var k :| 0 <= k < |sorted| && sorted[k] == m;
    }
    assert IsBest(flag.overrides, e, sorted[0].idx);
    BestOfIs(flag.overrides, e, sorted[0].idx);
    return Some(sorted[0].val);
  }

  /** What outranks what: the subject over the household over the tenant over the environment, one axis over all
      those below it together, and an override over any other that pins a proper part of its axes. */
  lemma SpecificityRanks(a: Override, b: Override)
    ensures Specificity(a) > Specificity(b) <==>
      if (a.axes.subject == "") != (b.axes.subject == "") then a.axes.subject != ""
      else if (a.axes.household == "") != (b.axes.household == "") then a.axes.household != ""
      else if (a.axes.tenant == "") != (b.axes.tenant == "") then a.axes.tenant != ""
      else a.axes.environment != "" && b.axes.environment == ""
  {}

  /** An override applies exactly when every axis it pins is the call's. */
  lemma MatchesIff(o: Override, e: Eval)
    ensures Matches(o, e) <==>
      && (o.axes.tenant == "" || o.axes.tenant == e.tenant)
      && (o.axes.household == "" || o.axes.household == e.household)
      && (o.axes.subject == "" || o.axes.subject == e.subject)
      && (o.axes.environment == "" || o.axes.environment == e.environment)
  {}

  // ---------------------------------------------------------------- declaration order

  /** Two overrides that match the same call with the same specificity pin the same axes. */
  lemma TiesHaveTheSameAxes(a: Override, b: Override, e: Eval)
    requires Matches(a, e) && Matches(b, e) && Specificity(a) == Specificity(b)
    ensures a.axes == b.axes
  {
    assert (a.axes.subject == "") == (b.axes.subject == "");
    assert (a.axes.household == "") == (b.axes.household == "");
    assert (a.axes.tenant == "") == (b.axes.tenant == "");
  }

  predicate DistinctAxes(overrides: seq<Override>) {
    forall i, j | 0 <= i < j < |overrides| :: overrides[i].axes != overrides[j].axes
  }

  lemma InBoth(a: seq<Override>, b: seq<Override>, j: nat) returns (i: nat)
    requires multiset(a) == multiset(b) && j < |b|
    ensures i < |a| && a[i] == b[j]
  {
    assert b[j] in multiset(b);
    assert b[j] in multiset(a);
    i :| i < |a| && a[i] == b[j];
  }

  /** With pairwise distinct axes, the override chosen does not depend on the order of declaration. */
  lemma OrderDoesNotMatter(a: seq<Override>, b: seq<Override>, e: Eval)
    requires multiset(a) == multiset(b) && DistinctAxes(a)
    ensures BestOf(a, e) == BestOf(b, e)
  {
    if i: nat, j: nat :| IsBest(a, e, i) && IsBest(b, e, j) {
      SameChoice(a, b, e, i, j);
      BestOfIs(a, e, i);
      BestOfIs(b, e, j);
    } else if NoneMatches(a, e) {
      NoMatchInAnyOrder(a, b, e);
    } else {
      var i := BestExists(a, e);
      if NoneMatches(b, e) { NoMatchInAnyOrder(b, a, e); } else { var j := BestExists(b, e); }
    }
  }

  lemma SameChoice(a: seq<Override>, b: seq<Override>, e: Eval, i: nat, j: nat)
    requires multiset(a) == multiset(b) && DistinctAxes(a)
    requires IsBest(a, e, i) && IsBest(b, e, j)
    ensures a[i] == b[j]
  {
    var jInA := InBoth(a, b, j);
    var iInB := InBoth(b, a, i);
    TiesHaveTheSameAxes(a[i], b[j], e);
    assert i == jInA;
  }

  lemma NoMatchInAnyOrder(a: seq<Override>, b: seq<Override>, e: Eval)
    requires multiset(a) == multiset(b) && NoneMatches(a, e)
    ensures NoneMatches(b, e)
  {
    forall j: nat | j < |b| ensures !Matches(b[j], e) {
      var i := InBoth(a, b, j);
    }
  }

  /** If anything matches, something is best. */
  lemma {:induction false} BestExists(overrides: seq<Override>, e: Eval) returns (i: nat)
    requires !NoneMatches(overrides, e)
    ensures IsBest(overrides, e, i)
  {
    var n := |overrides| - 1;
    var init := overrides[..n];
    if NoneMatches(init, e) {
      i := n;
      assert forall j: nat | j < n :: overrides[j] == init[j];
    } else {
      var k := BestExists(init, e);
      assert forall j: nat | j < n :: overrides[j] == init[j];
      i := if Matches(overrides[n], e) && Specificity(overrides[n]) > Specificity(overrides[k]) then n else k;
    }
  }

  /** Without distinct axes it does: the earlier of two rivals wins. */
  lemma RivalsDependOnOrder(axes: Axes, x: Value, y: Value, e: Eval)
    requires x != y && Matches(Override(axes, x), e)
    ensures multiset([Override(axes, x), Override(axes, y)]) == multiset([Override(axes, y), Override(axes, x)])
    ensures BestOf([Override(axes, x), Override(axes, y)], e) == Some(x)
    ensures BestOf([Override(axes, y), Override(axes, x)], e) == Some(y)
  {
    BestOfIs([Override(axes, x), Override(axes, y)], e, 0);
    BestOfIs([Override(axes, y), Override(axes, x)], e, 0);
  }

  // ---------------------------------------------------------------- first match

  predicate IsFirstMatch(overrides: seq<Override>, e: Eval, i: nat) {
    && i < |overrides| && Matches(overrides[i], e)
    && forall j: nat | j < i :: !Matches(overrides[j], e)
  }

  /** No match outranks override i. */
  predicate Unsurpassed(overrides: seq<Override>, e: Eval, i: nat)
    requires i < |overrides|
  {
    forall j: nat | j < |overrides| && Matches(overrides[j], e) ::
      Specificity(overrides[j]) <= Specificity(overrides[i])
  }

  /** "The first matching override wins" holds exactly when no later match is strictly more specific, or the most
      specific one happens to have the same value. */
  lemma FirstMatchWinsIff(overrides: seq<Override>, e: Eval, i: nat)
    requires IsFirstMatch(overrides, e, i)
    ensures IsBest(overrides, e, i) <==> Unsurpassed(overrides, e, i)
    ensures BestOf(overrides, e) == Some(overrides[i].value) <==>
      || Unsurpassed(overrides, e, i)
      || exists k: nat :: IsBest(overrides, e, k) && overrides[k].value == overrides[i].value
  {
    var k := BestExists(overrides, e);
    BestOfIs(overrides, e, k);
    if Unsurpassed(overrides, e, i) { BestOfIs(overrides, e, i); }
  }

  /** An environment-wide override declared before a subject's own loses to it. */
  lemma FirstMatchLoses(e: Eval, x: Value, y: Value)
    requires e.subject != "" && e.environment != "" && x != y
    ensures var overrides := [Override(Axes("", "", "", e.environment), x), Override(Axes("", "", e.subject, ""), y)];
      IsFirstMatch(overrides, e, 0) && BestOf(overrides, e) == Some(y)
  {
    var overrides := [Override(Axes("", "", "", e.environment), x), Override(Axes("", "", e.subject, ""), y)];
    BestOfIs(overrides, e, 1);
  }

  // ---------------------------------------------------------------- evaluation

  function OverrideToBool(flag: Flag, v: Value): bool {
    if flag.variants.None? then v.BoolValue? && v.on
    else v.NameValue? && v.name == flag.default && v.name != ""
  }

  /** evaluateBool, given the best override's value. */
  function EnabledGiven(flag: Flag, best: Option<Value>, e: Eval, bucket: Bucketing): bool {
    if !flag.enabled then false
    else if best.Some? then OverrideToBool(flag, best.value)
    else if flag.rollout.Some? then bucket(e.subject, flag.rollout.value.salt, flag.rollout.value.percentage)
    else if flag.variants.Some? then flag.default != ""
    else true
  }

  /** evaluateVariant, given the best override's value. */
  function VariantNameGiven(flag: Flag, best: Option<Value>, e: Eval, bucket: Bucketing): Option<string> {
    if best.Some? && best.value.NameValue? && flag.variants.Some? && best.value.name in flag.variants.value then
      Some(best.value.name)
    else if flag.rollout.Some? && !bucket(e.subject, flag.rollout.value.salt, flag.rollout.value.percentage) then None
    else if flag.default == "" then None
    else Some(flag.default)
  }

  ghost predicate IsOn(flag: Flag, e: Eval, bucket: Bucketing) {
    EnabledGiven(flag, BestOf(flag.overrides, e), e, bucket)
  }

  ghost function VariantOf(flag: Flag, e: Eval, bucket: Bucketing): Option<(string, Value)> {
    var name := VariantNameGiven(flag, BestOf(flag.overrides, e), e, bucket);
    if flag.enabled && flag.variants.Some? && name.Some? && name.value in flag.variants.value
    then Some((name.value, flag.variants.value[name.value])) else None
  }

  /** IsEnabled on a flag the source found. */
  method IsEnabled(flag: Flag, e: Eval, bucket: Bucketing) returns (r: bool)
    ensures r == IsOn(flag, e, bucket)
  {
    if !flag.enabled { return false; }
    var best := BestOverride(flag, e);
    if best.Some? { return OverrideToBool(flag, best.value); }
    if flag.rollout.Some? { return bucket(e.subject, flag.rollout.value.salt, flag.rollout.value.percentage); }
    if flag.variants.Some? { return flag.default != ""; }
    r := true;
  }

  /** Variant on a flag the source found: the name and value of an existing variant, or nothing. */
  method Variant(flag: Flag, e: Eval, bucket: Bucketing) returns (r: Option<(string, Value)>)
    ensures r == VariantOf(flag, e, bucket)
  {
    if !flag.enabled || flag.variants.None? { return None; }
    var best := BestOverride(flag, e);
    var name := VariantNameGiven(flag, best, e, bucket);
    if name.None? || name.value !in flag.variants.value { return None; }
    r := Some((name.value, flag.variants.value[name.value]));
  }

  /** Enabled variant flags whose default and whose matching override values are existing variants. */
  ghost predicate WellDeclared(flag: Flag, e: Eval) {
    && flag.enabled && flag.variants.Some? && flag.default in flag.variants.value
    && forall o | o in flag.overrides && Matches(o, e) :: o.value.NameValue? && o.value.name in flag.variants.value
  }

  /** When a flag's empty default makes the two readings part: an override naming the empty variant, or a
      rollout that lets the subject in. */
  ghost predicate EmptyDefaultFires(flag: Flag, e: Eval, bucket: Bucketing) {
    && flag.default == ""
    && var best := BestOf(flag.overrides, e);
       if best.Some? then best.value == NameValue("")
       else flag.rollout.Some? && bucket(e.subject, flag.rollout.value.salt, flag.rollout.value.percentage)
  }

  ghost predicate VariantIsDefault(flag: Flag, e: Eval, bucket: Bucketing) {
    VariantOf(flag, e, bucket).Some? && VariantOf(flag, e, bucket).value.0 == flag.default
  }

  /** A boolean flag is on exactly when it is enabled and either the best override says true, or nothing matches and
      the rollout, if there is one, admits the subject. */
  lemma BooleanFlagIsOnIff(flag: Flag, e: Eval, bucket: Bucketing)
    requires flag.variants.None?
    ensures IsOn(flag, e, bucket) <==>
      && flag.enabled
      && (|| BestOf(flag.overrides, e) == Some(BoolValue(true))
          || (&& NoneMatches(flag.overrides, e)
              && (flag.rollout.None?
                  || bucket(e.subject, flag.rollout.value.salt, flag.rollout.value.percentage))))
  {
    NoBestIffNoMatch(flag.overrides, e);
  }

  lemma NoBestIffNoMatch(overrides: seq<Override>, e: Eval)
    ensures BestOf(overrides, e).None? <==> NoneMatches(overrides, e)
  {
    if !NoneMatches(overrides, e) {
      var i := BestExists(overrides, e);
      BestOfIs(overrides, e, i);
    }
  }

  /** A variant flag resolves to an existing variant: the one the best override names; or, when that names none, a
      non-empty default, if the rollout admits the subject. */
  lemma VariantIs(flag: Flag, e: Eval, bucket: Bucketing, name: string, value: Value)
    ensures VariantOf(flag, e, bucket) == Some((name, value)) <==>
      && flag.enabled && flag.variants.Some? && name in flag.variants.value && flag.variants.value[name] == value
      && var best := BestOf(flag.overrides, e);
         if best.Some? && best.value.NameValue? && best.value.name in flag.variants.value then name == best.value.name
         else
           && name == flag.default && name != ""
           && (flag.rollout.None?
               || bucket(e.subject, flag.rollout.value.salt, flag.rollout.value.percentage))
  {}

  /** IsEnabled's promise for variant flags: on exactly when the resolved variant is the default and the default is
      non-empty. */
  ghost predicate PromiseKept(flag: Flag, e: Eval, bucket: Bucketing) {
    IsOn(flag, e, bucket) <==> VariantIsDefault(flag, e, bucket) && flag.default != ""
  }

  predicate NamesVariant(flag: Flag, v: Value)
    requires flag.variants.Some?
  {
    v.NameValue? && v.name in flag.variants.value
  }

  predicate Admitted(flag: Flag, e: Eval, bucket: Bucketing) {
    flag.rollout.None? || bucket(e.subject, flag.rollout.value.salt, flag.rollout.value.percentage)
  }

  /** What breaks it, by what a caller can see in the flag: a best override whose value is no variant, over a
      non-empty default that it names or that would otherwise be served; without an override, a rollout that admits
      while the default is empty or no variant; with neither, a non-empty default that is no variant. */
  ghost predicate Breaks(flag: Flag, e: Eval, bucket: Bucketing)
    requires flag.variants.Some?
  {
    var best := BestOf(flag.overrides, e);
    var known := flag.default in flag.variants.value;
    if best.Some? then
      && !NamesVariant(flag, best.value) && flag.default != ""
      && (best.value == NameValue(flag.default) || (known && Admitted(flag, e, bucket)))
    else if flag.rollout.Some? then Admitted(flag, e, bucket) && (flag.default == "" || !known)
    else flag.default != "" && !known
  }

  /** For every variant flag, exactly: the promise holds unless the flag is enabled and breaks it. */
  lemma PromiseKeptIff(flag: Flag, e: Eval, bucket: Bucketing)
    requires flag.variants.Some?
    ensures PromiseKept(flag, e, bucket) <==> !(flag.enabled && Breaks(flag, e, bucket))
  {}

  /** Each way of breaking it occurs: a rollout over an unset default and over a default that is no variant, an
      unknown default alone, and overrides with a value that is no variant, naming the default or not. */
  lemma PromiseBreaks(v: Value, e: Eval, bucket: Bucketing)
    requires bucket(e.subject, "salt", 100)
    ensures var a := map["on" := v]; var all := Axes("", "", "", ""); var everyone := Some(Rollout(100, "salt"));
      && !PromiseKept(Flag(true, Some(a), "", everyone, []), e, bucket)
      && !PromiseKept(Flag(true, Some(a), "gone", everyone, []), e, bucket)
      && !PromiseKept(Flag(true, Some(a), "gone", None, []), e, bucket)
      && !PromiseKept(Flag(true, Some(a), "gone", None, [Override(all, NameValue("gone"))]), e, bucket)
      && !PromiseKept(Flag(true, Some(a), "on", None, [Override(all, BoolValue(true))]), e, bucket)
  {
    var all := Axes("", "", "", "");
    BestOfIs([Override(all, NameValue("gone"))], e, 0);
    BestOfIs([Override(all, BoolValue(true))], e, 0);
  }

  /** On well-declared flags "enabled" means "the variant is the default", except exactly when an empty default
      fires. */
  lemma EnabledMeansDefault(flag: Flag, e: Eval, bucket: Bucketing)
    requires WellDeclared(flag, e)
    ensures (IsOn(flag, e, bucket) <==> VariantIsDefault(flag, e, bucket)) <==> !EmptyDefaultFires(flag, e, bucket)
  {
    if i: nat :| IsBest(flag.overrides, e, i) {
      BestOfIs(flag.overrides, e, i);
      assert flag.overrides[i] in flag.overrides;
    }
  }

  /** Both of its exceptions occur, in opposite directions; only the first breaks the promise. */
  lemma EmptyDefaultDisagrees(v: Value, e: Eval, bucket: Bucketing)
    requires bucket(e.subject, "salt", 100)
    ensures var rolled := Flag(true, Some(map["" := v]), "", Some(Rollout(100, "salt")), []);
      && WellDeclared(rolled, e) && IsOn(rolled, e, bucket) && !VariantIsDefault(rolled, e, bucket)
      && !PromiseKept(rolled, e, bucket)
    ensures var pinned := Flag(true, Some(map["" := v]), "", None, [Override(Axes("", "", "", ""), NameValue(""))]);
      && WellDeclared(pinned, e) && !IsOn(pinned, e, bucket) && VariantIsDefault(pinned, e, bucket)
      && PromiseKept(pinned, e, bucket)
  {
    var pinned := [Override(Axes("", "", "", ""), NameValue(""))];
    assert IsBest(pinned, e, 0);
    BestOfIs(pinned, e, 0);
  }

  /** Re-ordering overrides with distinct axes changes neither answer. */
  lemma AnswersIgnoreOrder(a: Flag, b: Flag, e: Eval, bucket: Bucketing)
    requires b == a.(overrides := b.overrides) && multiset(a.overrides) == multiset(b.overrides)
    requires DistinctAxes(a.overrides)
    ensures IsOn(a, e, bucket) == IsOn(b, e, bucket) && VariantOf(a, e, bucket) == VariantOf(b, e, bucket)
  {
    OrderDoesNotMatter(a.overrides, b.overrides, e);
  }
}

/** The coherence rules of a navigation graph, against the surfaces granted to the requesting scope. */
module NavCoherence {
  import opened Options
  import opened ExperienceSpec

  const MAX_PRIMARY := 5

  datatype Problem =
    | TooManyPrimary(count: nat)
    | LandingMissing(surface: string)
    | EndpointMissing(surface: string)
    | NotEntitled(surface: string)

  function Placed(slots: seq<NavSlot>): set<string> { set s | s in slots :: s.surface }

  function Primaries(slots: seq<NavSlot>): nat {
    if slots == [] then 0
    else Primaries(slots[..|slots| - 1]) + if slots[|slots| - 1].primary then 1 else 0
  }

  function EndpointProblem(endpoint: string, placed: set<string>): seq<Problem> {
    if endpoint == "" || endpoint in placed then [] else [EndpointMissing(endpoint)]
  }

  function EdgeProblems(edges: seq<NavEdge>, placed: set<string>): seq<Problem> {
    if edges == [] then []
    else
      var e := edges[|edges| - 1];
      EdgeProblems(edges[..|edges| - 1], placed) + EndpointProblem(e.from, placed) + EndpointProblem(e.to, placed)
  }

  function SlotProblems(slots: seq<NavSlot>, entitled: set<string>): seq<Problem> {
    if slots == [] then []
    else
      var s := slots[|slots| - 1];
      SlotProblems(slots[..|slots| - 1], entitled) + if s.surface in entitled then [] else [NotEntitled(s.surface)]
  }

  /** Every violation of every rule, in order. */
  function Problems(g: Option<NavGraph>, entitled: set<string>): seq<Problem> {
    if g.None? then []
    else
      var placed := Placed(g.value.slots);
      PrimaryProblems(Primaries(g.value.slots)) + LandingProblems(g.value.landing, placed)
      + EdgeProblems(g.value.edges, placed) + SlotProblems(g.value.slots, entitled)
  }

  function PrimaryProblems(count: nat): seq<Problem> { if count > MAX_PRIMARY then [TooManyPrimary(count)] else [] }

  function LandingProblems(landing: string, placed: set<string>): seq<Problem> {
    if landing == "" || landing in placed then [] else [LandingMissing(landing)]
  }

  method ValidateNavGraph(g: Option<NavGraph>, entitled: set<string>) returns (problems: seq<Problem>)
    ensures problems == Problems(g, entitled)
  {
    if g.None? { return []; }
    var placed, primaries := IndexSlots(g.value.slots);
    problems := PrimaryProblems(primaries);
    problems := problems + LandingProblems(g.value.landing, placed);
    var broken := CheckEdges(g.value.edges, placed);
    problems := problems + broken;
    var barred := CheckSlots(g.value.slots, entitled);
    problems := problems + barred;
  }

  method IndexSlots(slots: seq<NavSlot>) returns (placed: set<string>, primaries: nat)
    ensures placed == Placed(slots) && primaries == Primaries(slots)
  {
    placed, primaries := {}, 0;
    for i := 0 to |slots|
      invariant placed == Placed(slots[..i]) && primaries == Primaries(slots[..i])
    {
      assert slots[..i + 1][..i] == slots[..i] && slots[..i + 1] == slots[..i] + [slots[i]];
      placed := placed + {slots[i].surface};
      if slots[i].primary { primaries := primaries + 1; }
    }
    assert slots[..|slots|] == slots;
  }

  method CheckEdges(edges: seq<NavEdge>, placed: set<string>) returns (problems: seq<Problem>)
    ensures problems == EdgeProblems(edges, placed)
  {
    problems := [];
    for i := 0 to |edges|
      invariant problems == EdgeProblems(edges[..i], placed)
    {
      assert edges[..i + 1][..i] == edges[..i];
      if edges[i].from != "" && edges[i].from !in placed { problems := problems + [EndpointMissing(edges[i].from)]; }
      if edges[i].to != "" && edges[i].to !in placed { problems := problems + [EndpointMissing(edges[i].to)]; }
    }
    assert edges[..|edges|] == edges;
  }

  method CheckSlots(slots: seq<NavSlot>, entitled: set<string>) returns (problems: seq<Problem>)
    ensures problems == SlotProblems(slots, entitled)
  {
    problems := [];
    for i := 0 to |slots|
      invariant problems == SlotProblems(slots[..i], entitled)
    {
      assert slots[..i + 1][..i] == slots[..i];
      if slots[i].surface !in entitled { problems := problems + [NotEntitled(slots[i].surface)]; }
    }
    assert slots[..|slots|] == slots;
  }

  lemma {:induction false} SlotsOkIff(slots: seq<NavSlot>, entitled: set<string>)
    ensures SlotProblems(slots, entitled) == [] <==> forall s | s in slots :: s.surface in entitled
  {
    if slots != [] {
      var init := slots[..|slots| - 1];
      assert slots == init + [slots[|slots| - 1]];
      SlotsOkIff(init, entitled);
    }
  }

  predicate EdgeOk(e: NavEdge, placed: set<string>) {
    (e.from == "" || e.from in placed) && (e.to == "" || e.to in placed)
  }

  lemma {:induction false} EdgesOkIff(edges: seq<NavEdge>, placed: set<string>)
    ensures EdgeProblems(edges, placed) == [] <==> forall e | e in edges :: EdgeOk(e, placed)
  {
    if edges != [] {
      var init := edges[..|edges| - 1];
      var e := edges[|edges| - 1];
      assert edges == init + [e];
      EdgesOkIff(init, placed);
      var earlier, last := EdgeProblems(init, placed), EndpointProblem(e.from, placed) + EndpointProblem(e.to, placed);
      assert EdgeProblems(edges, placed) == earlier + last;
      assert last == [] <==> EdgeOk(e, placed);
    }
  }

  /** No problem is reported exactly when the four rules hold. */
  lemma CoherentIff(g: NavGraph, entitled: set<string>)
    ensures Problems(Some(g), entitled) == [] <==>
      && |set i | 0 <= i < |g.slots| && g.slots[i].primary| <= 5
      && (g.landing == "" || g.landing in Placed(g.slots))
      && (forall e | e in g.edges :: EdgeOk(e, Placed(g.slots)))
      && (forall s | s in g.slots :: s.surface in entitled)
  {
    SlotsOkIff(g.slots, entitled);
    EdgesOkIff(g.edges, Placed(g.slots));
    PrimariesCount(g.slots);
  }

  lemma {:induction false} PrimariesCount(slots: seq<NavSlot>)
    ensures Primaries(slots) == |set i | 0 <= i < |slots| && slots[i].primary|
  {
    if slots != [] {
      var n := |slots| - 1;
      PrimariesCount(slots[..n]);
      var before := set i | 0 <= i < n && slots[..n][i].primary;
      var after := set i | 0 <= i < |slots| && slots[i].primary;
      if slots[n].primary { assert after == before + {n}; } else { assert after == before; }
    }
  }

  /** What is reported, item by item: too many primary slots with their number, a landing that is not placed, each
      named endpoint that is not placed, each placed surface that is not entitled; nothing else. */
  lemma ReportedIff(g: NavGraph, entitled: set<string>, p: Problem)
    ensures p in Problems(Some(g), entitled) <==>
      match p
      case TooManyPrimary(n) => n > 5 && n == |set i | 0 <= i < |g.slots| && g.slots[i].primary|
      case LandingMissing(x) => x == g.landing && x != "" && forall s | s in g.slots :: s.surface != x
      case EndpointMissing(x) =>
        x != "" && (exists e | e in g.edges :: e.from == x || e.to == x) && forall s | s in g.slots :: s.surface != x
      case NotEntitled(x) => x !in entitled && exists s | s in g.slots :: s.surface == x
  {
    PrimariesCount(g.slots);
    EdgeReported(g.edges, Placed(g.slots), p);
    SlotReported(g.slots, entitled, p);
    var placed := Placed(g.slots);
    var a, b := PrimaryProblems(Primaries(g.slots)), LandingProblems(g.landing, placed);
    var c, d := EdgeProblems(g.edges, placed), SlotProblems(g.slots, entitled);
    assert p in a + b + c + d <==> p in a || p in b || p in c || p in d;
  }

  lemma {:induction false} EdgeReported(edges: seq<NavEdge>, placed: set<string>, p: Problem)
    ensures p in EdgeProblems(edges, placed) <==>
      && p.EndpointMissing? && p.surface != "" && p.surface !in placed
      && exists e | e in edges :: e.from == p.surface || e.to == p.surface
  {
    if edges != [] {
      var init, e := edges[..|edges| - 1], edges[|edges| - 1];
      assert edges == init + [e];
      EdgeReported(init, placed, p);
      var from, to := EndpointProblem(e.from, placed), EndpointProblem(e.to, placed);
      assert p in EdgeProblems(edges, placed) <==> p in EdgeProblems(init, placed) || p in from || p in to;
    }
  }

  lemma {:induction false} SlotReported(slots: seq<NavSlot>, entitled: set<string>, p: Problem)
    ensures p in SlotProblems(slots, entitled) <==>
      p.NotEntitled? && p.surface !in entitled && exists s | s in slots :: s.surface == p.surface
  {
    if slots != [] {
      var init, s := slots[..|slots| - 1], slots[|slots| - 1];
      assert slots == init + [s];
      SlotReported(init, entitled, p);
    }
  }
}

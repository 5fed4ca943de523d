/**
 Company creations that overlap. The store's create is one critical section; the service then reads the parent's
 ancestors and inserts its own entries in two further ones, with other calls in between.
 */
module CompanyRuns {
  import opened Options
  import opened CompanyForest
  import opened CompanyService

  /** How far a service CreateCompany call has come after the store's create. */
  datatype Call = Stored(id: Id, parent: Option<Id>) | Built(entries: seq<Entry>)

  datatype World = World(companies: Companies, hierarchy: seq<Entry>, calls: map<nat, Call>)

  datatype Action =
    | StoreCreate(call: nat, id: Id, company: Company, ancestors: seq<Entry>)
    | SignUp(id: Id, company: Company)
    | Update(id: Id, company: Company)
    | Build(call: nat, ancestors: seq<Entry>)
    | InsertEntries(call: nat)
    | Abandon(call: nat)

  /** What getAncestors may return for a parent: its entries by generation, ties in any order. */
  ghost predicate Lists(h: seq<Entry>, parent: Option<Id>, xs: seq<Entry>) {
    if parent.None? then xs == []
    else ByGenerations(xs) && multiset(xs) == multiset(EntriesOf(h, parent.value))
  }

  ghost predicate Enabled(w: World, a: Action) {
    match a
    case StoreCreate(call, id, c, ancestors) =>
      call !in w.calls && Fresh(w.companies, id, c) && Lists(w.hierarchy, c.parent, ancestors)
    case SignUp(id, c) => Fresh(w.companies, id, c) && c.parent.None?
    case Update(id, c) => id in w.companies && c.parent == w.companies[id].parent
    case Build(call, ancestors) =>
      call in w.calls && w.calls[call].Stored? && Lists(w.hierarchy, w.calls[call].parent, ancestors)
    case InsertEntries(call) => call in w.calls && w.calls[call].Built?
    case Abandon(call) => call in w.calls
  }

  ghost function Apply(w: World, a: Action): World
    requires Enabled(w, a)
  {
    match a
    case StoreCreate(call, id, c, ancestors) =>
      World(w.companies[id := c], InsertedAll(w.hierarchy, ChildRows(id, ancestors)),
            w.calls[call := Stored(id, c.parent)])
    case SignUp(id, c) =>
      w.(companies := w.companies[id := c], hierarchy := InsertedAll(w.hierarchy, ChildRows(id, [])))
    case Update(id, c) => w.(companies := w.companies[id := c])
    case Build(call, ancestors) => w.(calls := w.calls[call := Built(ChildRows(w.calls[call].id, ancestors))])
    case InsertEntries(call) =>
      w.(hierarchy := InsertedAll(w.hierarchy, w.calls[call].entries), calls := w.calls - {call})
    case Abandon(call) => w.(calls := w.calls - {call})
  }

  predicate Initial(w: World) { w == World(map[], [], map[]) }

  ghost predicate Leads(w: World, a: Action, v: World) { Enabled(w, a) && v == Apply(w, a) }

  ghost predicate Run(worlds: seq<World>, actions: seq<Action>) {
    && |worlds| == |actions| + 1
    && forall i: nat | i < |actions| :: Leads(worlds[i], actions[i], worlds[i + 1])
  }

  // ---------------------------------------------------------------- the invariant

  ghost predicate Forest(cs: Companies) { exists rank :: Ranked(cs, rank) }

  ghost predicate CallOk(cs: Companies, h: seq<Entry>, call: Call) {
    match call
    case Stored(id, parent) => id in cs && cs[id].parent == parent
    case Built(entries) => forall i | 0 <= i < |entries| :: entries[i] in h
  }

  ghost predicate Inv(w: World) {
    && Forest(w.companies) && IsClosure(w.companies, w.hierarchy)
    && forall c | c in w.calls :: CallOk(w.companies, w.hierarchy, w.calls[c])
  }

  /** A new company's rows are all new, so inserting them one by one appends them. */
  lemma {:induction false} NewRowsAppend(h: seq<Entry>, id: Id, ancestors: seq<Entry>, k: nat)
    requires (forall e | e in h :: e.descendant != id) && k <= |ancestors| + 1
    requires forall i, j | 0 <= i < j < |ancestors| :: ancestors[i].generations < ancestors[j].generations
    ensures InsertedAll(h, ChildRows(id, ancestors)[..k]) == h + ChildRows(id, ancestors)[..k]
  {
    var rows := ChildRows(id, ancestors);
    if k == 0 {
      assert rows[..0] == [];
    } else {
      NewRowsAppend(h, id, ancestors, k - 1);
      InsertedNext(h, rows, k - 1);
      assert rows[k - 1] !in h + rows[..k - 1] by {
        if k > 1 { NewRowIsNew(id, ancestors, k - 2, h); } else { assert rows[0].descendant == id; }
      }
      OneLonger(h, rows, k - 1);
    }
  }

  lemma RowsAppended(cs: Companies, rank: map<Id, nat>, h: seq<Entry>, id: Id, parent: Option<Id>, xs: seq<Entry>)
    requires Ranked(cs, rank) && IsClosure(cs, h) && id !in cs && Lists(h, parent, xs)
    ensures xs == ParentRow(cs, rank, parent) && InsertedAll(h, ChildRows(id, xs)) == h + ChildRows(id, xs)
  {
    if parent.Some? { SortedEntriesAreRow(cs, rank, h, parent.value, xs); }
    NoRowsYet(cs, rank, h, id, parent);
    NewRowsAppend(h, id, xs, |xs| + 1);
    assert ChildRows(id, xs)[..|xs| + 1] == ChildRows(id, xs);
  }

  /** The store's create turns a closure table into the closure table of the grown forest. */
  lemma StoreKeepsClosure(cs: Companies, h: seq<Entry>, id: Id, c: Company, ancestors: seq<Entry>)
    requires Forest(cs) && IsClosure(cs, h) && Fresh(cs, id, c) && Lists(h, c.parent, ancestors)
    ensures Forest(cs[id := c]) && IsClosure(cs[id := c], InsertedAll(h, ChildRows(id, ancestors)))
    ensures h <= InsertedAll(h, ChildRows(id, ancestors))
  {
    var rank :| Ranked(cs, rank);
    RowsAppended(cs, rank, h, id, c.parent, ancestors);
    ForestGrows(cs, rank, h, id, c, h + ChildRows(id, ParentRow(cs, rank, c.parent)));
  }

  lemma ForestGrows(cs: Companies, rank: map<Id, nat>, h: seq<Entry>, id: Id, c: Company, h': seq<Entry>)
    requires Ranked(cs, rank) && IsClosure(cs, h) && Fresh(cs, id, c)
    requires h' == h + ChildRows(id, ParentRow(cs, rank, c.parent))
    ensures Forest(cs[id := c]) && IsClosure(cs[id := c], h')
  {
    var rank' := Grown(cs, rank, h, id, c);
  }

  lemma BuiltIsThere(cs: Companies, h: seq<Entry>, id: Id, ancestors: seq<Entry>)
    requires Forest(cs) && IsClosure(cs, h) && id in cs && Lists(h, cs[id].parent, ancestors)
    ensures forall i | 0 <= i < |ChildRows(id, ancestors)| :: ChildRows(id, ancestors)[i] in h
  {
    var rank :| Ranked(cs, rank);
    if cs[id].parent.Some? { SortedEntriesAreRow(cs, rank, h, cs[id].parent.value, ancestors); }
    AlreadyThere(cs, rank, h, id, ChildRows(id, ancestors));
  }

  lemma CallStays(cs: Companies, h: seq<Entry>, cs': Companies, h': seq<Entry>, call: Call)
    requires CallOk(cs, h, call) && h <= h'
    requires forall d | d in cs :: d in cs' && cs'[d].parent == cs[d].parent
    ensures CallOk(cs', h', call)
  {}

  /** What a step does to the companies and the table. */
  lemma StepKeepsClosure(w: World, a: Action)
    requires Inv(w) && Enabled(w, a)
    ensures Forest(Apply(w, a).companies) && IsClosure(Apply(w, a).companies, Apply(w, a).hierarchy)
    ensures w.hierarchy <= Apply(w, a).hierarchy
    ensures a.InsertEntries? ==> Apply(w, a).hierarchy == w.hierarchy
  {
    match a
    case StoreCreate(call, id, c, ancestors) => StoreKeepsClosure(w.companies, w.hierarchy, id, c, ancestors);
    case SignUp(id, c) => StoreKeepsClosure(w.companies, w.hierarchy, id, c, []);
    case Update(id, c) => UpdateKeepsClosure(w.companies, w.hierarchy, id, c);
    case InsertEntries(call) =>
      assert CallOk(w.companies, w.hierarchy, w.calls[call]);
      InsertedPresent(w.hierarchy, w.calls[call].entries);
    case _ =>
  }

  lemma UpdateKeepsClosure(cs: Companies, h: seq<Entry>, id: Id, c: Company)
    requires Forest(cs) && IsClosure(cs, h) && id in cs && c.parent == cs[id].parent
    ensures Forest(cs[id := c]) && IsClosure(cs[id := c], h)
  {
    var rank :| Ranked(cs, rank);
    SameLinksSameClosure(cs, cs[id := c], rank, h);
  }

  lemma StepKeepsInv(w: World, a: Action)
    requires Inv(w) && Enabled(w, a)
    ensures Inv(Apply(w, a))
    ensures a.InsertEntries? ==> Apply(w, a).hierarchy == w.hierarchy
  {
    StepKeepsClosure(w, a);
    if a.Build? {
      assert CallOk(w.companies, w.hierarchy, w.calls[a.call]);
      BuiltIsThere(w.companies, w.hierarchy, w.calls[a.call].id, a.ancestors);
    }
    CallsStay(w, a, Apply(w, a));
  }

  lemma CallsStay(w: World, a: Action, v: World)
    requires Inv(w) && Leads(w, a, v) && w.hierarchy <= v.hierarchy
    requires a.Build? ==> CallOk(w.companies, w.hierarchy, v.calls[a.call])
    ensures forall c | c in v.calls :: CallOk(v.companies, v.hierarchy, v.calls[c])
  {
    forall c | c in v.calls ensures CallOk(v.companies, v.hierarchy, v.calls[c]) {
      if c in w.calls && v.calls[c] == w.calls[c] {
        CallStays(w.companies, w.hierarchy, v.companies, v.hierarchy, w.calls[c]);
      }
    }
  }

  /** In every interleaving of creations, sign-ups and updates the table is exactly the closure of the parent links,
      in every state, and the service's own inserts never change it. */
  lemma {:induction false} EveryRunIsClosure(worlds: seq<World>, actions: seq<Action>, n: nat)
    requires Run(worlds, actions) && Initial(worlds[0]) && n < |worlds|
    ensures Inv(worlds[n])
    ensures n < |actions| && actions[n].InsertEntries? ==> worlds[n + 1].hierarchy == worlds[n].hierarchy
  {
    if n == 0 {
      assert Ranked(worlds[0].companies, map[]);
    } else {
      EveryRunIsClosure(worlds, actions, n - 1);
      assert Leads(worlds[n - 1], actions[n - 1], worlds[n - 1 + 1]);
      StepKeepsInv(worlds[n - 1], actions[n - 1]);
    }
    if n < |actions| {
      assert Leads(worlds[n], actions[n], worlds[n + 1]);
      StepKeepsInv(worlds[n], actions[n]);
    }
  }

  // ---------------------------------------------------------------- one call with nothing in between

  lemma {:induction false} Sortable(xs: seq<Entry>) returns (ys: seq<Entry>)
    ensures ByGenerations(ys) && multiset(ys) == multiset(xs)
  {
    if xs == [] {
      ys := [];
    } else {
      var init, last := xs[..|xs| - 1], xs[|xs| - 1];
      var sorted := Sortable(init);
      ys := Placed(sorted, last);
      assert xs == init + [last];
    }
  }

  lemma {:induction false} Placed(xs: seq<Entry>, e: Entry) returns (ys: seq<Entry>)
    requires ByGenerations(xs)
    ensures ByGenerations(ys) && multiset(ys) == multiset(xs) + multiset{e}
    ensures forall y | y in ys :: y in xs || y == e
  {
    if xs == [] || xs[|xs| - 1].generations <= e.generations {
      ys := xs + [e];
    } else {
      var init, last := xs[..|xs| - 1], xs[|xs| - 1];
      var less := Placed(init, e);
      ys := less + [last];
      assert xs == init + [last];
      forall i | 0 <= i < |less| ensures less[i].generations <= last.generations { assert less[i] in less; }
    }
  }

  lemma SameListing(h: seq<Entry>, rows: seq<Entry>, id: Id, parent: Option<Id>, xs: seq<Entry>)
    requires Lists(h, parent, xs) && parent != Some(id) && forall i | 0 <= i < |rows| :: rows[i].descendant == id
    ensures Lists(h + rows, parent, xs)
  {
    if parent.Some? {
      forall e ensures multiset(EntriesOf(h + rows, parent.value))[e] == multiset(EntriesOf(h, parent.value))[e] {
        EntriesOfMembers(h + rows, parent.value, e);
        EntriesOfMembers(h, parent.value, e);
        assert e.descendant == parent.value ==> e !in rows;
      }
    }
  }

  lemma SomeListing(h: seq<Entry>, parent: Option<Id>) returns (xs: seq<Entry>)
    ensures Lists(h, parent, xs)
  {
    xs := [];
    if parent.Some? { xs := Sortable(EntriesOf(h, parent.value)); }
  }

  /** The entries of id's parent chain, itself included, are added and nothing else. */
  ghost predicate ChainAdded(h: seq<Entry>, cs: Companies, h': seq<Entry>, id: Id) {
    && h <= h'
    && forall e :: e in h' <==>
         e in h || (e.descendant == id && NthParent(cs, id, e.generations) == Some(e.ancestor))
  }

  /** A creation whose three sections run in a row stores the company, and the table grows by exactly its parent
      chain. */
  lemma CreateAlone(w: World, call: nat, id: Id, c: Company)
      returns (ancestors: seq<Entry>, stored: World, built: World, done: World)
    requires Inv(w) && call !in w.calls && Fresh(w.companies, id, c)
    ensures Leads(w, StoreCreate(call, id, c, ancestors), stored) && Leads(stored, Build(call, ancestors), built)
    ensures Leads(built, InsertEntries(call), done)
    ensures done.companies == w.companies[id := c] && done.calls == w.calls
    ensures ChainAdded(w.hierarchy, done.companies, done.hierarchy, id)
  {
    ancestors := SomeListing(w.hierarchy, c.parent);
    ChainOf(w, id, c, ancestors);
    stored, built, done := Sections(w, call, id, c, ancestors);
  }

  lemma ChainOf(w: World, id: Id, c: Company, ancestors: seq<Entry>)
    requires Inv(w) && Fresh(w.companies, id, c) && Lists(w.hierarchy, c.parent, ancestors)
    ensures InsertedAll(w.hierarchy, ChildRows(id, ancestors)) == w.hierarchy + ChildRows(id, ancestors)
    ensures ChainAdded(w.hierarchy, w.companies[id := c], w.hierarchy + ChildRows(id, ancestors), id)
  {
    RowsInserted(w.companies, w.hierarchy, id, c.parent, ancestors);
    TableGrows(w.companies, w.hierarchy, id, c, ancestors);
  }

  lemma RowsInserted(cs: Companies, h: seq<Entry>, id: Id, parent: Option<Id>, xs: seq<Entry>)
    requires Forest(cs) && IsClosure(cs, h) && id !in cs && Lists(h, parent, xs)
    ensures InsertedAll(h, ChildRows(id, xs)) == h + ChildRows(id, xs)
  {
    var rank :| Ranked(cs, rank);
    RowsAppended(cs, rank, h, id, parent, xs);
  }

  lemma Sections(w: World, call: nat, id: Id, c: Company, ancestors: seq<Entry>)
      returns (stored: World, built: World, done: World)
    requires call !in w.calls && Fresh(w.companies, id, c) && Lists(w.hierarchy, c.parent, ancestors)
    requires InsertedAll(w.hierarchy, ChildRows(id, ancestors)) == w.hierarchy + ChildRows(id, ancestors)
    ensures Leads(w, StoreCreate(call, id, c, ancestors), stored) && Leads(stored, Build(call, ancestors), built)
    ensures Leads(built, InsertEntries(call), done)
    ensures done == World(w.companies[id := c], w.hierarchy + ChildRows(id, ancestors), w.calls)
  {
    var rows := ChildRows(id, ancestors);
    stored, built := FirstSections(w, call, id, c, ancestors, rows);
    done := Finished(w, call, id, c, rows, built);
  }

  lemma FirstSections(w: World, call: nat, id: Id, c: Company, ancestors: seq<Entry>, rows: seq<Entry>)
      returns (stored: World, built: World)
    requires call !in w.calls && Fresh(w.companies, id, c) && Lists(w.hierarchy, c.parent, ancestors)
    requires rows == ChildRows(id, ancestors) && InsertedAll(w.hierarchy, rows) == w.hierarchy + rows
    ensures Leads(w, StoreCreate(call, id, c, ancestors), stored) && Leads(stored, Build(call, ancestors), built)
    ensures built.companies == w.companies[id := c] && built.hierarchy == w.hierarchy + rows
    ensures built.calls == w.calls[call := Stored(id, c.parent)][call := Built(rows)]
  {
    SameListing(w.hierarchy, rows, id, c.parent, ancestors);
    stored := Apply(w, StoreCreate(call, id, c, ancestors));
    built := Apply(stored, Build(call, ancestors));
  }

  lemma TableGrows(cs: Companies, h: seq<Entry>, id: Id, c: Company, xs: seq<Entry>)
    requires Forest(cs) && IsClosure(cs, h) && Fresh(cs, id, c) && Lists(h, c.parent, xs)
    requires InsertedAll(h, ChildRows(id, xs)) == h + ChildRows(id, xs)
    ensures ChainAdded(h, cs[id := c], h + ChildRows(id, xs), id)
  {
    StoreKeepsClosure(cs, h, id, c, xs);
    GrownByChain(h, ChildRows(id, xs), cs[id := c], id);
  }

  lemma GrownByChain(h: seq<Entry>, rows: seq<Entry>, cs: Companies, id: Id)
    requires IsClosure(cs, h + rows) && forall i | 0 <= i < |rows| :: rows[i].descendant == id
    ensures ChainAdded(h, cs, h + rows, id)
  {
    forall e ensures e in h + rows <==>
      e in h || (e.descendant == id && NthParent(cs, id, e.generations) == Some(e.ancestor))
    {
      assert e in h + rows <==> NthParent(cs, e.descendant, e.generations) == Some(e.ancestor);
      assert e in rows ==> e.descendant == id;
    }
  }

  lemma Finished(w: World, call: nat, id: Id, c: Company, rows: seq<Entry>, built: World) returns (done: World)
    requires call !in w.calls
    requires built.companies == w.companies[id := c] && built.hierarchy == w.hierarchy + rows
    requires built.calls == w.calls[call := Stored(id, c.parent)][call := Built(rows)]
    ensures Leads(built, InsertEntries(call), done)
    ensures done == World(w.companies[id := c], w.hierarchy + rows, w.calls)
  {
    InsertedPresent(built.hierarchy, rows);
    done := Apply(built, InsertEntries(call));
    assert w.calls[call := Stored(id, c.parent)][call := Built(rows)] - {call} == w.calls;
  }

  /** A sign-up stores a company without a parent and its own entry; an update replaces one company but for its parent;
      giving a call up forgets it. */
  lemma OtherSteps(w: World, id: Id, c: Company, call: nat)
    requires Inv(w)
    ensures Fresh(w.companies, id, c) && c.parent.None? ==>
      && Enabled(w, SignUp(id, c))
      && Apply(w, SignUp(id, c)) == World(w.companies[id := c], w.hierarchy + [Entry(id, id, 0)], w.calls)
    ensures id in w.companies && c.parent == w.companies[id].parent ==>
      Enabled(w, Update(id, c)) && Apply(w, Update(id, c)) == w.(companies := w.companies[id := c])
    ensures call in w.calls ==>
      Enabled(w, Abandon(call)) && Apply(w, Abandon(call)) == w.(calls := w.calls - {call})
  {
    if Fresh(w.companies, id, c) && c.parent.None? {
      var rank :| Ranked(w.companies, rank);
      RowsAppended(w.companies, rank, w.hierarchy, id, None, []);
      assert ChildRows(id, []) == [Entry(id, id, 0)];
    }
  }
}

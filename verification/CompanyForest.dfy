/** The company forest as parent links, its closure table, and settings inheritance, as plain values. */
module CompanyForest {
  import opened Options

  type Id = nat

  /** A settings document as json.Unmarshal sees it. */
  datatype Document = Object(fields: map<string, string>) | NullDocument | Malformed

  datatype Company = Company(
    name: string,
    slug: string,
    kind: string,
    parent: Option<Id>,
    settings: Option<Document>,
    inheritedRoleCap: string,
    inheritedAccessLevel: string)

  datatype Entry = Entry(ancestor: Id, descendant: Id, generations: nat)

  type Companies = map<Id, Company>

  // ---------------------------------------------------------------- parent links

  /** The parent of an existing company, when that parent exists too. */
  function Parent(cs: Companies, d: Id): Option<Id> {
    if d in cs && cs[d].parent.Some? && cs[d].parent.value in cs then cs[d].parent else None
  }

  /** The g-fold parent of d. */
  function NthParent(cs: Companies, d: Id, g: nat): Option<Id>
    decreases g
  {
    if d !in cs then None
    else if g == 0 then Some(d)
    else if Parent(cs, d).None? then None
    else NthParent(cs, Parent(cs, d).value, g - 1)
  }

  /** Reflexive reachability along parent links. */
  ghost predicate Descends(cs: Companies, d: Id, a: Id) { exists g: nat :: NthParent(cs, d, g) == Some(a) }

  /** Parents were created before their children. */
  ghost predicate Ranked(cs: Companies, rank: map<Id, nat>) {
    && rank.Keys == cs.Keys
    && forall d | d in cs && Parent(cs, d).Some? :: rank[Parent(cs, d).value] < rank[d]
  }

  /** The company itself and then its ancestors, nearest first. */
  ghost function Chain(cs: Companies, rank: map<Id, nat>, d: Id): (chain: seq<Id>)
    requires Ranked(cs, rank) && d in cs
    ensures chain != [] && chain[0] == d && forall i | 0 <= i < |chain| :: chain[i] in cs
    decreases rank[d]
  {
    if Parent(cs, d).None? then [d] else [d] + Chain(cs, rank, Parent(cs, d).value)
  }

  lemma {:induction false} ChainIsNthParent(cs: Companies, rank: map<Id, nat>, d: Id, g: nat)
    requires Ranked(cs, rank) && d in cs
    ensures NthParent(cs, d, g) == if g < |Chain(cs, rank, d)| then Some(Chain(cs, rank, d)[g]) else None
    decreases rank[d]
  {
    if g > 0 && Parent(cs, d).Some? {
      ChainIsNthParent(cs, rank, Parent(cs, d).value, g - 1);
    }
  }

  /** No company is its own proper ancestor. */
  lemma {:induction false} ChainRanksFall(cs: Companies, rank: map<Id, nat>, d: Id, i: nat)
    requires Ranked(cs, rank) && d in cs && 0 < i < |Chain(cs, rank, d)|
    ensures rank[Chain(cs, rank, d)[i]] < rank[d]
    decreases rank[d]
  {
    var p := Parent(cs, d).value;
    if i > 1 { ChainRanksFall(cs, rank, p, i - 1); }
  }

  /** The closure rows of one company. */
  ghost function Row(cs: Companies, rank: map<Id, nat>, d: Id): (row: seq<Entry>)
    requires Ranked(cs, rank) && d in cs
    ensures |row| == |Chain(cs, rank, d)|
    ensures forall g | 0 <= g < |row| :: row[g] == Entry(Chain(cs, rank, d)[g], d, g)
  {
    var chain := Chain(cs, rank, d);
    seq(|chain|, g requires 0 <= g < |chain| => Entry(chain[g], d, g))
  }

  // ---------------------------------------------------------------- the closure table

  ghost predicate NoDuplicates(h: seq<Entry>) { forall i, j | 0 <= i < j < |h| :: h[i] != h[j] }

  /** The table holds (a, d, g) exactly when a is the g-fold parent of d, once. */
  ghost predicate IsClosure(cs: Companies, h: seq<Entry>) {
    && NoDuplicates(h)
    && forall e :: e in h <==> NthParent(cs, e.descendant, e.generations) == Some(e.ancestor)
  }

  /** The id is new: no company, and no company's parent link, uses it. */
  predicate Fresh(cs: Companies, id: Id, c: Company) {
    id !in cs && c.parent != Some(id) && forall d | d in cs :: cs[d].parent != Some(id)
  }

  lemma {:induction false} OldChainsKept(cs: Companies, id: Id, c: Company, d: Id, g: nat)
    requires Fresh(cs, id, c) && d != id
    ensures NthParent(cs[id := c], d, g) == NthParent(cs, d, g)
    decreases g
  {
    if d in cs && g > 0 && Parent(cs, d).Some? {
      OldChainsKept(cs, id, c, Parent(cs, d).value, g - 1);
    }
  }

  lemma RankNew(cs: Companies, rank: map<Id, nat>, id: Id, c: Company) returns (rank': map<Id, nat>)
    requires Ranked(cs, rank) && Fresh(cs, id, c)
    ensures Ranked(cs[id := c], rank') && forall d | d in cs :: rank'[d] == rank[d]
  {
    var p := Parent(cs[id := c], id);
    rank' := rank[id := if p.Some? then rank[p.value] + 1 else 0];
  }

  /** What creation appends: the new company's rows, its parent's shifted by one generation. */
  function ChildRows(id: Id, above: seq<Entry>): (rows: seq<Entry>)
    ensures |rows| == |above| + 1 && rows[0] == Entry(id, id, 0)
    ensures forall i | 0 <= i < |above| :: rows[i + 1] == Entry(above[i].ancestor, id, above[i].generations + 1)
  {
    [Entry(id, id, 0)]
    + seq(|above|, i requires 0 <= i < |above| => Entry(above[i].ancestor, id, above[i].generations + 1))
  }

  ghost function ParentRow(cs: Companies, rank: map<Id, nat>, parent: Option<Id>): seq<Entry>
    requires Ranked(cs, rank)
  {
    if parent.Some? && parent.value in cs then Row(cs, rank, parent.value) else []
  }

  lemma {:induction false} ChainKept(cs: Companies, rank: map<Id, nat>, rank': map<Id, nat>, id: Id, c: Company, d: Id)
    requires Ranked(cs, rank) && Fresh(cs, id, c) && Ranked(cs[id := c], rank') && d in cs
    ensures Chain(cs[id := c], rank', d) == Chain(cs, rank, d)
    decreases rank[d]
  {
    assert Parent(cs[id := c], d) == Parent(cs, d);
    if Parent(cs, d).Some? {
      ChainKept(cs, rank, rank', id, c, Parent(cs, d).value);
    }
  }

  lemma ChildRowsAreRow(cs: Companies, rank: map<Id, nat>, rank': map<Id, nat>, id: Id, c: Company)
    requires Ranked(cs, rank) && Fresh(cs, id, c) && Ranked(cs[id := c], rank')
    ensures ChildRows(id, ParentRow(cs, rank, c.parent)) == Row(cs[id := c], rank', id)
  {
    if c.parent.Some? && c.parent.value in cs {
      assert Parent(cs[id := c], id) == c.parent;
      ChainKept(cs, rank, rank', id, c, c.parent.value);
    }
  }

  /** Appending the new company's rows to a closure table gives the closure table of the new forest. */
  lemma ClosureGrows(cs: Companies, rank: map<Id, nat>, h: seq<Entry>, id: Id, c: Company, rank': map<Id, nat>)
    requires Ranked(cs, rank) && IsClosure(cs, h) && Fresh(cs, id, c) && Ranked(cs[id := c], rank')
    ensures IsClosure(cs[id := c], h + Row(cs[id := c], rank', id))
  {
    var cs' := cs[id := c];
    var row := Row(cs', rank', id);
    forall e ensures e in h + row <==> NthParent(cs', e.descendant, e.generations) == Some(e.ancestor) {
      if e.descendant == id {
        assert NthParent(cs, id, e.generations) == None;
        ChainIsNthParent(cs', rank', id, e.generations);
        if NthParent(cs', id, e.generations) == Some(e.ancestor) {
          assert row[e.generations] == e;
        }
      } else {
        OldChainsKept(cs, id, c, e.descendant, e.generations);
      }
    }
    forall e | e in h ensures e !in row {
      assert NthParent(cs, e.descendant, e.generations) == Some(e.ancestor);
    }
    assert forall i, j | 0 <= i < |h| && 0 <= j < |row| :: h[i] in h && row[j] in row;
  }

  /** insertHierarchy on a table. */
  function Inserted(h: seq<Entry>, e: Entry): seq<Entry> { if e in h then h else h + [e] }

  function InsertedAll(h: seq<Entry>, entries: seq<Entry>): seq<Entry> {
    if entries == [] then h else Inserted(InsertedAll(h, entries[..|entries| - 1]), entries[|entries| - 1])
  }

  lemma InsertedNext(h: seq<Entry>, entries: seq<Entry>, i: nat)
    requires i < |entries|
    ensures InsertedAll(h, entries[..i + 1]) == Inserted(InsertedAll(h, entries[..i]), entries[i])
  {
    assert entries[..i + 1][..i] == entries[..i];
  }

  /** Entries that are all there change nothing. */
  lemma {:induction false} InsertedPresent(h: seq<Entry>, entries: seq<Entry>)
    requires forall i | 0 <= i < |entries| :: entries[i] in h
    ensures InsertedAll(h, entries) == h
  {
    if entries != [] { InsertedPresent(h, entries[..|entries| - 1]); }
  }

  // ---------------------------------------------------------------- reading the table back

  function EntriesOf(h: seq<Entry>, d: Id): seq<Entry> {
    if h == [] then []
    else EntriesOf(h[..|h| - 1], d) + (if h[|h| - 1].descendant == d then [h[|h| - 1]] else [])
  }

  function EntriesUnder(h: seq<Entry>, a: Id): seq<Entry> {
    if h == [] then []
    else EntriesUnder(h[..|h| - 1], a) + (if h[|h| - 1].ancestor == a then [h[|h| - 1]] else [])
  }

  lemma EntriesOfStep(h: seq<Entry>, i: nat, d: Id)
    requires i < |h|
    ensures multiset(EntriesOf(h[..i + 1], d))
         == multiset(EntriesOf(h[..i], d)) + (if h[i].descendant == d then multiset{h[i]} else multiset{})
  {
    assert h[..i + 1][..i] == h[..i];
  }

  lemma EntriesUnderStep(h: seq<Entry>, i: nat, a: Id)
    requires i < |h|
    ensures multiset(EntriesUnder(h[..i + 1], a))
         == multiset(EntriesUnder(h[..i], a)) + (if h[i].ancestor == a then multiset{h[i]} else multiset{})
  {
    assert h[..i + 1][..i] == h[..i];
  }

  lemma {:induction false} EntriesUnderMembers(h: seq<Entry>, a: Id, e: Entry)
    ensures e in EntriesUnder(h, a) <==> e in h && e.ancestor == a
  {
    if h != [] {
      var last := h[|h| - 1];
      EntriesUnderMembers(h[..|h| - 1], a, e);
      assert h == h[..|h| - 1] + [last];
    }
  }

  ghost predicate ByGenerations(xs: seq<Entry>) {
    forall i, j | 0 <= i < j < |xs| :: xs[i].generations <= xs[j].generations
  }

  lemma {:induction false} EntriesOfMembers(h: seq<Entry>, d: Id, e: Entry)
    ensures multiset(EntriesOf(h, d))[e] == if e.descendant == d then multiset(h)[e] else 0
  {
    if h != [] {
      var last := h[|h| - 1];
      EntriesOfMembers(h[..|h| - 1], d, e);
      assert h == h[..|h| - 1] + [last];
    }
  }

  lemma {:induction false} NoDuplicatesCounts(h: seq<Entry>, e: Entry)
    requires NoDuplicates(h)
    ensures multiset(h)[e] == if e in h then 1 else 0
  {
    if h != [] {
      var last := h[|h| - 1];
      NoDuplicatesCounts(h[..|h| - 1], e);
      assert h == h[..|h| - 1] + [last];
    }
  }

  lemma {:induction false} StrictOrderIsUnique(xs: seq<Entry>, ys: seq<Entry>)
    requires forall i, j | 0 <= i < j < |xs| :: xs[i].generations < xs[j].generations
    requires forall i, j | 0 <= i < j < |ys| :: ys[i].generations < ys[j].generations
    requires forall e :: e in xs <==> e in ys
    ensures xs == ys
  {
    assert ys != [] ==> ys[0] in ys;
    if xs != [] {
      assert xs[0] in ys && ys[0] in xs;
      assert xs[0] == ys[0];
      forall e ensures e in xs[1..] <==> e in ys[1..] {
        assert e in xs <==> e == xs[0] || e in xs[1..];
        assert e in ys <==> e == ys[0] || e in ys[1..];
      }
      StrictOrderIsUnique(xs[1..], ys[1..]);
      assert xs == [xs[0]] + xs[1..] && ys == [ys[0]] + ys[1..];
    }
  }

  /** In a closure table, any generation-sorted listing of a company's entries is its parent chain,
      nearest first; an unknown company has none. */
  lemma SortedEntriesAreRow(cs: Companies, rank: map<Id, nat>, h: seq<Entry>, d: Id, xs: seq<Entry>)
    requires Ranked(cs, rank) && IsClosure(cs, h)
    requires ByGenerations(xs) && multiset(xs) == multiset(EntriesOf(h, d))
    ensures xs == ParentRow(cs, rank, Some(d))
  {
    var row := ParentRow(cs, rank, Some(d));
    forall e ensures multiset(xs)[e] == (if e in row then 1 else 0) && (e in xs <==> e in row) {
      ListedOnce(cs, rank, h, d, e);
      assert e in xs <==> multiset(xs)[e] > 0;
    }
    StrictByCount(cs, rank, d, xs);
    StrictOrderIsUnique(xs, row);
  }

  /** A company's rows are in the table once each, and no other entry has it as descendant. */
  lemma ListedOnce(cs: Companies, rank: map<Id, nat>, h: seq<Entry>, d: Id, e: Entry)
    requires Ranked(cs, rank) && IsClosure(cs, h)
    ensures multiset(EntriesOf(h, d))[e] == if e in ParentRow(cs, rank, Some(d)) then 1 else 0
  {
    var row := ParentRow(cs, rank, Some(d));
    EntriesOfMembers(h, d, e);
    NoDuplicatesCounts(h, e);
    if d in cs {
      ChainIsNthParent(cs, rank, d, e.generations);
      if e in h && e.descendant == d { assert row[e.generations] == e; }
      if e in row { assert e in h; }
    }
  }

  lemma StrictByCount(cs: Companies, rank: map<Id, nat>, d: Id, xs: seq<Entry>)
    requires Ranked(cs, rank) && ByGenerations(xs)
    requires forall e :: multiset(xs)[e] == (if e in ParentRow(cs, rank, Some(d)) then 1 else 0)
    ensures forall i, j | 0 <= i < j < |xs| :: xs[i].generations < xs[j].generations
  {
    var row := ParentRow(cs, rank, Some(d));
    forall i, j | 0 <= i < j < |xs| ensures xs[i].generations < xs[j].generations {
      assert xs[i] in multiset(xs) && xs[j] in multiset(xs);
      if xs[i].generations == xs[j].generations {
        assert xs[i] == xs[j];
        TwiceCounted(xs, i, j);
      }
    }
  }

  lemma TwiceCounted(xs: seq<Entry>, i: nat, j: nat)
    requires i < j < |xs| && xs[i] == xs[j]
    ensures multiset(xs)[xs[i]] >= 2
  {
    assert xs == xs[..j] + [xs[j]] + xs[j + 1..];
    assert xs[i] in xs[..j];
  }

  // ---------------------------------------------------------------- settings inheritance

  /** Keys a settings document contributes; anything but an object contributes none. */
  function Fields(s: Option<Document>): map<string, string> {
    if s.Some? && s.value.Object? then s.value.fields else map[]
  }

  /** Own settings overlaid on the parent's effective settings. */
  ghost function Effective(cs: Companies, rank: map<Id, nat>, d: Id): map<string, string>
    requires Ranked(cs, rank) && d in cs
    decreases rank[d]
  {
    Inherited(cs, rank, d) + Fields(cs[d].settings)
  }

  ghost function Inherited(cs: Companies, rank: map<Id, nat>, d: Id): map<string, string>
    requires Ranked(cs, rank) && d in cs
    decreases rank[d], 0
  {
    if Parent(cs, d).None? then map[] else Effective(cs, rank, Parent(cs, d).value)
  }

  /** Filling in missing keys from each of a list of companies in turn. */
  function FillFrom(merged: map<string, string>, list: seq<Company>): map<string, string>
    decreases list
  {
    if list == [] then merged else FillFrom(Fields(list[0].settings) + merged, list[1..])
  }

  ghost function Lookup(cs: Companies, ids: seq<Id>): seq<Company>
    requires forall i | 0 <= i < |ids| :: ids[i] in cs
  {
    seq(|ids|, i requires 0 <= i < |ids| => cs[ids[i]])
  }

  lemma {:induction false} FillIsOverlay(cs: Companies, rank: map<Id, nat>, d: Id, merged: map<string, string>)
    requires Ranked(cs, rank) && d in cs
    ensures FillFrom(merged, Lookup(cs, Chain(cs, rank, d))) == Effective(cs, rank, d) + merged
    decreases rank[d]
  {
    var own := Fields(cs[d].settings);
    if Parent(cs, d).None? {
      var list := Lookup(cs, Chain(cs, rank, d));
      assert list[1..] == [];
      assert FillFrom(own + merged, list[1..]) == own + merged;
    } else {
      var p := Parent(cs, d).value;
      LookupOfChain(cs, rank, d);
      FillIsOverlay(cs, rank, p, own + merged);
      OverlayIsAssociative(Effective(cs, rank, p), own, merged);
    }
  }

  /** The company x contributes the value v for key k: its document is an object with that member. */
  predicate Contributes(c: Company, k: string, v: string) {
    c.settings.Some? && c.settings.value.Object? && k in c.settings.value.fields && c.settings.value.fields[k] == v
  }

  /** Effective settings, key by key: the value of the nearest company up the chain, itself included, whose document
      has the key; no value when none has it. */
  lemma {:induction false} EffectiveIsNearest(cs: Companies, rank: map<Id, nat>, d: Id, k: string, v: string)
    requires Ranked(cs, rank) && d in cs
    ensures k in Effective(cs, rank, d) && Effective(cs, rank, d)[k] == v <==>
      exists i: nat :: NearestHas(cs, rank, d, k, v, i)
    decreases rank[d]
  {
    var chain := Chain(cs, rank, d);
    if k in Fields(cs[d].settings) {
      assert Contributes(cs[d], k, Fields(cs[d].settings)[k]) && chain[0] == d;
      if Contributes(cs[d], k, v) { assert NearestHas(cs, rank, d, k, v, 0); }
      if i: nat :| NearestHas(cs, rank, d, k, v, i) { assert i == 0; }
    } else if Parent(cs, d).Some? {
      var p := Parent(cs, d).value;
      EffectiveIsNearest(cs, rank, p, k, v);
      if i: nat :| NearestHas(cs, rank, p, k, v, i) {
        NearestShifts(cs, rank, d, k, v, i);
      }
      if i: nat :| NearestHas(cs, rank, d, k, v, i) {
        NearestShifts(cs, rank, d, k, v, i - 1);
      }
    }
  }

  /** Company i of the chain is the first with the key, and v is its value. */
  ghost predicate NearestHas(cs: Companies, rank: map<Id, nat>, d: Id, k: string, v: string, i: nat)
    requires Ranked(cs, rank) && d in cs
  {
    var chain := Chain(cs, rank, d);
    && i < |chain| && Contributes(cs[chain[i]], k, v)
    && forall j: nat, u: string | j < i :: !Contributes(cs[chain[j]], k, u)
  }

  lemma NearestShifts(cs: Companies, rank: map<Id, nat>, d: Id, k: string, v: string, i: int)
    requires Ranked(cs, rank) && d in cs && Parent(cs, d).Some? && k !in Fields(cs[d].settings) && i >= -1
    ensures i >= 0 ==> (NearestHas(cs, rank, Parent(cs, d).value, k, v, i) <==> NearestHas(cs, rank, d, k, v, i + 1))
    ensures i == -1 ==> !NearestHas(cs, rank, d, k, v, 0)
  {
    var chain, above := Chain(cs, rank, d), Chain(cs, rank, Parent(cs, d).value);
    assert chain == [d] + above;
    assert forall j: nat | j < |above| :: above[j] == chain[j + 1];
    assert forall u :: !Contributes(cs[d], k, u);
    if i >= 0 {
      if NearestHas(cs, rank, Parent(cs, d).value, k, v, i) {
        forall j: nat, u: string | j < i + 1 ensures !Contributes(cs[chain[j]], k, u) {
          if j > 0 { assert chain[j] == above[j - 1]; }
        }
      }
      if NearestHas(cs, rank, d, k, v, i + 1) {
        forall j: nat, u: string | j < i ensures !Contributes(cs[above[j]], k, u) {
          assert above[j] == chain[j + 1];
        }
      }
    }
  }

  lemma LookupOfChain(cs: Companies, rank: map<Id, nat>, d: Id)
    requires Ranked(cs, rank) && d in cs && Parent(cs, d).Some?
    ensures var list := Lookup(cs, Chain(cs, rank, d));
      list != [] && list[0] == cs[d] && list[1..] == Lookup(cs, Chain(cs, rank, Parent(cs, d).value))
  {}

  lemma OverlayIsAssociative(a: map<string, string>, b: map<string, string>, c: map<string, string>)
    ensures a + (b + c) == (a + b) + c
  {}
}

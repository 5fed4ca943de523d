/**
 The in-memory company store and the company service over it. The service and the store both insert the
 closure entries of a new company; the table is nevertheless exactly the closure of the parent links.
 */
module CompanyService {
  import opened Options
  import opened CompanyForest
  import Text

  datatype Failure = NameRequired | NotFound | Undecodable | Crash

  predicate Blank(s: string) { Text.TrimSpace(s) == "" }

  lemma BlankIff(s: string)
    ensures Blank(s) <==> forall i | 0 <= i < |s| :: Text.IsSpace(s[i])
  {
    var before, after := Text.TrimSpaceIs(s);
    var t := Text.TrimSpace(s);
    if t != "" {
      assert s[|before|] == t[0];
    } else {
      assert s == before + after;
    }
  }

  predicate SlugChar(c: char) { 'a' <= c <= 'z' || '0' <= c <= '9' || c == '-' }

  /** Spaces become dashes; other characters outside the slug alphabet go. */
  function SlugBody(s: string): string {
    if s == [] then []
    else
      var last := if s[|s| - 1] == ' ' then '-' else s[|s| - 1];
      SlugBody(s[..|s| - 1]) + if SlugChar(last) then [last] else []
  }

  function Slug(name: string, lower: string -> string, stamp: string): string {
    var body := SlugBody(lower(Text.TrimSpace(name)));
    (if body == "" then "company" else body) + "-" + stamp
  }

  /** generateSlug, with lower-casing and the time of day as inputs. */
  method GenerateSlug(name: string, lower: string -> string, stamp: string) returns (slug: string)
    ensures slug == Slug(name, lower, stamp)
    ensures var body := SlugBody(lower(Text.TrimSpace(name)));
      slug == (if body == "" then "company" else body) + "-" + stamp
  {
    var text := lower(Text.TrimSpace(name));
    var body := "";
    for i := 0 to |text|
      invariant body == SlugBody(text[..i])
    {
      assert text[..i + 1][..i] == text[..i];
      var c := if text[i] == ' ' then '-' else text[i];
      if SlugChar(c) { body := body + [c]; }
    }
    assert text[..|text|] == text;
    if body == "" { body := "company"; }
    slug := body + "-" + stamp;
  }

  /** Character by character: a lower-case letter, a digit or a dash stays, a space becomes a dash, the rest goes. */
  lemma SlugBodyNext(s: string, c: char)
    ensures SlugBody("") == "" && SlugBody(s + [c]) == SlugBody(s) +
      if 'a' <= c <= 'z' || '0' <= c <= '9' || c == '-' then [c] else if c == ' ' then "-" else ""
  {
    assert (s + [c])[..|s|] == s;
  }

  /** Whatever the name, the generated part is in the slug alphabet. */
  lemma {:induction false} SlugBodyIsClean(s: string)
    ensures forall i | 0 <= i < |SlugBody(s)| :: SlugChar(SlugBody(s)[i])
  {
    if s != [] { SlugBodyIsClean(s[..|s| - 1]); }
  }

  /** Insertion of one entry into a generation-sorted list. */
  method InsertByGenerations(xs: seq<Entry>, e: Entry) returns (ys: seq<Entry>)
    requires ByGenerations(xs)
    ensures ByGenerations(ys) && multiset(ys) == multiset(xs) + multiset{e}
  {
    var i := |xs|;
    while i > 0 && e.generations < xs[i - 1].generations
      invariant 0 <= i <= |xs|
      invariant forall j | i <= j < |xs| :: e.generations <= xs[j].generations
    {
      i := i - 1;
    }
    ys := xs[..i] + [e] + xs[i..];
    assert multiset(ys) == multiset(xs) + multiset{e} by {
      assert xs == xs[..i] + xs[i..];
    }
    InsertedInOrder(xs, e, i, ys);
  }

  lemma InsertedInOrder(xs: seq<Entry>, e: Entry, i: nat, ys: seq<Entry>)
    requires ByGenerations(xs) && i <= |xs| && ys == xs[..i] + [e] + xs[i..]
    requires i > 0 ==> xs[i - 1].generations <= e.generations
    requires forall j | i <= j < |xs| :: e.generations <= xs[j].generations
    ensures ByGenerations(ys)
  {
    assert forall j | 0 <= j < i :: ys[j] == xs[j] && xs[j].generations <= e.generations;
    assert forall j | i < j < |ys| :: ys[j] == xs[j - 1];
  }

  class Backend {
    var companies: map<Id, Company>
    var hierarchy: seq<Entry>
    ghost var rank: map<Id, nat>
    const defaultSettings: Document

    ghost predicate Valid() reads this {
      Ranked(companies, rank) && IsClosure(companies, hierarchy)
    }

    constructor (defaultSettings: Document)
      ensures Valid() && companies == map[] && hierarchy == [] && this.defaultSettings == defaultSettings
    {
      companies, hierarchy, rank := map[], [], map[];
      this.defaultSettings := defaultSettings;
    }

    /** insertHierarchy: append unless the very entry is already there. */
    method InsertHierarchy(e: Entry)
      modifies this`hierarchy
      ensures hierarchy == Inserted(old(hierarchy), e)
    {
      for i := 0 to |hierarchy|
        invariant e !in hierarchy[..i] && hierarchy == old(hierarchy)
      {
        if hierarchy[i] == e { return; }
      }
      assert hierarchy[..|hierarchy|] == hierarchy;
      hierarchy := hierarchy + [e];
    }

    /** getAncestors: filter by descendant, sort by generations. */
    method GetAncestorEntries(d: Id) returns (xs: seq<Entry>)
      ensures ByGenerations(xs) && multiset(xs) == multiset(EntriesOf(hierarchy, d))
    {
      xs := [];
      for i := 0 to |hierarchy|
        invariant ByGenerations(xs) && multiset(xs) == multiset(EntriesOf(hierarchy[..i], d))
      {
        EntriesOfStep(hierarchy, i, d);
        if hierarchy[i].descendant == d {
          xs := InsertByGenerations(xs, hierarchy[i]);
        }
      }
      assert hierarchy[..|hierarchy|] == hierarchy;
    }

    /** Each entry in turn, unless it is there. */
    method InsertHierarchyEntries(entries: seq<Entry>)
      modifies this`hierarchy
      ensures hierarchy == InsertedAll(old(hierarchy), entries)
    {
      for i := 0 to |entries|
        invariant hierarchy == InsertedAll(old(hierarchy), entries[..i])
      {
        InsertedNext(old(hierarchy), entries, i);
        InsertHierarchy(entries[i]);
      }
      assert entries[..|entries|] == entries;
    }

    /** CompanyStore.CreateCompany: the table grows by exactly the new company's parent chain. */
    method StoreCompany(id: Id, c: Company) returns (stored: Company)
      requires Valid() && Fresh(companies, id, c)
      modifies this
      ensures Valid() && companies == old(companies)[id := stored]
      ensures stored == c.(settings := if c.settings.None? then Some(defaultSettings) else c.settings,
                           kind := if c.kind == "" then "standalone" else c.kind)
      ensures hierarchy == old(hierarchy) + Row(companies, rank, id)
    {
      stored := c;
      if stored.settings.None? { stored := stored.(settings := Some(defaultSettings)); }
      if stored.kind == "" { stored := stored.(kind := "standalone"); }
      var ancestors := ParentEntries(stored.parent);
      NoRowsYet(companies, rank, hierarchy, id, stored.parent);
      AppendChain(id, ancestors);
      ghost var rank' := Grown(companies, rank, old(hierarchy), id, stored);
      companies, rank := companies[id := stored], rank';
    }

    /** The parent's chain, as the table lists it. */
    method ParentEntries(parent: Option<Id>) returns (xs: seq<Entry>)
      requires Valid()
      ensures xs == ParentRow(companies, rank, parent)
    {
      if parent.None? { return []; }
      xs := GetAncestorEntries(parent.value);
      SortedEntriesAreRow(companies, rank, hierarchy, parent.value, xs);
    }

    /** The store's inserts for a new company, whose entries cannot be in the table yet. */
    method AppendChain(id: Id, ancestors: seq<Entry>)
      requires forall e | e in hierarchy :: e.descendant != id
      requires forall i, j | 0 <= i < j < |ancestors| :: ancestors[i].generations < ancestors[j].generations
      modifies this`hierarchy
      ensures hierarchy == old(hierarchy) + ChildRows(id, ancestors)
    {
      ghost var before, rows := hierarchy, ChildRows(id, ancestors);
      InsertHierarchy(Entry(id, id, 0));
      assert hierarchy == before + rows[..1];
      for i := 0 to |ancestors|
        invariant hierarchy == before + rows[..i + 1]
      {
        assert rows[i + 1] !in hierarchy by { NewRowIsNew(id, ancestors, i, before); }
        InsertHierarchy(ChildRow(id, ancestors[i]));
        OneLonger(before, rows, i + 1);
      }
      assert rows[..|ancestors| + 1] == rows;
    }

    static function ChildRow(id: Id, above: Entry): Entry { Entry(above.ancestor, id, above.generations + 1) }

    /** AuthStore.CreateCompany: a root with the default settings. */
    method SignUpCompany(id: Id, name: string, slug: string, kind: string) returns (stored: Company)
      requires Valid() && Fresh(companies, id, Company(name, slug, kind, None, None, "", ""))
      modifies this
      ensures Valid() && companies == old(companies)[id := stored]
      ensures hierarchy == old(hierarchy) + [Entry(id, id, 0)]
      ensures stored
           == Company(name, slug, if kind == "" then "standalone" else kind, None, Some(defaultSettings), "", "")
    {
      stored := Company(name, slug, if kind == "" then "standalone" else kind, None, Some(defaultSettings), "", "");
      ghost var rank' := RankNew(companies, rank, id, stored);
      ClosureGrows(companies, rank, hierarchy, id, stored, rank');
      assert Row(companies[id := stored], rank', id) == [Entry(id, id, 0)];
      assert NthParent(companies, id, 0) == None;
      InsertHierarchy(Entry(id, id, 0));
      companies, rank := companies[id := stored], rank';
    }

    /** CompanyStore.UpdateCompany: never moves a company. */
    method UpdateCompany(id: Id, c: Company) returns (r: Result<Company, Failure>)
      requires Valid()
      modifies this`companies
      ensures Valid() && (r.Ok? <==> id in old(companies))
      ensures r.Err? ==> r.error == NotFound && companies == old(companies)
      ensures r.Ok? ==> companies == old(companies)[id := r.value] && r.value.parent == old(companies)[id].parent
      ensures r.Ok? ==> r.value.settings == (if c.settings.Some? then c.settings else old(companies)[id].settings)
      ensures r.Ok? ==> r.value.name == (if c.name != "" then c.name else old(companies)[id].name)
      ensures r.Ok? ==> r.value.slug == (if c.slug != "" then c.slug else old(companies)[id].slug)
      ensures r.Ok? ==> r.value.kind == (if c.kind != "" then c.kind else old(companies)[id].kind)
      ensures r.Ok? ==>
        r.value.inheritedRoleCap == c.inheritedRoleCap && r.value.inheritedAccessLevel == c.inheritedAccessLevel
    {
      if id !in companies { return Err(NotFound); }
      var current := companies[id];
      if c.name != "" { current := current.(name := c.name); }
      if c.slug != "" { current := current.(slug := c.slug); }
      if c.kind != "" { current := current.(kind := c.kind); }
      current := current.(inheritedRoleCap := c.inheritedRoleCap, inheritedAccessLevel := c.inheritedAccessLevel);
      if c.settings.Some? { current := current.(settings := c.settings); }
      ghost var before := companies;
      companies := companies[id := current];
      SameLinksSameClosure(before, companies, rank, hierarchy);
      return Ok(current);
    }

    /** The closure entries the service computes for a new company. */
    method BuildEntries(id: Id, parent: Option<Id>) returns (entries: seq<Entry>)
      requires Valid()
      ensures entries == if parent.None? then [Entry(id, id, 0)] else ChildRows(id, ParentRow(companies, rank, parent))
    {
      entries := [Entry(id, id, 0)];
      if parent.Some? {
        var ancestors := ParentEntries(parent);
        entries := EntriesAbove(id, ancestors);
      }
    }

    static method EntriesAbove(id: Id, ancestors: seq<Entry>) returns (entries: seq<Entry>)
      ensures entries == ChildRows(id, ancestors)
    {
      entries := [Entry(id, id, 0)];
      for i := 0 to |ancestors|
        invariant |entries| == i + 1 && entries[0] == Entry(id, id, 0)
        invariant forall j | 0 <= j < i :: entries[j + 1] == ChildRow(id, ancestors[j])
      {
        entries := entries + [ChildRow(id, ancestors[i])];
      }
      assert forall k | 1 <= k < |entries| :: entries[k] == entries[(k - 1) + 1];
    }

    /** Service.CreateCompany: the store has already inserted every entry the service then inserts. */
    method CreateCompany(id: Id, name: string, slug: string, kind: string, parent: Option<Id>,
                         settings: Option<Document>,
                         lower: string -> string, stamp: string)
      returns (r: Result<Company, Failure>)
      requires Valid() && Fresh(companies, id, Company(name, slug, kind, parent, settings, "", ""))
      modifies this
      ensures Valid() && (r.Err? <==> forall i | 0 <= i < |name| :: Text.IsSpace(name[i]))
      ensures r.Err? ==> r.error == NameRequired && companies == old(companies) && hierarchy == old(hierarchy)
      ensures r.Ok? ==> companies == old(companies)[id := r.value]
      ensures r.Ok? ==> r.value == Company(
        name,
        if slug == "" then Slug(name, lower, stamp) else slug,
        if kind == "" then "standalone" else kind,
        parent,
        if settings.None? then Some(Object(map["enabled_features" := "[]"])) else settings, "", "")
      ensures r.Ok? ==> hierarchy == old(hierarchy) + Row(companies, rank, id)
    {
      BlankIff(name);
      if Blank(name) { return Err(NameRequired); }
      var c := NewCompany(name, slug, kind, parent, settings, lower, stamp);
      var stored := StoreCompany(id, c);
      InsertClosure(id, parent);
      return Ok(stored);
    }

    /** The service's own inserts, after the store's: every entry is already there. */
    method InsertClosure(id: Id, parent: Option<Id>)
      requires Valid() && id in companies && companies[id].parent == parent
      modifies this`hierarchy
      ensures hierarchy == old(hierarchy)
    {
      var entries := BuildEntries(id, parent);
      AlreadyThere(companies, rank, hierarchy, id, entries);
      InsertedPresent(hierarchy, entries);
      InsertHierarchyEntries(entries);
    }

    static method NewCompany(name: string, slug: string, kind: string, parent: Option<Id>, settings: Option<Document>,
                             lower: string -> string, stamp: string)
      returns (c: Company)
      ensures c == Company(
        name,
        if slug == "" then Slug(name, lower, stamp) else slug,
        if kind == "" then "standalone" else kind,
        parent,
        if settings.None? then Some(Object(map["enabled_features" := "[]"])) else settings, "", "")
    {
      var chosen := slug;
      if slug == "" { chosen := GenerateSlug(name, lower, stamp); }
      c := Company(name, chosen, if kind == "" then "standalone" else kind, parent,
                   if settings.None? then Some(Object(map["enabled_features" := "[]"])) else settings, "", "");
    }

    /** Service.GetAncestors: the proper ancestors, nearest first. */
    method GetAncestors(d: Id) returns (list: seq<Company>)
      requires Valid()
      ensures d !in companies ==> list == []
      ensures d in companies ==> list == Lookup(companies, Chain(companies, rank, d)[1..])
    {
      var entries := GetAncestorEntries(d);
      SortedEntriesAreRow(companies, rank, hierarchy, d, entries);
      if d in companies {
        ChainHasSelfOnce(companies, rank, d);
        list := Resolve(d, entries, Chain(companies, rank, d));
      } else {
        list := Resolve(d, entries, []);
      }
    }

    /** The loop that skips the company itself and looks the others up. */
    method Resolve(d: Id, entries: seq<Entry>, ghost chain: seq<Id>) returns (list: seq<Company>)
      requires |entries| == |chain|
      requires forall i | 0 <= i < |chain| :: entries[i].ancestor == chain[i] && chain[i] in companies
      requires chain != [] ==> chain[0] == d && forall i | 0 < i < |chain| :: chain[i] != d
      ensures list == Lookup(companies, if chain == [] then [] else chain[1..])
    {
      list := [];
      for i := 0 to |entries|
        invariant |list| == if i == 0 then 0 else i - 1
        invariant forall j | 0 < j < i :: list[j - 1] == companies[chain[j]]
      {
        var a := entries[i].ancestor;
        if a != d && a in companies {
          list := list + [companies[a]];
        }
      }
    }

    /** CompanyStore.GetDescendants: filter by ancestor, sort by generations. */
    method GetDescendants(a: Id) returns (xs: seq<Entry>)
      requires Valid()
      ensures ByGenerations(xs)
      ensures forall e :: e in xs <==> e.ancestor == a && NthParent(companies, e.descendant, e.generations) == Some(a)
    {
      xs := SortEntriesUnder(hierarchy, a);
      UnderIsReachable(companies, hierarchy, a, xs);
    }

    /** Service.IsDescendantOf is reflexive reachability along parent links. */
    method IsDescendantOf(d: Id, a: Id) returns (r: bool)
      requires Valid()
      ensures r <==> Descends(companies, d, a)
    {
      var descendants := GetDescendants(a);
      for i := 0 to |descendants|
        invariant forall j | 0 <= j < i :: descendants[j].descendant != d
      {
        if descendants[i].descendant == d {
          assert descendants[i] in descendants;
          assert NthParent(companies, d, descendants[i].generations) == Some(a);
          return true;
        }
      }
      forall g: nat ensures NthParent(companies, d, g) != Some(a) {
        assert Entry(a, d, g) in descendants <==> NthParent(companies, d, g) == Some(a);
      }
      return false;
    }

    /** Service.GetEffectiveSettings equals the recursive definition. The one trap is a company whose own
        document is JSON null: the merge map becomes nil, so the first inherited key panics. */
    method GetEffectiveSettings(d: Id) returns (r: Result<Option<map<string, string>>, Failure>)
      requires Valid()
      ensures d !in companies ==> r == Err(NotFound)
      ensures d in companies && companies[d].settings == Some(Malformed) ==> r == Err(Undecodable)
      ensures d in companies && companies[d].settings == Some(NullDocument) ==>
        r == if Inherited(companies, rank, d) == map[] then Ok(None) else Err(Crash)
      ensures d in companies && companies[d].settings !in {Some(Malformed), Some(NullDocument)} ==>
        r == Ok(Some(Effective(companies, rank, d)))
    {
      if d !in companies { return Err(NotFound); }
      var own := companies[d].settings;
      if own == Some(Malformed) { return Err(Undecodable); }
      var isNil := own == Some(NullDocument);
      var merged := Fields(own);
      var ancestors := GetAncestors(d);
      InheritedIsFill(companies, rank, d);
      ghost var total := FillFrom(merged, ancestors);
      for i := 0 to |ancestors|
        invariant FillFrom(merged, ancestors[i..]) == total
        invariant isNil ==> merged == map[]
      {
        var more := Fields(ancestors[i].settings);
        if isNil && more != map[] {
          FillGrows(more + merged, ancestors[i..][1..]);
          return Err(Crash);
        }
        merged := FillMissing(merged, more);
        assert ancestors[i..][1..] == ancestors[i + 1..];
      }
      return Ok(if isNil then None else Some(merged));
    }
  }

  /** A child whose own document is JSON null, under a parent with any key: its effective settings panic. */
  method NullSettingsCrash(parent: Id, child: Id, key: string, value: string, defaults: Document)
      returns (r: Result<Option<map<string, string>>, Failure>)
    requires parent != child
    ensures r == Err(Crash)
  {
    var b := new Backend(defaults);
    var root := b.StoreCompany(parent, Company("parent", "p", "", None, Some(Object(map[key := value])), "", ""));
    var leaf := b.StoreCompany(child, Company("child", "c", "", Some(parent), Some(NullDocument), "", ""));
    assert Parent(b.companies, child) == Some(parent) && Parent(b.companies, parent) == None;
    assert key in Inherited(b.companies, b.rank, child);
    r := b.GetEffectiveSettings(child);
  }

  method SortEntriesUnder(hierarchy: seq<Entry>, a: Id) returns (xs: seq<Entry>)
    ensures ByGenerations(xs) && multiset(xs) == multiset(EntriesUnder(hierarchy, a))
  {
    xs := [];
    for i := 0 to |hierarchy|
      invariant ByGenerations(xs) && multiset(xs) == multiset(EntriesUnder(hierarchy[..i], a))
    {
      EntriesUnderStep(hierarchy, i, a);
      if hierarchy[i].ancestor == a {
        xs := InsertByGenerations(xs, hierarchy[i]);
      }
    }
    assert hierarchy[..|hierarchy|] == hierarchy;
  }

  /** The inner loop over one ancestor's keys, in whatever order they come. */
  method FillMissing(merged: map<string, string>, more: map<string, string>) returns (r: map<string, string>)
    ensures r == more + merged
  {
    r := merged;
    var rest := more.Keys;
    while rest != {}
      invariant rest <= more.Keys
      invariant r.Keys == merged.Keys + (more.Keys - rest)
      invariant forall k | k in r :: r[k] == if k in merged then merged[k] else more[k]
      decreases |rest|
    {
      var k :| k in rest;
      if k !in r { r := r[k := more[k]]; }
      rest := rest - {k};
    }
  }

  /** A company that does not exist has no rows; a parent's rows are one per generation. */
  lemma NoRowsYet(cs: Companies, rank: map<Id, nat>, h: seq<Entry>, id: Id, parent: Option<Id>)
    requires Ranked(cs, rank) && IsClosure(cs, h) && id !in cs
    ensures forall e | e in h :: e.descendant != id
    ensures var row := ParentRow(cs, rank, parent);
      forall i, j | 0 <= i < j < |row| :: row[i].generations < row[j].generations
  {
    forall e | e in h ensures e.descendant != id {
      assert NthParent(cs, e.descendant, e.generations) == Some(e.ancestor);
    }
  }

  lemma Grown(cs: Companies, rank: map<Id, nat>, h: seq<Entry>, id: Id, c: Company) returns (rank': map<Id, nat>)
    requires Ranked(cs, rank) && IsClosure(cs, h) && Fresh(cs, id, c)
    ensures Ranked(cs[id := c], rank')
    ensures Row(cs[id := c], rank', id) == ChildRows(id, ParentRow(cs, rank, c.parent))
    ensures IsClosure(cs[id := c], h + Row(cs[id := c], rank', id))
  {
    rank' := RankNew(cs, rank, id, c);
    ChildRowsAreRow(cs, rank, rank', id, c);
    ClosureGrows(cs, rank, h, id, c, rank');
  }

  lemma OneLonger(h: seq<Entry>, rows: seq<Entry>, i: nat)
    requires i < |rows|
    ensures h + rows[..i] + [rows[i]] == h + rows[..i + 1]
  {
  }

  lemma NewRowIsNew(id: Id, ancestors: seq<Entry>, i: nat, h: seq<Entry>)
    requires i < |ancestors| && forall e | e in h :: e.descendant != id
    requires forall i, j | 0 <= i < j < |ancestors| :: ancestors[i].generations < ancestors[j].generations
    ensures ChildRows(id, ancestors)[i + 1] !in h + ChildRows(id, ancestors)[..i + 1]
  {
    var rows := ChildRows(id, ancestors);
    assert rows[i + 1].descendant == id;
    forall k | 0 <= k < i + 1 ensures rows[k].generations != rows[i + 1].generations {
      if k > 0 { assert rows[(k - 1) + 1].generations == ancestors[k - 1].generations + 1; }
    }
  }

  lemma ChainHasSelfOnce(cs: Companies, rank: map<Id, nat>, d: Id)
    requires Ranked(cs, rank) && d in cs
    ensures forall i | 0 < i < |Chain(cs, rank, d)| :: Chain(cs, rank, d)[i] != d
  {
    forall i | 0 < i < |Chain(cs, rank, d)| ensures Chain(cs, rank, d)[i] != d {
      ChainRanksFall(cs, rank, d, i);
    }
  }

  lemma UnderIsReachable(cs: Companies, h: seq<Entry>, a: Id, xs: seq<Entry>)
    requires IsClosure(cs, h) && multiset(xs) == multiset(EntriesUnder(h, a))
    ensures forall e :: e in xs <==> e.ancestor == a && NthParent(cs, e.descendant, e.generations) == Some(a)
  {
    forall e ensures e in xs <==> e.ancestor == a && NthParent(cs, e.descendant, e.generations) == Some(a) {
      EntriesUnderMembers(h, a, e);
      assert e in xs <==> e in multiset(xs);
      assert e in EntriesUnder(h, a) <==> e in multiset(EntriesUnder(h, a));
    }
  }

  lemma FillGrows(merged: map<string, string>, list: seq<Company>)
    ensures merged.Keys <= FillFrom(merged, list).Keys
    decreases list
  {
    if list != [] { FillGrows(Fields(list[0].settings) + merged, list[1..]); }
  }

  lemma InheritedIsFill(cs: Companies, rank: map<Id, nat>, d: Id)
    requires Ranked(cs, rank) && d in cs
    ensures forall merged :: FillFrom(merged, Lookup(cs, Chain(cs, rank, d)[1..])) == Inherited(cs, rank, d) + merged
  {
    forall merged ensures FillFrom(merged, Lookup(cs, Chain(cs, rank, d)[1..])) == Inherited(cs, rank, d) + merged {
      if Parent(cs, d).Some? {
        FillIsOverlay(cs, rank, Parent(cs, d).value, merged);
        assert Chain(cs, rank, d)[1..] == Chain(cs, rank, Parent(cs, d).value);
      } else {
        assert Lookup(cs, Chain(cs, rank, d)[1..]) == [];
      }
    }
  }

  lemma SameLinksSameClosure(cs: Companies, cs': Companies, rank: map<Id, nat>, h: seq<Entry>)
    requires Ranked(cs, rank) && IsClosure(cs, h)
    requires cs'.Keys == cs.Keys && forall d | d in cs :: cs'[d].parent == cs[d].parent
    ensures Ranked(cs', rank) && IsClosure(cs', h)
  {
    assert forall d | d in cs :: Parent(cs', d) == Parent(cs, d);
    forall d, g: nat ensures NthParent(cs', d, g) == NthParent(cs, d, g) {
      SameLinks(cs, cs', d, g);
    }
  }

  lemma {:induction false} SameLinks(cs: Companies, cs': Companies, d: Id, g: nat)
    requires cs'.Keys == cs.Keys && forall d | d in cs :: cs'[d].parent == cs[d].parent
    ensures NthParent(cs', d, g) == NthParent(cs, d, g)
    decreases g
  {
    if g > 0 && Parent(cs, d).Some? { SameLinks(cs, cs', Parent(cs, d).value, g - 1); }
  }

  /** The entries the service computes are the closure rows of the company just stored. */
  lemma AlreadyThere(cs: Companies, rank: map<Id, nat>, h: seq<Entry>, id: Id, entries: seq<Entry>)
    requires Ranked(cs, rank) && IsClosure(cs, h) && id in cs
    requires entries
         == if cs[id].parent.None? then [Entry(id, id, 0)] else ChildRows(id, ParentRow(cs, rank, cs[id].parent))
    ensures forall i | 0 <= i < |entries| :: entries[i] in h
  {
    assert NthParent(cs, id, 0) == Some(id) && Entry(id, id, 0) in h;
    forall i | 0 < i < |entries| ensures entries[i] in h {
      ShiftedRowIsThere(cs, rank, h, id, i);
    }
  }

  lemma ShiftedRowIsThere(cs: Companies, rank: map<Id, nat>, h: seq<Entry>, id: Id, i: nat)
    requires Ranked(cs, rank) && IsClosure(cs, h) && id in cs && Parent(cs, id).Some?
    requires 0 < i <= |Chain(cs, rank, Parent(cs, id).value)|
    ensures Entry(Chain(cs, rank, Parent(cs, id).value)[i - 1], id, i) in h
  {
    var p := Parent(cs, id).value;
    ChainIsNthParent(cs, rank, p, i - 1);
    assert NthParent(cs, id, i) == NthParent(cs, p, i - 1);
  }
}

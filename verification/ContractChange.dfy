/** Classifying contract changes and bumping the contract's version. */
module ContractChange {
  import opened Options
  import opened Text
  import opened Numerals
  import opened Versions

  datatype Field = Field(number: int, name: string, kind: string)
  datatype Class = NoChange | Minor | Breaking

  /** A field set by number; a later occurrence of a number replaces an earlier one. */
  function Index(fields: seq<Field>): (m: map<int, Field>)
    ensures forall n | n in m :: m[n].number == n
  {
    if fields == [] then map[]
    else
      var last := fields[|fields| - 1];
      Index(fields[..|fields| - 1])[last.number := last]
  }

  lemma IndexSnoc(fields: seq<Field>, i: nat)
    requires i < |fields|
    ensures Index(fields[..i + 1]) == Index(fields[..i])[fields[i].number := fields[i]]
  {
    assert fields[..i + 1][..i] == fields[..i];
  }

  method IndexByNumber(fields: seq<Field>) returns (m: map<int, Field>)
    ensures m == Index(fields)
  {
    m := map[];
    for i := 0 to |fields|
      invariant m == Index(fields[..i])
    {
      IndexSnoc(fields, i);
      m := m[fields[i].number := fields[i]];
    }
    assert fields[..|fields|] == fields;
  }

  /** Every old field is there, with the same number, name and kind. */
  predicate Survive(before: map<int, Field>, after: map<int, Field>) {
    forall n | n in before :: n in after && after[n] == before[n]
  }

  /** The class of a change, by what it does to the field table. */
  function ClassOf(before: map<int, Field>, after: map<int, Field>): Class {
    if !Survive(before, after) then Breaking else if after.Keys <= before.Keys then NoChange else Minor
  }

  /** Both tables are iterated in whatever order the map yields. */
  method ClassifyChange(oldFields: seq<Field>, newFields: seq<Field>) returns (c: Class)
    ensures c == ClassOf(Index(oldFields), Index(newFields))
    ensures var before, after := Index(oldFields), Index(newFields);
      && (c == Breaking <==> exists n | n in before ::
            n !in after || after[n].name != before[n].name || after[n].kind != before[n].kind)
      && (c == Minor <==> c != Breaking && exists n | n in after :: n !in before)
  {
    var oldByNum := IndexByNumber(oldFields);
    var newByNum := IndexByNumber(newFields);
    var breaking := false;
    var rest := oldByNum.Keys;
    while rest != {}
      invariant rest <= oldByNum.Keys
      invariant breaking <==> exists n | n in oldByNum.Keys - rest :: n !in newByNum || newByNum[n] != oldByNum[n]
      decreases |rest|
    {
      var num :| num in rest;
      rest := rest - {num};
      if num !in newByNum {
        breaking := true;
      } else if newByNum[num].name != oldByNum[num].name || newByNum[num].kind != oldByNum[num].kind {
        breaking := true;
      }
    }
    if breaking { return Breaking; }
    var added := newByNum.Keys;
    while added != {}
      invariant added <= newByNum.Keys && newByNum.Keys - added <= oldByNum.Keys
      decreases |added|
    {
      var num :| num in added;
      if num !in oldByNum { return Minor; }
      added := added - {num};
    }
    c := NoChange;
  }

  /** Field by field: breaking exactly when a number is gone, or its name or its kind changed; else minor exactly when
      a number is new. */
  lemma ClassIs(before: map<int, Field>, after: map<int, Field>)
    requires (forall n | n in before :: before[n].number == n) && (forall n | n in after :: after[n].number == n)
    ensures ClassOf(before, after) == Breaking <==> exists n | n in before ::
      n !in after || after[n].name != before[n].name || after[n].kind != before[n].kind
    ensures ClassOf(before, after) == Minor <==>
      ClassOf(before, after) != Breaking && exists n | n in after :: n !in before
  {
    if n :| n in before && (n !in after || after[n].name != before[n].name || after[n].kind != before[n].kind) {
      assert !Survive(before, after);
    } else {
      assert forall n | n in before :: after[n] == before[n];
    }
    if exists n | n in after :: n !in before {
      var n :| n in after && n !in before;
      assert n in after.Keys && n !in before.Keys;
    } else {
      assert forall n | n in after.Keys :: n in after && n in before;
    }
  }

  /** Of several fields with one number the last counts. */
  lemma {:induction false} IndexIsLast(fields: seq<Field>, n: int)
    ensures n in Index(fields) <==> exists i | 0 <= i < |fields| :: fields[i].number == n
    ensures n in Index(fields) ==> exists i | 0 <= i < |fields| ::
      && fields[i] == Index(fields)[n] && fields[i].number == n
      && forall j | i < j < |fields| :: fields[j].number != n
  {
    if fields != [] {
      var init, last := fields[..|fields| - 1], fields[|fields| - 1];
      IndexIsLast(init, n);
      assert fields == init + [last];
      if last.number == n {
        assert fields[|fields| - 1] == Index(fields)[n];
      } else if n in Index(init) {
        var i :| 0 <= i < |init| && init[i] == Index(init)[n] && init[i].number == n
          && forall j | i < j < |init| :: init[j].number != n;
        assert fields[i] == Index(fields)[n];
      }
    }
  }

  function Max(a: Class, b: Class): Class {
    if a.Breaking? || b.Breaking? then Breaking else if a.Minor? || b.Minor? then Minor else NoChange
  }

  /** The worst class among the steps of a chain of tables. */
  function Worst(tables: seq<map<int, Field>>): Class
    requires |tables| >= 1
  {
    if |tables| == 1 then NoChange
    else Max(Worst(tables[..|tables| - 1]), ClassOf(tables[|tables| - 2], tables[|tables| - 1]))
  }

  lemma Compose(a: map<int, Field>, b: map<int, Field>, c: map<int, Field>)
    requires Survive(a, b) && Survive(b, c)
    ensures Survive(a, c) && ClassOf(a, c) == Max(ClassOf(a, b), ClassOf(b, c))
  {
    assert forall n :: (n in a ==> n in b) && (n in b ==> n in c);
  }

  /** Over a chain without breaking steps the class of the whole is the worst of the steps, and every original
      field survives. */
  lemma {:induction false} ChainClass(tables: seq<map<int, Field>>)
    requires |tables| >= 1 && Worst(tables) != Breaking
    ensures ClassOf(tables[0], tables[|tables| - 1]) == Worst(tables)
    ensures Survive(tables[0], tables[|tables| - 1])
  {
    if |tables| > 1 {
      var init := tables[..|tables| - 1];
      ChainClass(init);
      assert init[0] == tables[0] && init[|init| - 1] == tables[|tables| - 2];
      Compose(tables[0], tables[|tables| - 2], tables[|tables| - 1]);
    }
  }

  /** A chain with a breaking step may come back: the bound on the class is one way only there. */
  lemma BreakingCanBeUndone(f: Field)
    ensures var m := map[f.number := f];
      Worst([m, map[], m]) == Breaking && ClassOf(m, m) == NoChange
  {
    var m := map[f.number := f];
    assert [m, map[], m][..2] == [m, map[]];
    assert [m, map[]][..1] == [m];
    assert f.number in m;
    assert !Survive(m, map[]);
  }

  // ---------------------------------------------------------------- versions

  datatype Error = BreakingForbidden | MalformedVersion

  /** One component of parseSemver: absent is zero, malformed an error. */
  function Part(parts: seq<string>, i: nat): Option<int> {
    if i >= |parts| then Some(0) else Atoi(TrimSpace(parts[i]))
  }

  /** parseSemver: major, minor and patch. */
  function ParseSemver(v: string): Option<(int, int, int)> {
    var parts := Split(TrimSpace(v), '.');
    if Part(parts, 0).None? || Part(parts, 1).None? || Part(parts, 2).None? then None
    else Some((Part(parts, 0).value, Part(parts, 1).value, Part(parts, 2).value))
  }

  function Dotted(major: int, minor: int): string { IntStr(major) + "." + IntStr(minor) + ".0" }

  function BumpVersion(version: string, c: Class): Result<string, Error> {
    match c
    case Breaking => Err(BreakingForbidden)
    case NoChange => Ok(version)
    case Minor =>
      var v := ParseSemver(version);
      if v.None? then Err(MalformedVersion) else Ok(Dotted(v.value.0, Wrap64(v.value.1 + 1)))
  }

  /** No change keeps the version, a breaking one is refused, and a minor one is refused exactly for a version with a
      malformed major, minor or patch; missing ones are zero. */
  lemma BumpIs(v: string)
    ensures BumpVersion(v, NoChange) == Ok(v) && BumpVersion(v, Breaking) == Err(BreakingForbidden)
    ensures BumpVersion(v, Minor).Err? <==> ParseSemver(v).None?
    ensures BumpVersion(v, Minor).Err? ==> BumpVersion(v, Minor).error == MalformedVersion
    ensures var parts := Split(TrimSpace(v), '.');
      ParseSemver(v).None? <==> Malformed(parts, 0) || Malformed(parts, 1) || Malformed(parts, 2)
  {}

  predicate Malformed(parts: seq<string>, i: nat) { i < |parts| && Atoi(TrimSpace(parts[i])).None? }

  /** On a version that parses, comparison sees the parsed components. */
  lemma ParsedComponents(v: string)
    requires ParseSemver(v).Some?
    ensures Component(v, 0) == ParseSemver(v).value.0
    ensures Component(v, 1) == ParseSemver(v).value.1
    ensures Component(v, 2) == ParseSemver(v).value.2
  {
    TrimThenSplit(v, 0);
    TrimThenSplit(v, 1);
    TrimThenSplit(v, 2);
  }

  lemma PrintedInt(n: int)
    requires MIN_INT64 <= n <= MAX_INT64
    ensures '.' !in IntStr(n) && TrimSpace(IntStr(n)) == IntStr(n) && Atoi(IntStr(n)) == Some(n)
    ensures !IsSpace(IntStr(n)[0])
  {
    AtoiRoundTrip(n);
    IntRoundTrip(n);
    NothingToTrim(IntStr(n));
  }

  lemma Inner(s: string)
    requires s != [] && !IsSpace(s[0]) && !IsSpace(s[|s| - 1])
    ensures TrimSpace(s) == s
  {}

  lemma DottedParts(a: string, b: string)
    requires '.' !in a && '.' !in b
    ensures Split(a + "." + b + ".0", '.') == [a, b, "0"]
  {
    assert a + "." + b + ".0" == a + ['.'] + (b + ['.'] + "0");
    SplitFirst(a, b + ['.'] + "0", '.');
    SplitFirst(b, "0", '.');
    SplitWhole("0", '.');
  }

  /** The printed version parses back to what was printed. */
  lemma DottedParses(major: int, minor: int)
    requires MIN_INT64 <= major <= MAX_INT64 && MIN_INT64 <= minor <= MAX_INT64
    ensures ParseSemver(Dotted(major, minor)) == Some((major, minor, 0))
  {
    PrintedInt(major);
    PrintedInt(minor);
    ZeroReads();
    PartsParse(IntStr(major), IntStr(minor), major, minor);
  }

  lemma PartsParse(a: string, b: string, major: int, minor: int)
    requires '.' !in a && TrimSpace(a) == a && Atoi(a) == Some(major) && a != [] && !IsSpace(a[0])
    requires '.' !in b && TrimSpace(b) == b && Atoi(b) == Some(minor)
    requires TrimSpace("0") == "0" && Atoi("0") == Some(0)
    ensures ParseSemver(a + "." + b + ".0") == Some((major, minor, 0))
  {
    var v := a + "." + b + ".0";
    assert v[0] == a[0] && v[|v| - 1] == '0';
    Inner(v);
    DottedParts(a, b);
  }

  lemma MinorDecides(v: string, w: string)
    requires Component(v, 0) == Component(w, 0) && Component(v, 1) < Component(w, 1)
    ensures Precedes(v, w) && !Precedes(w, v)
  {
    assert Version(v)(0) == Version(w)(0) && Version(v)(1) < Version(w)(1);
    assert FirstDiffersAt(Version(v), Version(w), 1);
    ExactlyOne(v, w);
  }

  lemma ComponentsInRange(v: string)
    requires ParseSemver(v).Some?
    ensures MIN_INT64 <= ParseSemver(v).value.0 <= MAX_INT64 && MIN_INT64 <= ParseSemver(v).value.1 <= MAX_INT64
  {}

  /** A minor bump of a well-formed version ranks strictly higher exactly when the minor number does not
      overflow; otherwise it ranks strictly lower. */
  lemma MinorBumpRanksHigher(v: string)
    requires ParseSemver(v).Some?
    ensures BumpVersion(v, Minor).Ok? && ParseSemver(BumpVersion(v, Minor).value).Some?
    ensures Precedes(v, BumpVersion(v, Minor).value) <==> ParseSemver(v).value.1 != MAX_INT64
    ensures Precedes(BumpVersion(v, Minor).value, v) <==> ParseSemver(v).value.1 == MAX_INT64
  {
    ComponentsInRange(v);
    BumpPrints(v);
    WrapNext(ParseSemver(v).value.1);
    BumpedRank(v, ParseSemver(v).value.0, ParseSemver(v).value.1, Wrap64(ParseSemver(v).value.1 + 1));
  }

  /** A minor bump raises the minor number by one and resets the patch. */
  lemma MinorBumpIs(v: string)
    requires ParseSemver(v).Some? && ParseSemver(v).value.1 != MAX_INT64
    ensures BumpVersion(v, Minor).Ok?
    ensures ParseSemver(BumpVersion(v, Minor).value) == Some((ParseSemver(v).value.0, ParseSemver(v).value.1 + 1, 0))
  {
    ComponentsInRange(v);
    var p := ParseSemver(v).value;
    var text := BumpText(v, p.0, p.1);
    DottedParses(p.0, p.1 + 1);
  }

  lemma BumpText(v: string, major: int, minor: int) returns (text: string)
    requires ParseSemver(v).Some? && ParseSemver(v).value.0 == major && ParseSemver(v).value.1 == minor
    requires MIN_INT64 <= minor < MAX_INT64
    ensures BumpVersion(v, Minor) == Ok(text) && text == Dotted(major, minor + 1)
  {
    BumpPrints(v);
    WrapNext(minor);
    text := Dotted(major, minor + 1);
  }

  lemma BumpPrints(v: string)
    requires ParseSemver(v).Some?
    ensures BumpVersion(v, Minor) == Ok(Dotted(ParseSemver(v).value.0, Wrap64(ParseSemver(v).value.1 + 1)))
  {}

  lemma WrapNext(n: int)
    requires MIN_INT64 <= n <= MAX_INT64
    ensures Wrap64(n + 1) == if n == MAX_INT64 then MIN_INT64 else n + 1
  {
    if 0 <= n + 1 <= MAX_INT64 {
      assert (n + 1) % 0x1_0000_0000_0000_0000 == n + 1;
    } else if n + 1 < 0 {
      assert (n + 1) % 0x1_0000_0000_0000_0000 == n + 1 + 0x1_0000_0000_0000_0000;
    }
  }

  lemma BumpedRank(v: string, major: int, minor: int, bumped: int)
    requires ParseSemver(v).Some? && ParseSemver(v).value.0 == major && ParseSemver(v).value.1 == minor
    requires MIN_INT64 <= major <= MAX_INT64 && MIN_INT64 <= bumped <= MAX_INT64 && bumped != minor
    ensures ParseSemver(Dotted(major, bumped)).Some?
    ensures Precedes(v, Dotted(major, bumped)) <==> minor < bumped
    ensures Precedes(Dotted(major, bumped), v) <==> bumped < minor
  {
    DottedParses(major, bumped);
    ParsedComponents(v);
    ParsedComponents(Dotted(major, bumped));
    MinorOrders(v, Dotted(major, bumped));
  }

  lemma MinorOrders(v: string, w: string)
    requires Component(v, 0) == Component(w, 0) && Component(v, 1) != Component(w, 1)
    ensures Precedes(v, w) <==> Component(v, 1) < Component(w, 1)
    ensures Precedes(w, v) <==> Component(w, 1) < Component(v, 1)
  {
    if Component(v, 1) < Component(w, 1) { MinorDecides(v, w); } else { MinorDecides(w, v); }
  }

  /** Bumping "1.9223372036854775807.0", say, gives a version that ranks lower. */
  lemma OverflowExample(major: int, most: int, least: int)
    requires MIN_INT64 <= major <= MAX_INT64 && most == MAX_INT64 && least == MIN_INT64
    ensures BumpVersion(Dotted(major, most), Minor) == Ok(Dotted(major, least))
    ensures Precedes(Dotted(major, least), Dotted(major, most))
  {
    DottedParses(major, most);
    BumpPrints(Dotted(major, most));
    WrapNext(most);
    MinorBumpRanksHigher(Dotted(major, most));
  }

  /** versions[i + 1] is the bump of versions[i] by the class of the change from tables[i] to tables[i + 1]. */
  ghost predicate Releases(versions: seq<string>, tables: seq<map<int, Field>>) {
    && |versions| == |tables| >= 1
    && forall i: nat | 0 < i < |tables| ::
         && BumpVersion(versions[i - 1], ClassOf(tables[i - 1], tables[i])) == Ok(versions[i])
         && (ClassOf(tables[i - 1], tables[i]).Minor? ==> ParseSemver(versions[i - 1]).value.1 != MAX_INT64)
  }

  /** Over a whole release history: nothing breaks, and the version moves, upwards, exactly when fields were added. */
  lemma {:induction false} ReleasesMoveForward(versions: seq<string>, tables: seq<map<int, Field>>)
    requires Releases(versions, tables)
    ensures Worst(tables) != Breaking && Survive(tables[0], tables[|tables| - 1])
    ensures Worst(tables) == NoChange ==> versions[|versions| - 1] == versions[0]
    ensures Worst(tables) == Minor ==> Precedes(versions[0], versions[|versions| - 1])
  {
    var n := |tables| - 1;
    if n > 0 {
      ReleasesMoveForward(versions[..n], tables[..n]);
      assert BumpVersion(versions[n - 1], ClassOf(tables[n - 1], tables[n])) == Ok(versions[n]);
      if ClassOf(tables[n - 1], tables[n]).Minor? {
        MinorBumpRanksHigher(versions[n - 1]);
        Transitive(versions[0], versions[n - 1], versions[n]);
      }
      ChainClass(tables);
    }
  }
}

/** Dotted version strings, compared component by component with missing ones read as zero. */
module Versions {
  import opened Options
  import opened Text
  import opened Numerals

  /** componentAt: absent, malformed and out-of-range components are zero. */
  function ComponentAt(parts: seq<string>, i: nat): int {
    if i >= |parts| then 0
    else
      var v := Atoi(TrimSpace(parts[i]));
      if v.Some? then v.value else 0
  }

  function Component(v: string, i: nat): int { ComponentAt(Split(v, '.'), i) }

  // ---------------------------------------------------------------- the order

  /** A version as its components, zero from some point on. */
  type Components = nat -> int

  ghost predicate FirstDiffersAt(f: Components, g: Components, i: nat) {
    f(i) < g(i) && forall j: nat | j < i :: f(j) == g(j)
  }

  ghost predicate Less(f: Components, g: Components) { exists i: nat :: FirstDiffersAt(f, g, i) }

  ghost predicate Equal(f: Components, g: Components) { forall i: nat :: f(i) == g(i) }

  lemma Exclusive(f: Components, g: Components)
    ensures !(Less(f, g) && Less(g, f))
    ensures Equal(f, g) ==> !Less(f, g) && !Less(g, f)
  {}

  lemma LessIsTransitive(f: Components, g: Components, h: Components)
    requires (Less(f, g) || Equal(f, g)) && (Less(g, h) || Equal(g, h))
    ensures Less(f, h) || (Equal(f, g) && Equal(g, h) && Equal(f, h))
  {
    if Less(f, g) {
      var i: nat :| FirstDiffersAt(f, g, i);
      if Less(g, h) {
        var j: nat :| FirstDiffersAt(g, h, j);
        assert FirstDiffersAt(f, h, if i < j then i else j);
      } else {
        assert FirstDiffersAt(f, h, i);
      }
    } else if Less(g, h) {
      var j: nat :| FirstDiffersAt(g, h, j);
      assert FirstDiffersAt(f, h, j);
    }
  }

  lemma {:induction false} FirstDifference(f: Components, g: Components, n: nat) returns (i: nat)
    ensures i <= n && (forall j: nat | j < i :: f(j) == g(j)) && (i < n ==> f(i) != g(i))
  {
    if n == 0 { return 0; }
    i := FirstDifference(f, g, n - 1);
    if i == n - 1 && f(i) == g(i) { i := n; }
  }

  lemma TotalWhenZeroFrom(f: Components, g: Components, n: nat)
    requires forall i: nat | i >= n :: f(i) == 0 && g(i) == 0
    ensures Less(f, g) || Less(g, f) || Equal(f, g)
  {
    var i := FirstDifference(f, g, n);
    if i < n { assert FirstDiffersAt(f, g, i) || FirstDiffersAt(g, f, i); }
  }

  /** The components of a version string. */
  function Version(v: string): Components { (i: nat) => Component(v, i) }

  /** The first component that differs, anywhere in the zero-padded versions, is smaller in a. */
  ghost predicate Precedes(a: string, b: string) { Less(Version(a), Version(b)) }

  ghost predicate Same(a: string, b: string) { Equal(Version(a), Version(b)) }

  ghost predicate AtMost(a: string, b: string) { Precedes(a, b) || Same(a, b) }

  method CompareVersions(a: string, b: string) returns (r: int)
    ensures r == -1 || r == 0 || r == 1
    ensures r == -1 <==> Precedes(a, b)
    ensures r == 1 <==> Precedes(b, a)
    ensures r == 0 <==> Same(a, b)
  {
    var as_, bs := Split(a, '.'), Split(b, '.');
    var n := if |bs| > |as_| then |bs| else |as_|;
    ghost var at;
    r, at := FirstDecides(Version(a), Version(b), n);
    Padded(a, b, n);
    Verdict(Version(a), Version(b), r, at);
  }

  /** The first of n components that differ decides; `at` is where. */
  method FirstDecides(f: Components, g: Components, n: nat) returns (r: int, ghost at: nat)
    ensures r == -1 || r == 0 || r == 1
    ensures forall j: nat | j < at :: f(j) == g(j)
    ensures r == -1 ==> f(at) < g(at)
    ensures r == 1 ==> f(at) > g(at)
    ensures r == 0 ==> at == n
  {
    for i := 0 to n
      invariant forall j: nat | j < i :: f(j) == g(j)
    {
      var av, bv := f(i), g(i);
      if av < bv { return -1, i; }
      if av > bv { return 1, i; }
    }
    return 0, n;
  }

  lemma Padded(a: string, b: string, n: nat)
    requires |Split(a, '.')| <= n && |Split(b, '.')| <= n
    ensures forall j: nat | j >= n :: Version(a)(j) == Version(b)(j)
  {}

  lemma Verdict(f: Components, g: Components, r: int, at: nat)
    requires r == -1 || r == 0 || r == 1
    requires forall j: nat | j < at :: f(j) == g(j)
    requires r == -1 ==> f(at) < g(at)
    requires r == 1 ==> f(at) > g(at)
    requires r == 0 ==> forall j: nat | j >= at :: f(j) == g(j)
    ensures (r == -1 <==> Less(f, g)) && (r == 1 <==> Less(g, f)) && (r == 0 <==> Equal(f, g))
  {
    Exclusive(f, g);
    if r == -1 {
      assert FirstDiffersAt(f, g, at);
    } else if r == 1 {
      assert FirstDiffersAt(g, f, at);
    }
  }

  /** The three outcomes exclude each other. */
  lemma ExactlyOne(a: string, b: string)
    ensures !(Precedes(a, b) && Precedes(b, a))
    ensures Same(a, b) ==> !Precedes(a, b) && !Precedes(b, a)
  {
    Exclusive(Version(a), Version(b));
  }

  lemma Total(a: string, b: string)
    ensures Precedes(a, b) || Precedes(b, a) || Same(a, b)
  {
    TotalWhenZeroFrom(Version(a), Version(b), |Split(a, '.')| + |Split(b, '.')|);
  }

  lemma Transitive(a: string, b: string, c: string)
    ensures AtMost(a, b) && AtMost(b, c) ==> AtMost(a, c)
    ensures AtMost(a, b) && AtMost(b, c) && (Precedes(a, b) || Precedes(b, c)) ==> Precedes(a, c)
  {
    if AtMost(a, b) && AtMost(b, c) {
      LessIsTransitive(Version(a), Version(b), Version(c));
      ExactlyOne(a, b);
      ExactlyOne(b, c);
    }
  }

  lemma BothWays(f: Components, g: Components)
    ensures Equal(f, g) <==> Equal(g, f)
  {}

  /** The comparison is a total preorder. */
  lemma TotalPreorder(a: string, b: string, c: string)
    ensures AtMost(a, b) || AtMost(b, a)
    ensures AtMost(a, b) && AtMost(b, c) ==> AtMost(a, c)
    ensures AtMost(a, b) && AtMost(b, a) <==> Same(a, b)
    ensures AtMost(a, b) <==> !Precedes(b, a)
  {
    Total(a, b);
    ExactlyOne(a, b);
    BothWays(Version(a), Version(b));
    Transitive(a, b, c);
  }

  // ---------------------------------------------------------------- components

  /** A component counts as the integer it spells after trimming; absent, malformed or out of 64-bit range, as 0. */
  lemma ComponentIs(v: string, i: nat)
    ensures var parts := Split(v, '.');
      Component(v, i) ==
        if i < |parts| && Numeral(TrimSpace(parts[i])) && MIN_INT64 <= IntVal(TrimSpace(parts[i])) <= MAX_INT64
        then IntVal(TrimSpace(parts[i])) else 0
  {}

  /** A version compares like the same version with "0" for a component that is malformed or out of range. */
  lemma MalformedIsZero(parts: seq<string>, i: nat)
    requires i < |parts| && (forall j | 0 <= j < |parts| :: '.' !in parts[j]) && Atoi(TrimSpace(parts[i])).None?
    ensures Same(Join(parts, '.'), Join(parts[i := "0"], '.'))
  {
    SplitJoin(parts, '.');
    SplitJoin(parts[i := "0"], '.');
    ZeroReads();
    forall k: nat ensures Version(Join(parts, '.'))(k) == Version(Join(parts[i := "0"], '.'))(k) {
      ZeroInPlace(parts, i, k);
    }
  }

  lemma ZeroInPlace(parts: seq<string>, i: nat, k: nat)
    requires i < |parts| && Atoi(TrimSpace(parts[i])).None? && TrimSpace("0") == "0" && Atoi("0") == Some(0)
    ensures ComponentAt(parts[i := "0"], k) == ComponentAt(parts, k)
  {}

  // ---------------------------------------------------------------- padding and trimming

  lemma {:induction false} SplitLast(s: string, p: string, sep: char)
    requires sep !in p
    ensures Split(s + [sep] + p, sep) == Split(s, sep) + [p]
  {
    var t := s + [sep] + p;
    if s == [] {
      assert t[1..] == p;
      SplitWhole(p, sep);
    } else {
      assert t[1..] == s[1..] + [sep] + p;
      SplitLast(s[1..], p, sep);
    }
  }

  /** Padding with a zero component changes nothing. */
  lemma ZeroPadding(v: string)
    ensures Same(v, v + ".0")
  {
    SplitLast(v, "0", '.');
    assert v + ['.'] + "0" == v + ".0";
    ZeroReads();
    forall i: nat ensures Version(v)(i) == Version(v + ".0")(i) { ZeroPart(Split(v, '.'), i); }
  }

  lemma ZeroReads()
    ensures TrimSpace("0") == "0" && Atoi("0") == Some(0)
  {
    AtoiRoundTrip(0);
    assert IntStr(0) == "0";
  }

  lemma ZeroPart(parts: seq<string>, i: nat)
    requires TrimSpace("0") == "0" && Atoi("0") == Some(0)
    ensures ComponentAt(parts + ["0"], i) == ComponentAt(parts, i)
  {
    assert i < |parts| ==> (parts + ["0"])[i] == parts[i];
    assert (parts + ["0"])[|parts|] == "0";
  }

  function PadLast(parts: seq<string>, c: char): seq<string>
    requires parts != []
  {
    parts[..|parts| - 1] + [parts[|parts| - 1] + [c]]
  }

  lemma PadLastBehind(p: string, parts: seq<string>, c: char)
    requires parts != []
    ensures PadLast([p] + parts, c) == [p] + PadLast(parts, c)
  {}

  lemma PadLastUnderHead(d: char, parts: seq<string>, c: char)
    requires parts != []
    ensures PadLast([[d] + parts[0]] + parts[1..], c) == [[d] + PadLast(parts, c)[0]] + PadLast(parts, c)[1..]
  {
    if |parts| == 1 {
      assert [d] + parts[0] + [c] == [d] + (parts[0] + [c]);
    } else {
      assert PadLast(parts, c)[0] == parts[0];
    }
  }

  lemma {:induction false} SplitSnoc(s: string, c: char, sep: char)
    requires c != sep
    ensures Split(s + [c], sep) == PadLast(Split(s, sep), c)
  {
    if s == [] {
      assert s + [c] == [c] && [c][1..] == [];
      assert Split([], sep) == [[]];
    } else {
      assert (s + [c])[1..] == s[1..] + [c];
      SplitSnoc(s[1..], c, sep);
      if s[0] == sep {
        PadLastBehind([], Split(s[1..], sep), c);
      } else {
        PadLastUnderHead(s[0], Split(s[1..], sep), c);
      }
    }
  }

  lemma {:induction false} TrimLeftSnoc(s: string, c: char)
    requires IsSpace(c)
    ensures TrimSpace(s + [c]) == TrimSpace(s)
  {
    if s == [] {
      assert (s + [c])[1..] == [];
    } else if IsSpace(s[0]) {
      assert (s + [c])[1..] == s[1..] + [c];
      TrimLeftSnoc(s[1..], c);
    } else {
      assert (s + [c])[..|s|] == s;
    }
  }

  /** A space at either end of the whole is a space at the end of the first or the last part. */
  lemma LeadingSpace(v: string, i: nat)
    requires v != [] && IsSpace(v[0])
    ensures |Split(v, '.')| == |Split(v[1..], '.')|
    ensures i < |Split(v, '.')| ==> TrimSpace(Split(v, '.')[i]) == TrimSpace(Split(v[1..], '.')[i])
  {
    var rest, whole := Split(v[1..], '.'), Split(v, '.');
    assert whole == [[v[0]] + rest[0]] + rest[1..];
    assert whole[0][1..] == rest[0];
  }

  lemma TrailingSpace(init: string, c: char, i: nat)
    requires IsSpace(c)
    ensures |Split(init + [c], '.')| == |Split(init, '.')|
    ensures i < |Split(init, '.')| ==> TrimSpace(Split(init + [c], '.')[i]) == TrimSpace(Split(init, '.')[i])
  {
    SplitSnoc(init, c, '.');
    LastPartPadded(Split(init, '.'), Split(init + [c], '.'), c, i);
  }

  lemma LastPartPadded(parts: seq<string>, padded: seq<string>, c: char, i: nat)
    requires parts != [] && IsSpace(c) && padded == PadLast(parts, c)
    ensures |padded| == |parts| && (i < |parts| ==> TrimSpace(padded[i]) == TrimSpace(parts[i]))
  {
    if i == |parts| - 1 { TrimLeftSnoc(parts[i], c); }
  }

  /** Trimming the whole string first does not change what its trimmed parts are. */
  lemma {:induction false} TrimThenSplit(v: string, i: nat)
    ensures |Split(TrimSpace(v), '.')| == |Split(v, '.')|
    ensures i < |Split(v, '.')| ==> TrimSpace(Split(TrimSpace(v), '.')[i]) == TrimSpace(Split(v, '.')[i])
    decreases |v|
  {
    if v != [] && IsSpace(v[0]) {
      LeadingSpace(v, i);
      TrimThenSplit(v[1..], i);
      assert TrimSpace(v) == TrimSpace(v[1..]);
    } else if v != [] && IsSpace(v[|v| - 1]) {
      var init, c := v[..|v| - 1], v[|v| - 1];
      assert v == init + [c];
      TrailingSpace(init, c, i);
      TrimThenSplit(init, i);
      TrimLeftSnoc(init, c);
    } else {
      assert TrimSpace(v) == v;
    }
  }

  lemma {:induction false} NothingToTrim(s: string)
    requires forall i | 0 <= i < |s| :: !IsSpace(s[i])
    ensures TrimSpace(s) == s
  {
  }
}

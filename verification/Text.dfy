/** Strings: byte-wise order, sorted key lists, splitting and joining on a separator. */
module Text {
  /** unicode.IsSpace. */
  predicate IsSpace(c: char) {
    || c in "\t\n\U{b}\U{c}\r \U{85}\U{a0}\U{1680}\U{2028}\U{2029}\U{202f}\U{205f}\U{3000}"
    || '\U{2000}' <= c <= '\U{200a}'
  }

  /** The white space of unicode.IsSpace, by code point. */
  lemma SpaceIs(c: char)
    ensures IsSpace(c) <==>
      var n := c as int;
      9 <= n <= 13 || n == 32 || n == 0x85 || n == 0xa0 || n == 0x1680 || 0x2000 <= n <= 0x200a
      || n == 0x2028 || n == 0x2029 || n == 0x202f || n == 0x205f || n == 0x3000
  {}

  function TrimLeft(s: string): string { if s != [] && IsSpace(s[0]) then TrimLeft(s[1..]) else s }

  function TrimRight(s: string): string {
    if s != [] && IsSpace(s[|s| - 1]) then TrimRight(s[..|s| - 1]) else s
  }

  /** strings.TrimSpace. */
  function TrimSpace(s: string): string { TrimRight(TrimLeft(s)) }

  /** Trimming takes off exactly the white space at both ends. */
  lemma TrimSpaceIs(s: string) returns (before: string, after: string)
    ensures s == before + TrimSpace(s) + after
    ensures (forall i | 0 <= i < |before| :: IsSpace(before[i])) && (forall i | 0 <= i < |after| :: IsSpace(after[i]))
    ensures TrimSpace(s) != [] ==> !IsSpace(TrimSpace(s)[0]) && !IsSpace(TrimSpace(s)[|TrimSpace(s)| - 1])
  {
    before := TrimLeftIs(s);
    after := TrimRightIs(TrimLeft(s));
    var t, u := TrimSpace(s), TrimLeft(s);
    Nested(s, before, u, t, after);
    if t != [] { assert t[0] == u[0]; }
  }

  lemma Nested(s: string, before: string, u: string, t: string, after: string)
    requires s == before + u && u == t + after
    ensures s == before + t + after
  {}

  lemma {:induction false} TrimLeftIs(s: string) returns (before: string)
    ensures s == before + TrimLeft(s) && (forall i | 0 <= i < |before| :: IsSpace(before[i]))
    ensures TrimLeft(s) != [] ==> !IsSpace(TrimLeft(s)[0])
  {
    if s != [] && IsSpace(s[0]) {
      var less := TrimLeftIs(s[1..]);
      before := [s[0]] + less;
      BeginsWith(s, s[0], s[1..], less, TrimLeft(s[1..]));
    } else {
      before := [];
    }
  }

  lemma {:induction false} TrimRightIs(s: string) returns (after: string)
    ensures s == TrimRight(s) + after && (forall i | 0 <= i < |after| :: IsSpace(after[i]))
    ensures TrimRight(s) != [] ==> !IsSpace(TrimRight(s)[|TrimRight(s)| - 1])
  {
    if s != [] && IsSpace(s[|s| - 1]) {
      var init, c := s[..|s| - 1], s[|s| - 1];
      var less := TrimRightIs(init);
      after := less + [c];
      EndsWith(s, init, c, TrimRight(init), less);
    } else {
      after := [];
    }
  }

  lemma BeginsWith(s: string, c: char, rest: string, less: string, kept: string)
    requires s == [c] + rest && rest == less + kept
    ensures s == [c] + less + kept
  {}

  lemma EndsWith(s: string, init: string, c: char, kept: string, less: string)
    requires s == init + [c] && init == kept + less
    ensures s == kept + (less + [c])
  {}

  /** Lexicographic order, as sort.Strings compares. */
  predicate StrLe(a: string, b: string) {
    a == [] || (b != [] && (a[0] < b[0] || (a[0] == b[0] && StrLe(a[1..], b[1..]))))
  }

  predicate StrLt(a: string, b: string) { a != b && StrLe(a, b) }

  /** Byte-wise order: the shorter of two where one begins the other, else the one with the smaller character at the
      first difference. */
  lemma {:induction false} StrLtIs(a: string, b: string)
    ensures StrLt(a, b) <==>
      || (|a| < |b| && a == b[..|a|])
      || (exists i: nat :: i < |a| && i < |b| && a[..i] == b[..i] && a[i] < b[i])
  {
    if a != [] && b != [] {
      StrLtIs(a[1..], b[1..]);
      assert a == [a[0]] + a[1..] && b == [b[0]] + b[1..];
      if a[0] == b[0] {
        SameHead(a, b);
      } else {
        assert forall i: nat | 0 < i < |a| && i < |b| :: a[..i][0] == a[0] && b[..i][0] == b[0];
        assert |a| <= |b| ==> b[..|a|][0] == b[0];
        if a[0] < b[0] { assert a[..0] == b[..0]; }
      }
    }
  }

  lemma SameHead(a: string, b: string)
    requires a != [] && b != [] && a[0] == b[0]
    ensures (|a| < |b| && a == b[..|a|]) <==> (|a[1..]| < |b[1..]| && a[1..] == b[1..][..|a[1..]|])
    ensures (exists i: nat :: i < |a| && i < |b| && a[..i] == b[..i] && a[i] < b[i])
      <==> exists i: nat :: i < |a[1..]| && i < |b[1..]| && a[1..][..i] == b[1..][..i] && a[1..][i] < b[1..][i]
  {
    var c, d := a[1..], b[1..];
    assert a == [a[0]] + c && b == [b[0]] + d;
    if |a| <= |b| { assert b[..|a|] == [b[0]] + d[..|c|]; }
    if i: nat :| i < |a| && i < |b| && a[..i] == b[..i] && a[i] < b[i] {
      assert c[..i - 1] == a[..i][1..] && d[..i - 1] == b[..i][1..] && c[i - 1] < d[i - 1];
    }
    if i: nat :| i < |c| && i < |d| && c[..i] == d[..i] && c[i] < d[i] {
      assert a[..i + 1] == [a[0]] + c[..i] && b[..i + 1] == [b[0]] + d[..i];
      assert a[i + 1] < b[i + 1];
    }
  }

  lemma StrLeAntisymmetric(a: string, b: string)
    requires StrLe(a, b) && StrLe(b, a)
    ensures a == b
  {
    if a != [] {
      StrLeAntisymmetric(a[1..], b[1..]);
      assert a == [a[0]] + a[1..] && b == [b[0]] + b[1..];
    }
  }

  lemma StrLeTransitive(a: string, b: string, c: string)
    requires StrLe(a, b) && StrLe(b, c)
    ensures StrLe(a, c)
  {
  }

  lemma StrLeTotal(a: string, b: string)
    ensures StrLe(a, b) || StrLe(b, a)
  {
  }

  predicate Ascending(xs: seq<string>) {
    forall i, j | 0 <= i < j < |xs| :: StrLt(xs[i], xs[j])
  }

  lemma HasLeast(keys: set<string>) returns (least: string)
    requires keys != {}
    ensures least in keys && forall k | k in keys :: StrLe(least, k)
  {
    var x :| x in keys;
    if keys == {x} {
      least := x;
      StrLeTotal(x, x);
    } else {
      var rest := keys - {x};
      var y := HasLeast(rest);
      StrLeTotal(x, y);
      least := if StrLe(x, y) then x else y;
      forall k | k in keys ensures StrLe(least, k) {
        if k == x { StrLeTotal(x, x); } else if least == x { StrLeTransitive(x, y, k); }
      }
    }
  }

  lemma LeastExists(keys: set<string>)
    requires keys != {}
    ensures exists least | least in keys :: forall k | k in keys :: StrLe(least, k)
  {
    var least := HasLeast(keys);
  }

  /** The keys in ascending order. */
  ghost function SortedKeys(keys: set<string>): (xs: seq<string>)
    ensures Ascending(xs) && (forall k :: k in xs <==> k in keys) && |xs| == |keys|
    decreases |keys|
  {
    if keys == {} then []
    else
      LeastExists(keys);
      var least :| least in keys && forall k | k in keys :: StrLe(least, k);
      var rest := SortedKeys(keys - {least});
      assert forall i | 0 <= i < |rest| :: rest[i] in keys - {least};
      [least] + rest
  }

  /** There is only one ascending list of a given set of keys. */
  lemma AscendingIsUnique(xs: seq<string>, ys: seq<string>)
    requires Ascending(xs) && Ascending(ys) && forall k :: k in xs <==> k in ys
    ensures xs == ys
  {
    assert ys != [] ==> ys[0] in ys;
    if xs != [] {
      assert xs[0] in ys && ys != [];
      assert ys[0] in xs;
      if xs[0] != ys[0] {
        StrLeAntisymmetric(xs[0], ys[0]);
      }
      forall k ensures k in xs[1..] <==> k in ys[1..] {
        assert k in xs <==> k == xs[0] || k in xs[1..];
        assert k in ys <==> k == ys[0] || k in ys[1..];
      }
      AscendingIsUnique(xs[1..], ys[1..]);
      assert xs == [xs[0]] + xs[1..] && ys == [ys[0]] + ys[1..];
    }
  }

  /** One insertion into an ascending list. */
  method InsertKey(xs: seq<string>, k: string) returns (ys: seq<string>)
    requires Ascending(xs) && k !in xs
    ensures Ascending(ys) && forall j :: j in ys <==> j in xs || j == k
  {
    var i := 0;
    while i < |xs| && StrLe(xs[i], k)
      invariant 0 <= i <= |xs|
      invariant forall j | 0 <= j < i :: StrLt(xs[j], k)
    {
      i := i + 1;
    }
    ys := xs[..i] + [k] + xs[i..];
    if i < |xs| {
      StrLeTotal(xs[i], k);
      forall j | i < j < |xs| ensures StrLt(k, xs[j]) {
        StrLeTransitive(k, xs[i], xs[j]);
      }
    }
    assert forall j :: j in xs <==> j in xs[..i] || j in xs[i..] by { assert xs == xs[..i] + xs[i..]; }
  }

  /** Collect the keys of a map in whatever order the iteration yields them, then sort. */
  method SortKeys(keys: set<string>) returns (xs: seq<string>)
    ensures xs == SortedKeys(keys)
  {
    var rest := keys;
    xs := [];
    while rest != {}
      invariant rest <= keys && Ascending(xs) && forall k :: k in xs <==> k in keys - rest
      decreases |rest|
    {
      var k :| k in rest;
      xs := InsertKey(xs, k);
      rest := rest - {k};
    }
    AscendingIsUnique(xs, SortedKeys(keys));
  }

  // ---------------------------------------------------------------- split and join

  function Join(parts: seq<string>, sep: char): string
    requires parts != []
  {
    if |parts| == 1 then parts[0] else parts[0] + [sep] + Join(parts[1..], sep)
  }

  /** strings.Split with a one-character separator: never empty, separator-free parts that join back. */
  function Split(s: string, sep: char): (parts: seq<string>)
    ensures |parts| >= 1 && (forall i | 0 <= i < |parts| :: sep !in parts[i]) && Join(parts, sep) == s
  {
    if s == [] then [[]]
    else
      var rest := Split(s[1..], sep);
      if s[0] == sep then
        var parts := [[]] + rest;
        assert parts[1..] == rest;
        parts
      else
        var parts := [[s[0]] + rest[0]] + rest[1..];
        assert parts[1..] == rest[1..];
        parts
  }

  lemma {:induction false} SplitWhole(p: string, sep: char)
    requires sep !in p
    ensures Split(p, sep) == [p]
  {
    if p != [] {
      SplitWhole(p[1..], sep);
      assert p == [p[0]] + p[1..];
    }
  }

  lemma {:induction false} SplitFirst(p: string, rest: string, sep: char)
    requires sep !in p
    ensures Split(p + [sep] + rest, sep) == [p] + Split(rest, sep)
  {
    var s := p + [sep] + rest;
    if p == [] {
      assert s[1..] == rest;
    } else {
      assert s[1..] == p[1..] + [sep] + rest;
      SplitFirst(p[1..], rest, sep);
      assert p == [p[0]] + p[1..];
    }
  }

  /** Splitting undoes joining for separator-free parts. */
  lemma {:induction false} SplitJoin(parts: seq<string>, sep: char)
    requires parts != [] && forall i | 0 <= i < |parts| :: sep !in parts[i]
    ensures Split(Join(parts, sep), sep) == parts
  {
    if |parts| == 1 {
      SplitWhole(parts[0], sep);
    } else {
      SplitJoin(parts[1..], sep);
      SplitFirst(parts[0], Join(parts[1..], sep), sep);
      assert parts == [parts[0]] + parts[1..];
    }
  }
}

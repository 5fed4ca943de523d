/** The preimage of a resolved spec's content hash: length-framed segments. A string stands for its bytes. */
module ContentHash {
  import opened Text
  import opened ExperienceSpec

  const TWO32: int := 0x1_0000_0000

  /** n in k bytes, most significant first; what does not fit is cut off. */
  function BigEndian(n: nat, k: nat): (h: string)
    ensures |h| == k
  {
    if k == 0 then [] else BigEndian(n / 256, k - 1) + [(n % 256) as char]
  }

  function Bound(k: nat): nat { if k == 0 then 1 else 256 * Bound(k - 1) }

  lemma {:induction false} BigEndianIsInjective(n: nat, m: nat, k: nat)
    requires n < Bound(k) && m < Bound(k) && BigEndian(n, k) == BigEndian(m, k)
    ensures n == m
  {
    if k > 0 {
      var a, b := BigEndian(n, k), BigEndian(m, k);
      assert a[..k - 1] == BigEndian(n / 256, k - 1) && b[..k - 1] == BigEndian(m / 256, k - 1);
      assert a[k - 1] == (n % 256) as char && b[k - 1] == (m % 256) as char;
      BigEndianIsInjective(n / 256, m / 256, k - 1);
    }
  }

  /** Four bytes, big-endian, of the length truncated to 32 bits. */
  function Header(n: nat): (h: string)
    ensures |h| == 4
  {
    BigEndian(n % 0x1_0000_0000, 4)
  }

  lemma HeaderIsInjective(a: nat, b: nat)
    requires a < TWO32 && b < TWO32 && Header(a) == Header(b)
    ensures a == b
  {
    FourByteBound();
    assert a % 0x1_0000_0000 == a && b % 0x1_0000_0000 == b;
    BigEndianIsInjective(a, b, 4);
  }

  /** The header spells the length modulo 2^32, most significant byte first. */
  lemma HeaderSpells(n: nat)
    ensures forall i | 0 <= i < 4 :: Header(n)[i] as int < 256
    ensures Header(n)[0] as int * 0x100_0000 + Header(n)[1] as int * 0x1_0000 + Header(n)[2] as int * 0x100
      + Header(n)[3] as int == n % TWO32
  {
    var m := n % TWO32;
    LastByte(m, 4);
    LastByte(m / 256, 3);
    LastByte(m / 256 / 256, 2);
    LastByte(m / 256 / 256 / 256, 1);
  }

  lemma LastByte(n: nat, k: nat)
    requires k > 0
    ensures BigEndian(n, k)[k - 1] as int == n % 256 && BigEndian(n, k)[..k - 1] == BigEndian(n / 256, k - 1)
  {}

  lemma FourByteBound()
    ensures Bound(4) == TWO32
  {}

  /** appendFramed's addition to the buffer. */
  function Frame(segment: string): string { Header(|segment|) + segment }

  function Frames(segments: seq<string>): string {
    if segments == [] then [] else Frame(segments[0]) + Frames(segments[1..])
  }

  predicate Short(segments: seq<string>) { forall i | 0 <= i < |segments| :: |segments[i]| < TWO32 }

  lemma FirstFrame(a: string, rest: string, b: string, tail: string)
    requires |a| < TWO32 && |b| < TWO32 && Frame(a) + rest == Frame(b) + tail
    ensures a == b && rest == tail
  {
    var x, y := Frame(a) + rest, Frame(b) + tail;
    assert x[..4] == Header(|a|) && y[..4] == Header(|b|);
    HeaderIsInjective(|a|, |b|);
    assert x[4..4 + |a|] == a && y[4..4 + |b|] == b;
    assert x[4 + |a|..] == rest && y[4 + |b|..] == tail;
  }

  /** Framing is injective on lists of segments shorter than 2^32 bytes. */
  lemma {:induction false} FramesAreInjective(a: seq<string>, b: seq<string>)
    requires Short(a) && Short(b) && Frames(a) == Frames(b)
    ensures a == b
  {
    if a == [] || b == [] {
      assert Frames(a) == [] || Frames(b) == [];
    } else {
      FirstFrame(a[0], Frames(a[1..]), b[0], Frames(b[1..]));
      FramesAreInjective(a[1..], b[1..]);
      assert a == [a[0]] + a[1..] && b == [b[0]] + b[1..];
    }
  }

  lemma OneFrame(s: string)
    ensures Frames([s]) == Frame(s)
  {
    assert [s][1..] == [];
  }

  lemma TwoFrames(s: string, t: string)
    ensures Frames([s, t]) == Frame(s) + Frame(t)
  {
    assert [s, t][1..] == [t];
    OneFrame(t);
  }

  /** From 2^32 bytes on the truncated length no longer separates: a segment made of `pad` and a framed x is read
      as the two segments pad and x. */
  lemma LongSegmentsCollide(pad: string, x: string)
    requires (|pad| + 4 + |x|) % TWO32 == |pad|
    ensures Frames([pad + Frame(x)]) == Frames([pad, x])
  {
    OneFrame(pad + Frame(x));
    TwoFrames(pad, x);
    HeaderWraps(|pad + Frame(x)|, |pad|);
    HeadPadTail(Header(|pad|), pad, Frame(x));
  }

  lemma HeaderWraps(n: nat, k: nat)
    requires n % TWO32 == k
    ensures Header(n) == Header(k)
  {
    assert k % TWO32 == k;
  }

  lemma HeadPadTail(head: string, pad: string, tail: string)
    ensures head + (pad + tail) == head + pad + tail
  {}

  /** Some segment of every length from 2^32 bytes on collides. */
  lemma EveryLongLengthCollides(n: nat) returns (a: seq<string>, b: seq<string>)
    requires n >= TWO32
    ensures |a| == 1 && |a[0]| == n && a != b && Frames(a) == Frames(b)
  {
    var k := n % TWO32;
    var pad := seq(k, _ => 'x');
    var x := seq(n - k - 4, _ => 'x');
    a, b := [pad + Frame(x)], [pad, x];
    LongSegmentsCollide(pad, x);
  }

  /** No two lists of segments frame to the same N bytes. */
  ghost predicate SeparatesAt(n: nat) { forall a, b | Frames(a) == Frames(b) && |Frames(a)| == n :: a == b }

  /** Framing is injective on outputs of N bytes exactly when N is below 2^32 + 4. */
  lemma SeparatesIff(n: nat)
    ensures SeparatesAt(n) <==> n < TWO32 + 4
  {
    if n < TWO32 + 4 {
      forall a, b | Frames(a) == Frames(b) && |Frames(a)| == n ensures a == b {
        ShortOutput(a);
        ShortOutput(b);
        FramesAreInjective(a, b);
      }
    } else {
      var a, b := EveryLongLengthCollides(n - 4);
      OneFrame(a[0]);
      assert a == [a[0]];
    }
  }

  lemma ShortOutput(a: seq<string>)
    requires |Frames(a)| < TWO32 + 4
    ensures Short(a)
  {
    forall i | 0 <= i < |a| ensures |a[i]| < TWO32 { FramesCover(a, i); }
  }

  lemma {:induction false} FramesConcat(a: seq<string>, b: seq<string>)
    ensures Frames(a + b) == Frames(a) + Frames(b)
  {
    if a == [] {
      assert a + b == b;
    } else {
      assert (a + b)[1..] == a[1..] + b;
      FramesConcat(a[1..], b);
    }
  }

  lemma {:induction false} FramesCover(segments: seq<string>, i: nat)
    requires i < |segments|
    ensures |segments[i]| + 4 <= |Frames(segments)|
  {
    if i > 0 { FramesCover(segments[1..], i - 1); }
  }

  // ---------------------------------------------------------------- the tuple

  function Tagged(tag: string, xs: seq<string>): (r: seq<string>)
    ensures |r| == |xs| && forall i | 0 <= i < |xs| :: r[i] == tag + xs[i]
  {
    seq(|xs|, i requires 0 <= i < |xs| => tag + xs[i])
  }

  ghost function Segments(t: Tuple): seq<string> {
    ["role=" + t.role, "entitlements=" + t.entitlement, "form_factor=" + t.formFactor, "tenant=" + t.tenant,
     "org=" + t.org]
    + Tagged("granted=", SortedKeys(t.granted))
  }

  ghost function TupleBytes(t: Tuple): string { Frames(Segments(t)) }

  /** The tuple's bytes frame its five axes, tagged and in this order, and then the granted surfaces in byte order. */
  lemma TupleText(t: Tuple, granted: seq<string>)
    requires |granted| == |SortedKeys(t.granted)|
    requires forall i | 0 <= i < |granted| :: granted[i] == "granted=" + SortedKeys(t.granted)[i]
    ensures TupleBytes(t)
         == Frames(["role=" + t.role, "entitlements=" + t.entitlement, "form_factor=" + t.formFactor,
                    "tenant=" + t.tenant, "org=" + t.org] + granted)
  {
    TaggedIs("granted=", SortedKeys(t.granted), granted);
  }

  lemma TaggedIs(tag: string, xs: seq<string>, ys: seq<string>)
    requires |ys| == |xs| && forall i | 0 <= i < |ys| :: ys[i] == tag + xs[i]
    ensures Tagged(tag, xs) == ys
  {}

  /** The buffer holds the first i segments; append the next. */
  method AppendFramed(dst: string, segment: string, ghost all: seq<string>, ghost i: nat) returns (r: string)
    requires i < |all| && all[i] == segment && dst == Frames(all[..i])
    ensures r == Frames(all[..i + 1])
    ensures r == dst + Header(|segment|) + segment
  {
    assert all[..i + 1] == all[..i] + [segment];
    FramesConcat(all[..i], [segment]);
    assert [segment][1..] == [];
    r := dst + Header(|segment|) + segment;
  }

  method AxesPreimage(t: Tuple, ghost all: seq<string>) returns (out: string)
    requires |all| >= 5 && all[0] == "role=" + t.role && all[1] == "entitlements=" + t.entitlement
    requires all[2] == "form_factor=" + t.formFactor && all[3] == "tenant=" + t.tenant && all[4] == "org=" + t.org
    ensures out == Frames(all[..5])
  {
    out := AppendFramed("", "role=" + t.role, all, 0);
    out := AppendFramed(out, "entitlements=" + t.entitlement, all, 1);
    out := AppendFramed(out, "form_factor=" + t.formFactor, all, 2);
    out := AppendFramed(out, "tenant=" + t.tenant, all, 3);
    out := AppendFramed(out, "org=" + t.org, all, 4);
  }

  /** The granted set is a map, iterated in any order, then sorted. */
  method TuplePreimage(t: Tuple) returns (out: string)
    ensures out == TupleBytes(t)
  {
    ghost var all := Segments(t);
    out := AxesPreimage(t, all);
    var granted := SortKeys(t.granted);
    out := GrantedPreimage(out, granted, all);
  }

  method GrantedPreimage(axes: string, granted: seq<string>, ghost all: seq<string>) returns (out: string)
    requires |all| == 5 + |granted| && all[5..] == Tagged("granted=", granted) && axes == Frames(all[..5])
    ensures out == Frames(all)
  {
    out := axes;
    for i := 0 to |granted|
      invariant out == Frames(all[..5 + i])
    {
      assert all[5 + i] == all[5..][i];
      out := AppendFramed(out, "granted=" + granted[i], all, 5 + i);
    }
    assert all[..5 + |granted|] == all;
  }

  lemma Untag(tag: string, x: string, y: string)
    requires tag + x == tag + y
    ensures x == y
  {
    assert (tag + x)[|tag|..] == x && (tag + y)[|tag|..] == y;
  }

  /** Equal segments, equal tuples. */
  lemma SegmentsAreInjective(t: Tuple, u: Tuple)
    requires Segments(t) == Segments(u)
    ensures t == u
  {
    var a, b := Segments(t), Segments(u);
    assert a[0] == b[0] && a[1] == b[1] && a[2] == b[2] && a[3] == b[3] && a[4] == b[4];
    Untag("role=", t.role, u.role);
    Untag("entitlements=", t.entitlement, u.entitlement);
    Untag("form_factor=", t.formFactor, u.formFactor);
    Untag("tenant=", t.tenant, u.tenant);
    Untag("org=", t.org, u.org);
    GrantedIsRecovered(t.granted, u.granted) by {
      assert a[5..] == Tagged("granted=", SortedKeys(t.granted));
      assert b[5..] == Tagged("granted=", SortedKeys(u.granted));
    }
  }

  lemma GrantedIsRecovered(a: set<string>, b: set<string>)
    requires Tagged("granted=", SortedKeys(a)) == Tagged("granted=", SortedKeys(b))
    ensures a == b
  {
    var xs, ys := SortedKeys(a), SortedKeys(b);
    assert |Tagged("granted=", xs)| == |xs| && |Tagged("granted=", ys)| == |ys|;
    forall i | 0 <= i < |xs| ensures xs[i] == ys[i] {
      assert Tagged("granted=", xs)[i] == "granted=" + xs[i];
      assert Tagged("granted=", ys)[i] == "granted=" + ys[i];
      Untag("granted=", xs[i], ys[i]);
    }
    assert xs == ys;
    assert forall k :: k in a <==> k in xs;
    assert forall k :: k in b <==> k in ys;
  }

  // ---------------------------------------------------------------- the whole preimage

  /** Deterministic marshalling of a spec; a failure yields the empty segment. */
  type Marshal = Spec -> string
  type Hash = string -> string

  function Unhashed(spec: Spec): Spec { spec.(contentHash := "") }

  ghost function Preimage(spec: Spec, t: Tuple, marshal: Marshal): string {
    Frames([marshal(Unhashed(spec)), TupleBytes(t)])
  }

  ghost function HashOf(spec: Spec, t: Tuple, marshal: Marshal, hash: Hash): string { hash(Preimage(spec, t, marshal)) }

  method ComputeHash(spec: Spec, t: Tuple, marshal: Marshal, hash: Hash) returns (r: string)
    ensures r == HashOf(spec, t, marshal, hash)
    ensures r == hash(Frame(marshal(spec.(contentHash := ""))) + Frame(TupleBytes(t)))
  {
    TwoFrames(marshal(spec.(contentHash := "")), TupleBytes(t));
    var specBytes := marshal(Unhashed(spec));
    var tupleBytes := TuplePreimage(t);
    ghost var all := [specBytes, tupleBytes];
    var preimage := AppendFramed("", specBytes, all, 0);
    preimage := AppendFramed(preimage, tupleBytes, all, 1);
    assert all[..2] == all;
    r := hash(preimage);
  }

  /** Equal preimages force equal spec bytes and equal tuples. */
  lemma PreimageIsInjective(s: Spec, t: Tuple, s': Spec, t': Tuple, marshal: Marshal)
    requires |marshal(Unhashed(s))| < TWO32 && |marshal(Unhashed(s'))| < TWO32
    requires |TupleBytes(t)| < TWO32 && |TupleBytes(t')| < TWO32
    requires Preimage(s, t, marshal) == Preimage(s', t', marshal)
    ensures marshal(Unhashed(s)) == marshal(Unhashed(s')) && t == t'
  {
    var a, b := [marshal(Unhashed(s)), TupleBytes(t)], [marshal(Unhashed(s')), TupleBytes(t')];
    FramesAreInjective(a, b);
    assert a[0] == b[0] && a[1] == b[1];
    ShortSegments(t);
    ShortSegments(t');
    FramesAreInjective(Segments(t), Segments(t'));
    SegmentsAreInjective(t, t');
  }

  lemma ShortSegments(t: Tuple)
    requires |TupleBytes(t)| < TWO32
    ensures Short(Segments(t))
  {
    forall i | 0 <= i < |Segments(t)| ensures |Segments(t)[i]| < TWO32 { FramesCover(Segments(t), i); }
  }

  /** Unless the hash or the marshaller confuses these two specs and tuples, a cache key names one tuple and one
      resolved spec
      (up to the hash field itself). */
  lemma CacheKeyNamesOneSpec(s: Spec, t: Tuple, s': Spec, t': Tuple, marshal: Marshal, hash: Hash)
    requires |marshal(Unhashed(s))| < TWO32 && |marshal(Unhashed(s'))| < TWO32
    requires |TupleBytes(t)| < TWO32 && |TupleBytes(t')| < TWO32
    requires hash(Preimage(s, t, marshal)) == hash(Preimage(s', t', marshal)) ==>
      Preimage(s, t, marshal) == Preimage(s', t', marshal)
    requires marshal(Unhashed(s)) == marshal(Unhashed(s')) ==> Unhashed(s) == Unhashed(s')
    requires HashOf(s, t, marshal, hash) == HashOf(s', t', marshal, hash)
    ensures t == t' && Unhashed(s) == Unhashed(s')
  {
    PreimageIsInjective(s, t, s', t', marshal);
  }
}

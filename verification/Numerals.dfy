/** Decimal numerals: what %d prints and strconv.Atoi reads. */
module Numerals {
  import opened Options

  predicate IsDigit(c: char) { '0' <= c <= '9' }

  predicate Digits(s: string) { forall i | 0 <= i < |s| :: IsDigit(s[i]) }

  function NatStr(n: nat): (s: string)
    ensures s != [] && Digits(s)
  {
    var last := ['0' + (n % 10) as char];
    if n < 10 then last else NatStr(n / 10) + last
  }

  function NatVal(s: string): nat
    requires Digits(s)
  {
    if s == [] then 0 else NatVal(s[..|s| - 1]) * 10 + (s[|s| - 1] as int - '0' as int)
  }

  lemma {:induction false} NatRoundTrip(n: nat)
    ensures NatVal(NatStr(n)) == n
  {
    var s := NatStr(n);
    if n >= 10 {
      NatRoundTrip(n / 10);
      assert s[..|s| - 1] == NatStr(n / 10);
    } else {
      assert s[..|s| - 1] == [];
    }
  }

  function IntStr(n: int): (s: string)
    ensures s != []
  {
    if n < 0 then "-" + NatStr(-n) else NatStr(n)
  }

  /** An optional sign and at least one digit. */
  predicate Numeral(s: string) {
    if s != [] && (s[0] == '-' || s[0] == '+') then s[1..] != [] && Digits(s[1..]) else s != [] && Digits(s)
  }

  function IntVal(s: string): int
    requires Numeral(s)
  {
    var signed := s[0] == '-' || s[0] == '+';
    var magnitude: int := NatVal(if signed then s[1..] else s);
    if s[0] == '-' then -magnitude else magnitude
  }

  lemma IntRoundTrip(n: int)
    ensures Numeral(IntStr(n)) && IntVal(IntStr(n)) == n
    ensures forall i | 0 <= i < |IntStr(n)| :: IsDigit(IntStr(n)[i]) || IntStr(n)[i] == '-'
  {
    if n < 0 {
      NatRoundTrip(-n);
      assert IntStr(n)[1..] == NatStr(-n);
    } else {
      NatRoundTrip(n);
    }
  }

  const MAX_INT64: int := 0x7fff_ffff_ffff_ffff
  const MIN_INT64: int := -0x8000_0000_0000_0000

  /** strconv.Atoi on a 64-bit platform: syntax and range errors are both errors. */
  function Atoi(s: string): Option<int> {
    if Numeral(s) && MIN_INT64 <= IntVal(s) <= MAX_INT64 then Some(IntVal(s)) else None
  }

  /** Decimal digits, most significant first. */
  lemma NextDigit(s: string, d: nat)
    requires Digits(s) && d < 10
    ensures NatVal("") == 0 && Digits(s + ["0123456789"[d]])
    ensures NatVal(s + ["0123456789"[d]]) == 10 * NatVal(s) + d
  {
    var t := s + ["0123456789"[d]];
    assert t[..|t| - 1] == s;
  }

  /** strconv.Atoi reads digits after at most one sign, of either kind, within 64 bits. */
  lemma AtoiReads(s: string)
    requires s != "" && Digits(s)
    ensures Atoi(s) == if NatVal(s) < 0x8000_0000_0000_0000 then Some(NatVal(s)) else None
    ensures Atoi("+" + s) == Atoi(s)
    ensures Atoi("-" + s) == if NatVal(s) <= 0x8000_0000_0000_0000 then Some(0 - NatVal(s)) else None
  {
    assert ("+" + s)[1..] == s && ("-" + s)[1..] == s;
  }

  /** Nothing else is a number. */
  lemma AtoiRefuses(s: string)
    requires s == "" || s == "+" || s == "-" || s[0] !in "+-0123456789" || exists i :: 0 < i < |s| && !IsDigit(s[i])
    ensures Atoi(s) == None
  {
    if i :| 0 < i < |s| && !IsDigit(s[i]) { assert !IsDigit(s[1..][i - 1]); }
    if s != "" && IsDigit(s[0]) { assert s[0] == "0123456789"[s[0] as int - '0' as int]; }
  }

  /** Two's-complement wrap-around of a 64-bit int. */
  function Wrap64(n: int): int {
    var m := n % 0x1_0000_0000_0000_0000;
    if m > MAX_INT64 then m - 0x1_0000_0000_0000_0000 else m
  }

  lemma AtoiRoundTrip(n: int)
    requires MIN_INT64 <= n <= MAX_INT64
    ensures Atoi(IntStr(n)) == Some(n)
  {
    IntRoundTrip(n);
  }
}

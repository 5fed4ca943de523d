/** The subject of a handoff code: edenhandoff.v1|<jti>|<query-escaped audience>, over byte strings. */
module HandoffSubject {
  import opened Options
  import opened Text

  /** A Go string: a sequence of bytes. */
  type ByteString = s: string | forall i | 0 <= i < |s| :: s[i] as int < 256

  const PREFIX: string := "edenhandoff.v1"
  const HEX: string := "0123456789abcdefABCDEF"

  predicate Unreserved(c: char) {
    'a' <= c <= 'z' || 'A' <= c <= 'Z' || '0' <= c <= '9' || c == '-' || c == '_' || c == '.' || c == '~'
  }

  function UpperHex(n: nat): char
    requires n < 16
  {
    if n < 10 then '0' + n as char else 'A' + (n - 10) as char
  }

  function UnHex(c: char): Option<nat> {
    if '0' <= c <= '9' then Some(c as int - '0' as int)
    else if 'a' <= c <= 'f' then Some(c as int - 'a' as int + 10)
    else if 'A' <= c <= 'F' then Some(c as int - 'A' as int + 10)
    else None
  }

  function EscapeByte(c: char): string
    requires c as int < 256
  {
    if Unreserved(c) then [c]
    else if c == ' ' then ['+']
    else ['%', UpperHex(c as int / 16), UpperHex(c as int % 16)]
  }

  /** url.QueryEscape. */
  function QueryEscape(s: ByteString): string {
    if s == [] then [] else EscapeByte(s[0]) + QueryEscape(s[1..])
  }

  /** url.QueryUnescape; None is an error. */
  function QueryUnescape(s: string): Option<string> {
    if s == [] then Some([])
    else if s[0] == '%' then
      if |s| < 3 || UnHex(s[1]).None? || UnHex(s[2]).None? then None
      else
        var rest := QueryUnescape(s[3..]);
        if rest.None? then None else Some([(UnHex(s[1]).value * 16 + UnHex(s[2]).value) as char] + rest.value)
    else
      var rest := QueryUnescape(s[1..]);
      if rest.None? then None else Some([if s[0] == '+' then ' ' else s[0]] + rest.value)
  }

  /** Every byte string, "|", "%" and "+" included, survives escaping, and the escaped form has no "|". */
  lemma {:induction false} EscapeRoundTrip(s: ByteString)
    ensures QueryUnescape(QueryEscape(s)) == Some(s) && '|' !in QueryEscape(s)
  {
    if s != [] {
      EscapeRoundTrip(s[1..]);
      ByteRoundTrip(s[0], QueryEscape(s[1..]), s[1..]);
      assert s == [s[0]] + s[1..];
    }
  }

  /** One escaped byte in front of a text that unescapes. */
  lemma ByteRoundTrip(c: char, text: string, rest: string)
    requires c as int < 256 && QueryUnescape(text) == Some(rest)
    ensures QueryUnescape(EscapeByte(c) + text) == Some([c] + rest) && '|' !in EscapeByte(c)
  {
    var e := EscapeByte(c);
    var whole := e + text;
    assert whole[|e|..] == text && whole[0] == e[0];
    if |e| == 3 {
      HexPair(c);
      EscapedByte(e[1], e[2], text, c as int / 16, c as int % 16);
      assert e == ['%', e[1], e[2]];
    }
  }

  lemma EscapedByte(x: char, y: char, text: string, high: nat, low: nat)
    requires UnHex(x) == Some(high) && UnHex(y) == Some(low) && QueryUnescape(text).Some? && high * 16 + low < 256
    ensures QueryUnescape(['%', x, y] + text) == Some([(high * 16 + low) as char] + QueryUnescape(text).value)
  {
    assert (['%', x, y] + text)[3..] == text;
  }

  lemma HexPair(c: char)
    requires c as int < 256
    ensures UnHex(UpperHex(c as int / 16)) == Some(c as int / 16)
    ensures UnHex(UpperHex(c as int % 16)) == Some(c as int % 16)
    ensures (c as int / 16 * 16 + c as int % 16) as char == c
  {}

  function Subject(jti: string, audience: ByteString): string {
    Join([PREFIX, jti, QueryEscape(audience)], '|')
  }

  lemma SubjectText(jti: string, audience: ByteString)
    ensures Subject(jti, audience) == "edenhandoff.v1|" + jti + "|" + QueryEscape(audience)
  {
    ThreeParts(jti, QueryEscape(audience));
  }

  /** Letters, digits and "-_.~" stand for themselves, a space becomes "+", every other byte a percent triplet with
      two upper-case hexadecimal digits. */
  lemma EscapeText(c: char)
    requires c as int < 256
    ensures EscapeByte(c) ==
      if 'a' <= c <= 'z' || 'A' <= c <= 'Z' || '0' <= c <= '9' || c in "-_.~" then [c]
      else if c == ' ' then "+"
      else ['%', "0123456789ABCDEF"[c as int / 16], "0123456789ABCDEF"[c as int % 16]]
  {}

  /** Unescaping reads "+" as a space and everything else but a percent sign as itself. */
  lemma UnescapeText(c: char, rest: string)
    ensures QueryUnescape("") == Some("")
    ensures c != '%' ==> QueryUnescape([c] + rest) == Prepend(if c == '+' then ' ' else c, QueryUnescape(rest))
  {
    assert ([c] + rest)[1..] == rest;
  }

  /** A percent triplet is read in either case of its digits. */
  lemma UnescapeTriplet(m: nat, n: nat, upper: bool, rest: string)
    requires m < 16 && n < 16
    ensures var digits := if upper then "0123456789ABCDEF" else "0123456789abcdef";
      QueryUnescape(['%', digits[m], digits[n]] + rest) == Prepend((16 * m + n) as char, QueryUnescape(rest))
  {
    HexDigits(m, upper);
    HexDigits(n, upper);
    var digits := if upper then "0123456789ABCDEF" else "0123456789abcdef";
    TripletRead(digits[m], digits[n], m, n, rest);
  }

  lemma TripletRead(x: char, y: char, m: nat, n: nat, rest: string)
    requires m < 16 && n < 16 && UnHex(x) == Some(m) && UnHex(y) == Some(n)
    ensures QueryUnescape(['%', x, y] + rest) == Prepend((16 * m + n) as char, QueryUnescape(rest))
  {
    assert (['%', x, y] + rest)[3..] == rest;
  }

  /** A triplet that is cut short or has a digit that is none is refused. */
  lemma UnescapeRefuses(rest: string)
    requires |rest| < 2 || rest[0] !in HEX || rest[1] !in HEX
    ensures QueryUnescape(['%'] + rest) == None
  {
    var s := ['%'] + rest;
    if |rest| >= 2 {
      assert s[1] == rest[0] && s[2] == rest[1];
      NoHex(rest[0]);
      NoHex(rest[1]);
    }
  }

  function Prepend(c: char, s: Option<string>): Option<string> { if s.None? then None else Some([c] + s.value) }

  lemma HexDigits(n: nat, upper: bool)
    requires n < 16
    ensures UnHex((if upper then "0123456789ABCDEF" else "0123456789abcdef")[n]) == Some(n)
  {}

  lemma NoHex(c: char)
    ensures UnHex(c).None? <==> c !in HEX
  {
    if UnHex(c).Some? {
      var i := if c <= '9' then c as int - '0' as int else if c <= 'F' then c as int - 'A' as int + 16
               else c as int - 'a' as int + 10;
      assert HEX[i] == c;
    }
  }

  /** parseHandoffSubject. */
  function ParseSubject(subject: string): Option<(string, string)> {
    var parts := Split(subject, '|');
    if |parts| != 3 || parts[0] != PREFIX || parts[1] == "" then None
    else
      var audience := QueryUnescape(parts[2]);
      if audience.None? then None else Some((parts[1], audience.value))
  }

  /** The encoding round-trips for every non-empty "|"-free jti and every audience. */
  lemma SubjectRoundTrip(jti: string, audience: ByteString)
    requires jti != "" && '|' !in jti
    ensures ParseSubject(Subject(jti, audience)) == Some((jti, audience))
  {
    EscapeRoundTrip(audience);
    assert '|' !in PREFIX;
    SplitJoin([PREFIX, jti, QueryEscape(audience)], '|');
  }

  /** What parses is tagged: prefix, a non-empty "|"-free jti, and an escaped audience. */
  lemma ParsedShape(subject: string)
    requires ParseSubject(subject).Some?
    ensures var (jti, audience) := ParseSubject(subject).value;
      jti != "" && '|' !in jti &&
      exists escaped :: subject == Join([PREFIX, jti, escaped], '|') && QueryUnescape(escaped) == Some(audience)
  {
    var parts := Split(subject, '|');
    assert parts == [PREFIX, parts[1], parts[2]];
    assert subject == Join([PREFIX, parts[1], parts[2]], '|');
  }

  /** Exactly when a subject parses, and to what. */
  lemma ParsesIff(subject: string, jti: string, audience: string)
    ensures ParseSubject(subject) == Some((jti, audience)) <==>
      && jti != "" && '|' !in jti
      && exists escaped ::
           && '|' !in escaped && QueryUnescape(escaped) == Some(audience)
           && subject == "edenhandoff.v1|" + jti + "|" + escaped
  {
    if ParseSubject(subject) == Some((jti, audience)) {
      var parts := Split(subject, '|');
      assert parts == [PREFIX, parts[1], parts[2]];
      ThreeParts(jti, parts[2]);
    }
    if jti != "" && '|' !in jti {
      forall escaped | '|' !in escaped && subject == "edenhandoff.v1|" + jti + "|" + escaped
        ensures Split(subject, '|') == [PREFIX, jti, escaped]
      {
        ThreeParts(jti, escaped);
        assert '|' !in PREFIX;
        SplitJoin([PREFIX, jti, escaped], '|');
      }
    }
  }

  lemma ThreeParts(jti: string, escaped: string)
    ensures Join([PREFIX, jti, escaped], '|') == "edenhandoff.v1|" + jti + "|" + escaped
  {
    var parts := [PREFIX, jti, escaped];
    assert parts[1..] == [jti, escaped] && parts[1..][1..] == [escaped];
    assert Join(parts[1..], '|') == jti + ['|'] + escaped;
  }

  /** The textual form of a UUID, as far as it matters here. */
  predicate UuidText(s: string) { |s| == 36 && '|' !in s }

  /** No SSO state subject, with a PKCE verifier or in the legacy form without one, parses as a handoff. */
  lemma StateNeverParses(company: string, provider: string, redirect: string, verifier: string)
    requires UuidText(company)
    ensures ParseSubject(company + "|" + provider + "|" + redirect + "|" + verifier) == None
    ensures ParseSubject(company + "|" + provider + "|" + redirect) == None
  {
    var tail4 := provider + "|" + redirect + "|" + verifier;
    var tail3 := provider + "|" + redirect;
    assert company + "|" + provider + "|" + redirect + "|" + verifier == company + ['|'] + tail4;
    assert company + "|" + provider + "|" + redirect == company + ['|'] + tail3;
    SplitFirst(company, tail4, '|');
    SplitFirst(company, tail3, '|');
  }
}

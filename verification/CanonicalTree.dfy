/**
 Canonical JSON: the printer of decoded trees, a parser for RFC 8259 values, and their round trip.

 `Json` is a decoded value (objects are maps). `Doc` is a value with its members in printing order; a
 decoded tree is printed by sorting every object's keys. A number is its token, as Go prints the
 decoded float64.
 */
module CanonicalTree {
  import opened Options
  import opened Text

  predicate IsNumChar(c: char) { '0' <= c <= '9' || c == '-' || c == '+' || c == '.' || c == 'e' || c == 'E' }

  predicate IsNumToken(t: string) {
    t != [] && ('0' <= t[0] <= '9' || t[0] == '-') && forall i | 0 <= i < |t| :: IsNumChar(t[i])
  }

  type NumToken = t: string | IsNumToken(t) witness "0"

  datatype Json =
    | Null
    | Bool(b: bool)
    | Num(token: NumToken)
    | Str(s: string)
    | Arr(items: seq<Json>)
    | Obj(members: map<string, Json>)

  datatype Doc =
    | DNull
    | DBool(b: bool)
    | DNum(token: NumToken)
    | DStr(s: string)
    | DArr(items: seq<Doc>)
    | DObj(members: seq<Member>)

  datatype Member = Member(key: string, value: Doc)

  // ---------------------------------------------------------------- strings

  function HexDigit(n: nat): char
    requires n < 16
  {
    if n < 10 then '0' + n as char else 'a' + (n - 10) as char
  }

  function HexValue(c: char): Option<nat> {
    if '0' <= c <= '9' then Some(c as int - '0' as int)
    else if 'a' <= c <= 'f' then Some(c as int - 'a' as int + 10)
    else if 'A' <= c <= 'F' then Some(c as int - 'A' as int + 10)
    else None
  }

  function UnicodeEscape(n: nat): string
    requires n < 0x10000
  {
    ['\\', 'u', HexDigit(n / 0x1000), HexDigit(n / 0x100 % 16), HexDigit(n / 16 % 16), HexDigit(n % 16)]
  }

  /** encoding/json string escaping with HTML escaping off. */
  function EscapeChar(c: char): string {
    if c == '"' then ['\\', '"']
    else if c == '\\' then ['\\', '\\']
    else if c == '\n' then ['\\', 'n']
    else if c == '\r' then ['\\', 'r']
    else if c == '\t' then ['\\', 't']
    else if c == '\U{8}' then ['\\', 'b']
    else if c == '\U{c}' then ['\\', 'f']
    else if c < ' ' || c == '\U{2028}' || c == '\U{2029}' then UnicodeEscape(c as int)
    else [c]
  }

  /** Quote, backslash and the five short controls by letter; other controls and the two line separators by a
      lower-case hexadecimal escape; everything else, "<", ">" and "&" included, as it is. */
  lemma EscapeCharIs(c: char)
    ensures EscapeChar(c) ==
      if c == '"' then "\\\"" else if c == '\\' then "\\\\" else if c == '\n' then "\\n" else if c == '\r' then "\\r"
      else if c == '\t' then "\\t" else if c == '\U{8}' then "\\b" else if c == '\U{c}' then "\\f"
      else if c == '\U{2028}' then "\\u2028" else if c == '\U{2029}' then "\\u2029"
      else if c < ' ' then "\\u00" + ["01"[c as int / 16], "0123456789abcdef"[c as int % 16]]
      else [c]
  {}

  function EscapeBody(s: string): string {
    if s == [] then [] else EscapeChar(s[0]) + EscapeBody(s[1..])
  }

  function PrintStr(s: string): string { ['"'] + EscapeBody(s) + ['"'] }

  function ShortEscape(c: char): Option<char> {
    if c == '"' || c == '\\' || c == '/' then Some(c)
    else if c == 'n' then Some('\n')
    else if c == 'r' then Some('\r')
    else if c == 't' then Some('\t')
    else if c == 'b' then Some('\U{8}')
    else if c == 'f' then Some('\U{c}')
    else None
  }

  function Hex4(s: string): Option<char>
    requires |s| >= 4
  {
    var a, b, c, d := HexValue(s[0]), HexValue(s[1]), HexValue(s[2]), HexValue(s[3]);
    if a.None? || b.None? || c.None? || d.None? then None
    else
      var n := ((a.value * 16 + b.value) * 16 + c.value) * 16 + d.value;
      if 0xd800 <= n < 0xe000 then None else Some(n as char)
  }

  /** One string character or escape sequence. */
  function ParseChar(s: string): (r: Option<(char, string)>)
    ensures r.Some? ==> |r.value.1| < |s|
  {
    if s == [] || s[0] == '"' || s[0] < ' ' then None
    else if s[0] != '\\' then Some((s[0], s[1..]))
    else if |s| == 1 then None
    else if s[1] == 'u' then
      if |s| < 6 || Hex4(s[2..]).None? then None else Some((Hex4(s[2..]).value, s[6..]))
    else if ShortEscape(s[1]).None? then None
    else Some((ShortEscape(s[1]).value, s[2..]))
  }

  /** The characters up to the closing quote, and what follows it. */
  function ParseStr(s: string): (r: Option<(string, string)>)
    ensures r.Some? ==> |r.value.1| < |s|
    decreases |s|
  {
    if s != [] && s[0] == '"' then Some(("", s[1..]))
    else
      var first := ParseChar(s);
      if first.None? then None
      else
        var more := ParseStr(first.value.1);
        if more.None? then None else Some(([first.value.0] + more.value.0, more.value.1))
  }

  lemma CharRoundTrip(c: char, rest: string)
    ensures ParseChar(EscapeChar(c) + rest) == Some((c, rest))
    ensures EscapeChar(c)[0] != '"'
  {
    var s := EscapeChar(c) + rest;
    if |EscapeChar(c)| == 6 {
      assert s[2..][..4] == EscapeChar(c)[2..];
      HexRoundTrip(c as int, s[2..]);
      assert s[6..] == rest;
    } else if |EscapeChar(c)| == 2 {
      assert s[2..] == rest;
    } else {
      assert s[1..] == rest;
    }
  }

  lemma HexRoundTrip(n: nat, s: string)
    requires n < 0xd800 && |s| >= 4 && s[..4] == UnicodeEscape(n)[2..]
    ensures Hex4(s) == Some(n as char)
  {
    assert s[0] == s[..4][0] && s[1] == s[..4][1] && s[2] == s[..4][2] && s[3] == s[..4][3];
    HexDigitRoundTrip(n / 0x1000);
    HexDigitRoundTrip(n / 0x100 % 16);
    HexDigitRoundTrip(n / 16 % 16);
    HexDigitRoundTrip(n % 16);
    FourDigits(n);
  }

  lemma HexDigitRoundTrip(k: nat)
    requires k < 16
    ensures HexValue(HexDigit(k)) == Some(k)
  {}

  lemma FourDigits(n: nat)
    ensures n == ((n / 0x1000 * 16 + n / 0x100 % 16) * 16 + n / 16 % 16) * 16 + n % 16
  {
    var sixteens := n / 16;
    var more := sixteens / 16;
    assert n / 0x100 == more && n / 0x1000 == more / 16;
  }

  lemma {:induction false} StrRoundTrip(s: string, rest: string)
    ensures ParseStr(EscapeBody(s) + ['"'] + rest) == Some((s, rest))
  {
    var text := EscapeBody(s) + ['"'] + rest;
    if s == [] {
      assert text == ['"'] + rest;
    } else {
      var more := EscapeBody(s[1..]) + ['"'] + rest;
      assert text == EscapeChar(s[0]) + more;
      CharRoundTrip(s[0], more);
      assert text[0] == EscapeChar(s[0])[0];
      StrRoundTrip(s[1..], rest);
      assert s == [s[0]] + s[1..];
    }
  }

  // ---------------------------------------------------------------- printing

  function Print(d: Doc): string
    decreases d
  {
    match d
    case DNull => "null"
    case DBool(b) => if b then "true" else "false"
    case DNum(t) => t
    case DStr(s) => PrintStr(s)
    case DArr(items) => ['['] + PrintItems(items) + [']']
    case DObj(members) => ['{'] + PrintMembers(members) + ['}']
  }

  function PrintItems(items: seq<Doc>): string
    decreases items
  {
    if items == [] then [] else
    if |items| == 1 then Print(items[0]) else Print(items[0]) + [','] + PrintItems(items[1..])
  }

  function PrintMembers(members: seq<Member>): string
    decreases members
  {
    if members == [] then [] else
    var first := PrintStr(members[0].key) + [':'] + Print(members[0].value);
    if |members| == 1 then first else first + [','] + PrintMembers(members[1..])
  }

  function PrintMember(m: Member): string { PrintStr(m.key) + [':'] + Print(m.value) }

  /** Words for null and the booleans, a number's own text, a quoted string; no white space anywhere. */
  lemma PrintIs(d: Doc)
    ensures Print(DNull) == "null" && Print(DBool(true)) == "true" && Print(DBool(false)) == "false"
    ensures d.DNum? ==> Print(d) == d.token
    ensures d.DStr? ==> Print(d) == "\"" + EscapeBody(d.s) + "\""
    ensures d.DArr? ==> Print(d) == "[" + PrintItems(d.items) + "]"
    ensures d.DObj? ==> Print(d) == "{" + PrintMembers(d.members) + "}"
  {}

  /** The decoded value of a document: a later member with the same key wins, as in encoding/json. */
  function Decoded(d: Doc): Json
    decreases d
  {
    match d
    case DNull => Null
    case DBool(b) => Bool(b)
    case DNum(t) => Num(t)
    case DStr(s) => Str(s)
    case DArr(items) => Arr(DecodedItems(items))
    case DObj(members) => Obj(DecodedMembers(members))
  }

  function DecodedItems(items: seq<Doc>): seq<Json>
    decreases items
  {
    if items == [] then [] else [Decoded(items[0])] + DecodedItems(items[1..])
  }

  function DecodedMembers(members: seq<Member>): map<string, Json>
    decreases members
  {
    if members == [] then map[]
    else map[members[0].key := Decoded(members[0].value)] + DecodedMembers(members[1..])
  }

  // ---------------------------------------------------------------- parsing

  predicate IsSpace(c: char) { c == ' ' || c == '\t' || c == '\n' || c == '\r' }

  function SkipSpace(s: string): (r: string)
    ensures |r| <= |s|
  {
    if s != [] && IsSpace(s[0]) then SkipSpace(s[1..]) else s
  }

  function NumLength(s: string): (n: nat)
    ensures n <= |s| && forall i | 0 <= i < n :: IsNumChar(s[i])
    ensures n < |s| ==> !IsNumChar(s[n])
  {
    if s != [] && IsNumChar(s[0]) then 1 + NumLength(s[1..]) else 0
  }

  predicate Starts(s: string, c: char) { s != [] && s[0] == c }

  function ParseValue(text: string): (r: Option<(Json, string)>)
    ensures r.Some? ==> |r.value.1| < |text|
    decreases |text|, 1
  {
    var s := SkipSpace(text);
    if s == [] then None
    else if "null" <= s then Some((Null, s[4..]))
    else if "true" <= s then Some((Bool(true), s[4..]))
    else if "false" <= s then Some((Bool(false), s[5..]))
    else if s[0] == '"' then
      var str := ParseStr(s[1..]);
      if str.None? then None else Some((Str(str.value.0), str.value.1))
    else if s[0] == '[' then
      if Starts(SkipSpace(s[1..]), ']') then Some((Arr([]), SkipSpace(s[1..])[1..]))
      else
        var items := ParseItems(s[1..]);
        if items.None? then None else Some((Arr(items.value.0), items.value.1))
    else if s[0] == '{' then
      if Starts(SkipSpace(s[1..]), '}') then Some((Obj(map[]), SkipSpace(s[1..])[1..]))
      else
        var members := ParseMembers(s[1..]);
        if members.None? then None else Some((Obj(members.value.0), members.value.1))
    else
      var n := NumLength(s);
      if IsNumToken(s[..n]) then Some((Num(s[..n]), s[n..])) else None
  }

  /** One or more values separated by commas, up to the closing bracket. */
  function ParseItems(text: string): (r: Option<(seq<Json>, string)>)
    ensures r.Some? ==> |r.value.1| < |text|
    decreases |text|, 2
  {
    var first := ParseValue(text);
    if first.None? then None
    else
      var after := SkipSpace(first.value.1);
      if Starts(after, ']') then Some(([first.value.0], after[1..]))
      else if !Starts(after, ',') then None
      else
        var more := ParseItems(after[1..]);
        if more.None? then None else Some(([first.value.0] + more.value.0, more.value.1))
  }

  function ParseMember(text: string): (r: Option<(string, Json, string)>)
    ensures r.Some? ==> |r.value.2| < |text|
    decreases |text|, 2
  {
    var s := SkipSpace(text);
    if !Starts(s, '"') then None
    else
      var key := ParseStr(s[1..]);
      if key.None? || !Starts(SkipSpace(key.value.1), ':') then None
      else
        var value := ParseValue(SkipSpace(key.value.1)[1..]);
        if value.None? then None else Some((key.value.0, value.value.0, value.value.1))
  }

  function ParseMembers(text: string): (r: Option<(map<string, Json>, string)>)
    ensures r.Some? ==> |r.value.1| < |text|
    decreases |text|, 3
  {
    var first := ParseMember(text);
    if first.None? then None
    else
      var after := SkipSpace(first.value.2);
      if Starts(after, '}') then Some((map[first.value.0 := first.value.1], after[1..]))
      else if !Starts(after, ',') then None
      else
        var more := ParseMembers(after[1..]);
        if more.None? then None
        else Some((map[first.value.0 := first.value.1] + more.value.0, more.value.1))
  }

  /** json.Unmarshal into an interface value: one value and nothing but space after it. */
  function Parse(text: string): Option<Json> {
    var v := ParseValue(text);
    if v.Some? && SkipSpace(v.value.1) == [] then Some(v.value.0) else None
  }

  // ---------------------------------------------------------------- round trip

  /** What may follow a printed value: not a character that would extend a number. */
  predicate Delimited(rest: string) { rest == [] || !IsNumChar(rest[0]) }

  lemma {:induction false} NumLengthOf(t: string, rest: string)
    requires Delimited(rest) && forall i | 0 <= i < |t| :: IsNumChar(t[i])
    ensures NumLength(t + rest) == |t|
  {
    if t == [] {
      assert t + rest == rest;
    } else {
      assert (t + rest)[1..] == t[1..] + rest;
      NumLengthOf(t[1..], rest);
    }
  }

  /** A printed value never starts with space or a closing bracket. */
  lemma FirstChar(d: Doc)
    ensures Print(d) != [] && !IsSpace(Print(d)[0]) && Print(d)[0] != ']' && Print(d)[0] != '}'
  {
  }

  // One unfolding of the parser for each production of the grammar.

  lemma ValueWord(d: Doc, rest: string)
    requires d.DNull? || d.DBool?
    ensures ParseValue(Print(d) + rest) == Some((Decoded(d), rest))
  {
    var text := Print(d) + rest;
    assert text[..|Print(d)|] == Print(d) && text[|Print(d)|..] == rest;
  }

  lemma ValueNumber(t: NumToken, rest: string)
    requires Delimited(rest)
    ensures ParseValue(t + rest) == Some((Num(t), rest))
  {
    var text := t + rest;
    assert text[0] == t[0];
    NumLengthOf(t, rest);
    assert text[..|t|] == t && text[|t|..] == rest;
  }

  lemma ValueString(s: string, rest: string)
    ensures ParseValue(PrintStr(s) + rest) == Some((Str(s), rest))
  {
    var text := PrintStr(s) + rest;
    assert text[1..] == EscapeBody(s) + ['"'] + rest;
    StrRoundTrip(s, rest);
  }

  lemma ValueArray(inner: string, items: seq<Json>, rest: string)
    requires ParseItems(inner) == Some((items, rest)) && !Starts(SkipSpace(inner), ']')
    ensures ParseValue(['['] + inner) == Some((Arr(items), rest))
  {
    assert (['['] + inner)[1..] == inner;
  }

  lemma ValueObject(inner: string, members: map<string, Json>, rest: string)
    requires ParseMembers(inner) == Some((members, rest)) && !Starts(SkipSpace(inner), '}')
    ensures ParseValue(['{'] + inner) == Some((Obj(members), rest))
  {
    assert (['{'] + inner)[1..] == inner;
  }

  lemma ValueEmpty(rest: string)
    ensures ParseValue("[]" + rest) == Some((Arr([]), rest))
    ensures ParseValue("{}" + rest) == Some((Obj(map[]), rest))
  {
    assert ("[]" + rest)[1..] == [']'] + rest && ("{}" + rest)[1..] == ['}'] + rest;
  }

  lemma MemberKeyValue(key: string, text: string, value: Json, rest: string)
    requires ParseValue(text) == Some((value, rest))
    ensures ParseMember(PrintStr(key) + [':'] + text) == Some((key, value, rest))
  {
    var after := [':'] + text;
    var s := PrintStr(key) + [':'] + text;
    assert s[1..] == EscapeBody(key) + ['"'] + after;
    StrRoundTrip(key, after);
    assert after[1..] == text;
  }

  lemma ItemsLast(text: string, value: Json, rest: string)
    requires ParseValue(text) == Some((value, [']'] + rest))
    ensures ParseItems(text) == Some(([value], rest))
  {
  }

  lemma ItemsMore(text: string, value: Json, more: string, items: seq<Json>, rest: string)
    requires ParseValue(text) == Some((value, [','] + more)) && ParseItems(more) == Some((items, rest))
    ensures ParseItems(text) == Some(([value] + items, rest))
  {
    assert ([','] + more)[1..] == more;
  }

  lemma MembersLast(text: string, key: string, value: Json, rest: string)
    requires ParseMember(text) == Some((key, value, ['}'] + rest))
    ensures ParseMembers(text) == Some((map[key := value], rest))
  {
  }

  lemma MembersMore(text: string, key: string, value: Json, more: string, members: map<string, Json>, rest: string)
    requires ParseMember(text) == Some((key, value, [','] + more)) && ParseMembers(more) == Some((members, rest))
    ensures ParseMembers(text) == Some((map[key := value] + members, rest))
  {
    assert ([','] + more)[1..] == more;
  }

  lemma {:induction false} PrintThenParse(d: Doc, rest: string)
    requires Delimited(rest)
    ensures ParseValue(Print(d) + rest) == Some((Decoded(d), rest))
    decreases d, 1
  {
    match d
    case DNull => ValueWord(d, rest);
    case DBool(_) => ValueWord(d, rest);
    case DNum(t) => ValueNumber(t, rest);
    case DStr(s) => ValueString(s, rest);
    case DArr(items) =>
      if items == [] {
        assert Print(d) == "[]";
        ValueEmpty(rest);
      } else {
        var inner := PrintItems(items) + [']'] + rest;
        assert Print(d) + rest == ['['] + inner;
        ItemsThenParse(items, rest);
        ValueArray(inner, DecodedItems(items), rest);
      }
    case DObj(members) =>
      if members == [] {
        assert Print(d) == "{}";
        ValueEmpty(rest);
      } else {
        var inner := PrintMembers(members) + ['}'] + rest;
        assert Print(d) + rest == ['{'] + inner;
        MembersThenParse(members, rest);
        ValueObject(inner, DecodedMembers(members), rest);
      }
  }

  /** What follows the first item of a printed array. */
  function AfterItem(items: seq<Doc>, rest: string): string
    requires items != []
  {
    if |items| == 1 then [']'] + rest else [','] + (PrintItems(items[1..]) + [']'] + rest)
  }

  lemma FirstThenRest(first: string, more: string, close: char, rest: string)
    ensures first + [close] + rest == first + ([close] + rest)
    ensures first + [','] + more + [close] + rest == first + ([','] + (more + [close] + rest))
  {}

  lemma NotAtEnd(first: string, rest: string, close: char)
    requires first != [] && !IsSpace(first[0]) && first[0] != close
    ensures !Starts(SkipSpace(first + rest), close)
  {
    assert (first + rest)[0] == first[0];
  }

  lemma ItemsText(items: seq<Doc>, rest: string)
    requires items != []
    ensures PrintItems(items) + [']'] + rest == Print(items[0]) + AfterItem(items, rest)
  {
    FirstThenRest(Print(items[0]), PrintItems(items[1..]), ']', rest);
  }

  lemma {:induction false} ItemsThenParse(items: seq<Doc>, rest: string)
    requires items != []
    ensures ParseItems(PrintItems(items) + [']'] + rest) == Some((DecodedItems(items), rest))
    ensures !Starts(SkipSpace(PrintItems(items) + [']'] + rest), ']')
    decreases items, 0
  {
    var tail := AfterItem(items, rest);
    var text := Print(items[0]) + tail;
    ItemsText(items, rest);
    FirstChar(items[0]);
    NotAtEnd(Print(items[0]), tail, ']');
    PrintThenParse(items[0], tail);
    if |items| == 1 {
      ItemsLast(text, Decoded(items[0]), rest);
      assert DecodedItems(items) == [Decoded(items[0])];
    } else {
      ItemsThenParse(items[1..], rest);
      ItemsMore(text, Decoded(items[0]), PrintItems(items[1..]) + [']'] + rest, DecodedItems(items[1..]), rest);
    }
  }

  /** What follows the first member of a printed object. */
  function AfterFirst(members: seq<Member>, rest: string): string
    requires members != []
  {
    if |members| == 1 then ['}'] + rest else [','] + (PrintMembers(members[1..]) + ['}'] + rest)
  }

  lemma MembersText(members: seq<Member>, rest: string)
    requires members != []
    ensures PrintMembers(members) + ['}'] + rest
         == PrintStr(members[0].key) + [':'] + (Print(members[0].value) + AfterFirst(members, rest))
  {
    var tail := AfterFirst(members, rest);
    FirstThenRest(PrintMember(members[0]), PrintMembers(members[1..]), '}', rest);
    KeyThenRest(PrintStr(members[0].key), Print(members[0].value), tail);
  }

  lemma KeyThenRest(key: string, value: string, tail: string)
    ensures key + [':'] + value + tail == key + [':'] + (value + tail)
  {}

  lemma QuotedStart(key: string, text: string)
    ensures !Starts(SkipSpace(PrintStr(key) + [':'] + text), '}')
  {
    NotAtEnd(PrintStr(key), [':'] + text, '}');
    assert PrintStr(key) + [':'] + text == PrintStr(key) + ([':'] + text);
  }

  lemma {:induction false} MembersThenParse(members: seq<Member>, rest: string)
    requires members != []
    ensures ParseMembers(PrintMembers(members) + ['}'] + rest) == Some((DecodedMembers(members), rest))
    ensures !Starts(SkipSpace(PrintMembers(members) + ['}'] + rest), '}')
    decreases members, 0
  {
    var key, value, tail := members[0].key, members[0].value, AfterFirst(members, rest);
    var text := PrintStr(key) + [':'] + (Print(value) + tail);
    MembersText(members, rest);
    QuotedStart(key, Print(value) + tail);
    PrintThenParse(value, tail);
    MemberKeyValue(key, Print(value) + tail, Decoded(value), tail);
    if |members| == 1 {
      MembersLast(text, key, Decoded(value), rest);
      assert DecodedMembers(members) == map[key := Decoded(value)];
    } else {
      MembersThenParse(members[1..], rest);
      var more := PrintMembers(members[1..]) + ['}'] + rest;
      MembersMore(text, key, Decoded(value), more, DecodedMembers(members[1..]), rest);
    }
  }

  /** Every printed document parses back to exactly the value it denotes. */
  lemma ParsePrint(d: Doc)
    ensures Parse(Print(d)) == Some(Decoded(d))
  {
    PrintThenParse(d, []);
    assert Print(d) + [] == Print(d);
  }

  /** What may follow a document: white space only, the four characters of section 2 of RFC 8259. */
  lemma TrailingText(d: Doc, rest: string)
    requires Delimited(rest)
    ensures Parse(Print(d) + rest) ==
      if forall i | 0 <= i < |rest| :: rest[i] in " \t\n\r" then Some(Decoded(d)) else None
  {
    PrintThenParse(d, rest);
    SkipsAll(rest);
  }

  lemma {:induction false} SkipsAll(s: string)
    ensures SkipSpace(s) == [] <==> forall i | 0 <= i < |s| :: s[i] in " \t\n\r"
  {
    if s != [] {
      SkipsAll(s[1..]);
      assert forall i | 0 < i < |s| :: s[i] == s[1..][i - 1];
      if SkipSpace(s) == [] {
        forall i | 0 <= i < |s| ensures s[i] in " \t\n\r" { if i > 0 { assert s[1..][i - 1] in " \t\n\r"; } }
      }
    }
  }

  /** A \u escape is read in either case of its digits. */
  lemma UnicodeRead(a: nat, b: nat, c: nat, d: nat, upper: bool, rest: string)
    requires a < 16 && b < 16 && c < 16 && d < 16 && !(0xd800 <= ((a * 16 + b) * 16 + c) * 16 + d < 0xe000)
    ensures var digits := if upper then "0123456789ABCDEF" else "0123456789abcdef";
      ParseChar("\\u" + [digits[a], digits[b], digits[c], digits[d]] + rest) ==
      Some(((((a * 16 + b) * 16 + c) * 16 + d) as char, rest))
  {
    var digits := if upper then "0123456789ABCDEF" else "0123456789abcdef";
    DigitRead(a, upper);
    DigitRead(b, upper);
    DigitRead(c, upper);
    DigitRead(d, upper);
    var text := "\\u" + [digits[a], digits[b], digits[c], digits[d]] + rest;
    assert text[2..] == [digits[a], digits[b], digits[c], digits[d]] + rest && text[6..] == rest;
  }

  lemma DigitRead(n: nat, upper: bool)
    requires n < 16
    ensures HexValue((if upper then "0123456789ABCDEF" else "0123456789abcdef")[n]) == Some(n)
  {}

  // ---------------------------------------------------------------- decoded trees

  /** A decoded tree with the members of every object in key order. */
  ghost function Ordered(j: Json): Doc
    decreases j, 1
  {
    match j
    case Null => DNull
    case Bool(b) => DBool(b)
    case Num(t) => DNum(t)
    case Str(s) => DStr(s)
    case Arr(items) => DArr(OrderedItems(j))
    case Obj(members) => DObj(OrderedMembers(j))
  }

  ghost function OrderedItems(j: Json): (docs: seq<Doc>)
    requires j.Arr?
    ensures |docs| == |j.items| && forall i | 0 <= i < |docs| :: docs[i] == Ordered(j.items[i])
    decreases j, 0
  {
    seq(|j.items|, i requires 0 <= i < |j.items| => Ordered(j.items[i]))
  }

  ghost function OrderedMembers(j: Json): (docs: seq<Member>)
    requires j.Obj?
    ensures var keys := SortedKeys(j.members.Keys);
      |docs| == |keys| && forall i | 0 <= i < |docs| ::
        keys[i] in j.members && docs[i] == Member(keys[i], Ordered(j.members[keys[i]]))
    decreases j, 0
  {
    var keys := SortedKeys(j.members.Keys);
    assert forall i | 0 <= i < |keys| :: keys[i] in j.members;
    seq(|keys|, i requires 0 <= i < |keys| => Member(keys[i], Ordered(j.members[keys[i]])))
  }

  /** What canonicalizeDecoded emits. */
  ghost function Canonical(j: Json): string { Print(Ordered(j)) }

  lemma DecodedItemsAt(items: seq<Doc>)
    ensures |DecodedItems(items)| == |items|
    ensures forall i | 0 <= i < |items| :: DecodedItems(items)[i] == Decoded(items[i])
  {
  }

  ghost predicate DistinctKeys(members: seq<Member>) {
    forall i, j | 0 <= i < j < |members| :: members[i].key != members[j].key
  }

  lemma {:induction false} DecodedKey(members: seq<Member>, k: string) returns (i: nat)
    requires k in DecodedMembers(members)
    ensures i < |members| && members[i].key == k
  {
    if k == members[0].key { return 0; }
    i := DecodedKey(members[1..], k);
    i := i + 1;
  }

  lemma {:induction false} DecodedMemberAt(members: seq<Member>, i: nat)
    requires DistinctKeys(members) && i < |members|
    ensures members[i].key in DecodedMembers(members)
    ensures DecodedMembers(members)[members[i].key] == Decoded(members[i].value)
  {
    var rest := members[1..];
    if i > 0 {
      assert rest[i - 1] == members[i];
      DecodedMemberAt(rest, i - 1);
    } else if members[0].key in DecodedMembers(rest) {
      var j := DecodedKey(rest, members[0].key);
    }
  }

  lemma {:induction false} OrderedDecodes(j: Json)
    ensures Decoded(Ordered(j)) == j
    decreases j, 1
  {
    match j
    case Arr(_) => ItemsDecode(j);
    case Obj(_) => MembersDecode(j);
    case _ =>
  }

  lemma {:induction false} ItemsDecode(j: Json)
    requires j.Arr?
    ensures DecodedItems(OrderedItems(j)) == j.items
    decreases j, 0
  {
    DecodedItemsAt(OrderedItems(j));
    forall i | 0 <= i < |j.items| ensures Decoded(OrderedItems(j)[i]) == j.items[i] {
      OrderedDecodes(j.items[i]);
    }
  }

  lemma MembersDenote(docs: seq<Member>, m: map<string, Json>)
    requires DistinctKeys(docs)
    requires forall i | 0 <= i < |docs| :: docs[i].key in m && Decoded(docs[i].value) == m[docs[i].key]
    requires forall k | k in m :: exists i | 0 <= i < |docs| :: docs[i].key == k
    ensures DecodedMembers(docs) == m
  {
    var decoded := DecodedMembers(docs);
    forall k ensures (k in decoded <==> k in m) && (k in m ==> decoded[k] == m[k]) {
      MemberDenotes(docs, m, decoded, k);
    }
  }

  lemma MemberDenotes(docs: seq<Member>, m: map<string, Json>, decoded: map<string, Json>, k: string)
    requires DistinctKeys(docs) && decoded == DecodedMembers(docs)
    requires forall i | 0 <= i < |docs| :: docs[i].key in m && Decoded(docs[i].value) == m[docs[i].key]
    requires k in m ==> exists i | 0 <= i < |docs| :: docs[i].key == k
    ensures (k in decoded <==> k in m) && (k in m ==> decoded[k] == m[k])
  {
    if k in m {
      var i :| 0 <= i < |docs| && docs[i].key == k;
      DecodedMemberAt(docs, i);
    } else if k in decoded {
      var i := DecodedKey(docs, k);
    }
  }

  lemma KeysAreDistinct(j: Json)
    requires j.Obj?
    ensures DistinctKeys(OrderedMembers(j))
    ensures forall k | k in j.members :: exists i | 0 <= i < |OrderedMembers(j)| :: OrderedMembers(j)[i].key == k
  {
    var keys, docs := SortedKeys(j.members.Keys), OrderedMembers(j);
    forall k | k in j.members ensures exists i | 0 <= i < |docs| :: docs[i].key == k {
      assert k in keys;
      var i :| 0 <= i < |keys| && keys[i] == k;
      assert docs[i].key == k;
    }
  }

  lemma {:induction false} MembersDecode(j: Json)
    requires j.Obj?
    ensures DecodedMembers(OrderedMembers(j)) == j.members
    decreases j, 0
  {
    var docs := OrderedMembers(j);
    KeysAreDistinct(j);
    forall i | 0 <= i < |docs| ensures Decoded(docs[i].value) == j.members[docs[i].key] {
      OrderedDecodes(j.members[docs[i].key]);
    }
    MembersDenote(docs, j.members);
  }

  /** Canonical printing of decoded trees is invertible. */
  lemma CanonicalIsInvertible(j: Json)
    ensures Parse(Canonical(j)) == Some(j)
  {
    ParsePrint(Ordered(j));
    OrderedDecodes(j);
  }

  /** Equal bytes mean equal trees. */
  lemma CanonicalIsInjective(j: Json, k: Json)
    requires Canonical(j) == Canonical(k)
    ensures j == k
  {
    CanonicalIsInvertible(j);
    CanonicalIsInvertible(k);
  }

  /** Re-canonicalizing is the identity: whatever text t denotes j, its canonical form denotes j too and
      canonicalizes to itself. */
  lemma RecanonicalizeIsIdentity(t: string, j: Json)
    requires Parse(t) == Some(j)
    ensures Parse(Canonical(j)) == Parse(t)
    ensures forall k | Parse(Canonical(j)) == Some(k) :: Canonical(k) == Canonical(j)
  {
    CanonicalIsInvertible(j);
  }

  // ---------------------------------------------------------------- the buffer-writing code

  lemma Regroup(a: string, b: string, sep: string, c: string)
    ensures a + [','] + (b + sep + c) == (a + [','] + b) + sep + c
  {}

  lemma {:induction false} PrintMembersSnoc(members: seq<Member>, m: Member)
    ensures PrintMembers(members + [m])
         == PrintMembers(members) + (if members == [] then [] else [',']) + PrintMember(m)
  {
    var all := members + [m];
    if |members| == 1 {
      assert all[1..] == [m];
    } else if members != [] {
      assert all[1..] == members[1..] + [m];
      PrintMembersSnoc(members[1..], m);
      Regroup(PrintMember(members[0]), PrintMembers(members[1..]), [','], PrintMember(m));
    }
  }

  lemma PrintItemsSnoc(items: seq<Doc>, d: Doc)
    ensures PrintItems(items + [d]) == PrintItems(items) + (if items == [] then [] else [',']) + Print(d)
  {
    var all := items + [d];
    if items != [] {
      assert all[1..] == items[1..] + [d];
      PrintItemsSnoc(items[1..], d);
    }
  }

  /** canonicalizeDecoded: keys collected in arbitrary iteration order, sorted, and written to a buffer
      member by member. The bytes are those of the canonical form whatever the iteration order was. */
  method CanonicalizeDecoded(v: Json) returns (buf: string)
    ensures buf == Canonical(v)
    decreases v, 1
  {
    match v
    case Null => buf := "null";
    case Bool(b) => buf := if b then "true" else "false";
    case Num(t) => buf := t;
    case Str(s) => buf := PrintStr(s);
    case Arr(_) =>
      CanonicalShape(v);
      buf := WriteItems(v);
    case Obj(members) =>
      CanonicalShape(v);
      var keys := SortKeys(members.Keys);
      buf := WriteInOrder(v, keys, OrderedMembers(v));
  }

  lemma {:induction false} CanonicalShape(v: Json)
    ensures v.Arr? ==> Canonical(v) == ['['] + PrintItems(OrderedItems(v)) + [']']
    ensures v.Obj? ==> Canonical(v) == ['{'] + PrintMembers(OrderedMembers(v)) + ['}']
  {}

  method WriteItems(v: Json) returns (buf: string)
    requires v.Arr?
    ensures buf == ['['] + PrintItems(OrderedItems(v)) + [']']
    decreases v, 0
  {
    ghost var docs := OrderedItems(v);
    buf := ['['];
    for i := 0 to |v.items|
      invariant buf == ['['] + PrintItems(docs[..i])
    {
      var element := CanonicalizeDecoded(v.items[i]);
      buf := WriteItem(buf, docs, i, element, i == 0);
    }
    assert docs[..|v.items|] == docs;
    buf := buf + [']'];
  }

  lemma Appended(open: char, before: string, sep: string, last: string)
    ensures [open] + (before + sep + last) == [open] + before + sep + last
  {}

  method WriteItem(buf: string, ghost docs: seq<Doc>, ghost i: nat, element: string, first: bool) returns (out: string)
    requires i < |docs| && first == (i == 0) && element == Print(docs[i]) && buf == ['['] + PrintItems(docs[..i])
    ensures out == ['['] + PrintItems(docs[..i + 1])
  {
    ghost var sep := if first then [] else [','];
    PrintItemsSnoc(docs[..i], docs[i]);
    assert docs[..i + 1] == docs[..i] + [docs[i]];
    Appended('[', PrintItems(docs[..i]), sep, element);
    out := buf;
    if !first { out := out + [',']; }
    assert out == buf + sep;
    out := out + element;
  }

  method WriteMember(buf: string, ghost docs: seq<Member>, ghost i: nat, key: string, value: string, first: bool)
    returns (out: string)
    requires i < |docs| && first == (i == 0) && docs[i].key == key && value == Print(docs[i].value)
    requires buf == ['{'] + PrintMembers(docs[..i])
    ensures out == ['{'] + PrintMembers(docs[..i + 1])
  {
    ghost var sep := if first then [] else [','];
    PrintMembersSnoc(docs[..i], docs[i]);
    assert docs[..i + 1] == docs[..i] + [docs[i]];
    var member := PrintStr(key) + [':'] + value;
    Appended('{', PrintMembers(docs[..i]), sep, member);
    out := buf;
    if !first { out := out + [',']; }
    assert out == buf + sep;
    out := out + member;
  }

  method WriteInOrder(v: Json, keys: seq<string>, ghost docs: seq<Member>) returns (buf: string)
    requires v.Obj? && |docs| == |keys|
    requires forall i | 0 <= i < |keys| ::
      keys[i] in v.members && docs[i] == Member(keys[i], Ordered(v.members[keys[i]]))
    ensures buf == ['{'] + PrintMembers(docs) + ['}']
    decreases v, 0
  {
    buf := ['{'];
    for i := 0 to |keys|
      invariant buf == ['{'] + PrintMembers(docs[..i])
    {
      var value := CanonicalizeDecoded(v.members[keys[i]]);
      buf := WriteMember(buf, docs, i, keys[i], value, i == 0);
    }
    assert docs[..|keys|] == docs;
    buf := buf + ['}'];
  }
}

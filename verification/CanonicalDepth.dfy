/**
 The nesting limit of encoding/json: its scanner refuses a document nested deeper than 10,000 levels. A details value
 is decoded on its own when an event is marshalled, and two levels further down when the payload is read back.
 */
module CanonicalDepth {
  import opened Options
  import opened CanonicalTree
  import opened CanonicalEvent

  const LIMIT: nat := 10_000

  datatype Mode = Plain | Quoted | Escaped

  /** The scanner's count: may the text open no more than `left` levels beyond where it starts? */
  predicate Within(text: string, left: nat, mode: Mode)
    decreases |text|
  {
    if text == [] then true
    else
      match mode
      case Plain =>
        if text[0] == '"' then Within(text[1..], left, Quoted)
        else if text[0] == '{' || text[0] == '[' then left > 0 && Within(text[1..], left - 1, Plain)
        else if text[0] == '}' || text[0] == ']' then Within(text[1..], left + 1, Plain)
        else Within(text[1..], left, Plain)
      case Quoted =>
        Within(text[1..], left, if text[0] == '"' then Plain else if text[0] == '\\' then Escaped else Quoted)
      case Escaped => Within(text[1..], left, Quoted)
  }

  /** The document nests at most n levels. */
  predicate Fits(d: Doc, n: nat)
    decreases d
  {
    match d
    case DArr(items) => n > 0 && forall i | 0 <= i < |items| :: Fits(items[i], n - 1)
    case DObj(members) => n > 0 && forall i | 0 <= i < |members| :: Fits(members[i].value, n - 1)
    case _ => true
  }

  predicate TreeFits(j: Json, n: nat)
    decreases j
  {
    match j
    case Arr(items) => n > 0 && forall i | 0 <= i < |items| :: TreeFits(items[i], n - 1)
    case Obj(members) => n > 0 && forall k | k in members :: TreeFits(members[k], n - 1)
    case _ => true
  }

  // ---------------------------------------------------------------- scanning printed text

  predicate Structural(c: char) { c == '"' || c == '{' || c == '[' || c == '}' || c == ']' }

  lemma {:induction false} PlainText(t: string, rest: string, left: nat)
    requires forall i | 0 <= i < |t| :: !Structural(t[i])
    ensures Within(t + rest, left, Plain) == Within(rest, left, Plain)
  {
    if t == [] {
      assert t + rest == rest;
    } else {
      assert (t + rest)[1..] == t[1..] + rest;
      PlainText(t[1..], rest, left);
    }
  }

  lemma {:induction false} QuotedText(t: string, rest: string, left: nat)
    requires forall i | 0 <= i < |t| :: t[i] != '"' && t[i] != '\\'
    ensures Within(t + rest, left, Quoted) == Within(rest, left, Quoted)
  {
    if t == [] {
      assert t + rest == rest;
    } else {
      assert (t + rest)[1..] == t[1..] + rest;
      QuotedText(t[1..], rest, left);
    }
  }

  lemma QuotedChar(c: char, rest: string, left: nat)
    ensures Within(EscapeChar(c) + rest, left, Quoted) == Within(rest, left, Quoted)
  {
    var e := EscapeChar(c);
    if |e| == 1 {
      QuotedText(e, rest, left);
    } else {
      var text := e + rest;
      assert text[0] == '\\' && text[1..][1..] == e[2..] + rest;
      QuotedText(e[2..], rest, left);
    }
  }

  lemma {:induction false} QuotedBody(s: string, rest: string, left: nat)
    ensures Within(EscapeBody(s) + ['"'] + rest, left, Quoted) == Within(rest, left, Plain)
  {
    if s == [] {
      assert EscapeBody(s) + ['"'] + rest == ['"'] + rest;
    } else {
      var more := EscapeBody(s[1..]) + ['"'] + rest;
      assert EscapeBody(s) + ['"'] + rest == EscapeChar(s[0]) + more;
      QuotedChar(s[0], more, left);
      QuotedBody(s[1..], rest, left);
    }
  }

  lemma StringText(s: string, rest: string, left: nat)
    ensures Within(PrintStr(s) + rest, left, Plain) == Within(rest, left, Plain)
  {
    assert (PrintStr(s) + rest)[1..] == EscapeBody(s) + ['"'] + rest;
    QuotedBody(s, rest, left);
  }

  lemma Opened(open: char, inner: string, left: nat)
    requires open == '{' || open == '['
    ensures Within([open] + inner, left, Plain) <==> left > 0 && Within(inner, left - 1, Plain)
  {
    assert ([open] + inner)[1..] == inner;
  }

  lemma Closed(close: char, rest: string, left: nat)
    requires close == '}' || close == ']'
    ensures Within([close] + rest, left, Plain) == Within(rest, left + 1, Plain)
  {
    assert ([close] + rest)[1..] == rest;
  }

  /** The scanner accepts a printed document exactly when the document fits, and then goes on with the rest. */
  lemma {:induction false} PrintWithin(d: Doc, rest: string, left: nat)
    ensures Within(Print(d) + rest, left, Plain) <==> Fits(d, left) && Within(rest, left, Plain)
    decreases d, 1
  {
    match d
    case DNull => PlainText("null", rest, left);
    case DBool(b) => PlainText(if b then "true" else "false", rest, left);
    case DNum(t) => PlainText(t, rest, left);
    case DStr(s) => StringText(s, rest, left);
    case DArr(items) =>
      Bracketed('[', PrintItems(items), ']', rest, left);
      if left > 0 { ItemsWithin(items, rest, left - 1); }
    case DObj(members) =>
      Bracketed('{', PrintMembers(members), '}', rest, left);
      if left > 0 { MembersWithin(members, rest, left - 1); }
  }

  lemma Bracketed(open: char, body: string, close: char, rest: string, left: nat)
    requires open == '{' || open == '['
    ensures Within([open] + body + [close] + rest, left, Plain)
      <==> left > 0 && Within(body + [close] + rest, left - 1, Plain)
  {
    assert [open] + body + [close] + rest == [open] + (body + [close] + rest);
    Opened(open, body + [close] + rest, left);
  }

  lemma {:induction false} ItemsWithin(items: seq<Doc>, rest: string, left: nat)
    ensures Within(PrintItems(items) + [']'] + rest, left, Plain)
      <==> (forall i | 0 <= i < |items| :: Fits(items[i], left)) && Within(rest, left + 1, Plain)
    decreases items, 0
  {
    if items == [] {
      assert PrintItems(items) + [']'] + rest == [']'] + rest;
      Closed(']', rest, left);
    } else {
      ItemsText(items, rest);
      PrintWithin(items[0], AfterItem(items, rest), left);
      if |items| == 1 {
        Closed(']', rest, left);
      } else {
        PlainText([','], PrintItems(items[1..]) + [']'] + rest, left);
        ItemsWithin(items[1..], rest, left);
        assert forall i | 1 <= i < |items| :: items[i] == items[1..][i - 1];
      }
    }
  }

  lemma {:induction false} MembersWithin(members: seq<Member>, rest: string, left: nat)
    ensures Within(PrintMembers(members) + ['}'] + rest, left, Plain)
      <==> (forall i | 0 <= i < |members| :: Fits(members[i].value, left)) && Within(rest, left + 1, Plain)
    decreases members, 0
  {
    if members == [] {
      assert PrintMembers(members) + ['}'] + rest == ['}'] + rest;
      Closed('}', rest, left);
    } else {
      var key, value, tail := members[0].key, members[0].value, AfterFirst(members, rest);
      MembersText(members, rest);
      KeyWithin(key, Print(value) + tail, left);
      PrintWithin(value, tail, left);
      if |members| == 1 {
        Closed('}', rest, left);
      } else {
        PlainText([','], PrintMembers(members[1..]) + ['}'] + rest, left);
        MembersWithin(members[1..], rest, left);
        assert forall i | 1 <= i < |members| :: members[i] == members[1..][i - 1];
      }
    }
  }

  lemma KeyWithin(key: string, text: string, left: nat)
    ensures Within(PrintStr(key) + [':'] + text, left, Plain) == Within(text, left, Plain)
  {
    assert PrintStr(key) + [':'] + text == PrintStr(key) + ([':'] + text);
    StringText(key, [':'] + text, left);
    PlainText([':'], text, left);
  }

  /** The canonical form of a tree nests as deep as the tree. */
  lemma {:induction false} OrderedFits(j: Json, n: nat)
    ensures Fits(Ordered(j), n) <==> TreeFits(j, n)
    decreases j
  {
    if n > 0 && j.Arr? {
      forall i | 0 <= i < |j.items| ensures Fits(Ordered(j.items[i]), n - 1) <==> TreeFits(j.items[i], n - 1) {
        OrderedFits(j.items[i], n - 1);
      }
      ItemsFit(j, n - 1);
    } else if n > 0 && j.Obj? {
      forall k | k in j.members ensures Fits(Ordered(j.members[k]), n - 1) <==> TreeFits(j.members[k], n - 1) {
        OrderedFits(j.members[k], n - 1);
      }
      MembersFit(j, n - 1);
    }
  }

  lemma ItemsFit(j: Json, n: nat)
    requires j.Arr? && forall i | 0 <= i < |j.items| :: Fits(Ordered(j.items[i]), n) <==> TreeFits(j.items[i], n)
    ensures Fits(Ordered(j), n + 1) <==> TreeFits(j, n + 1)
  {
    assert Ordered(j) == DArr(OrderedItems(j));
  }

  lemma MembersFit(j: Json, n: nat)
    requires j.Obj? && forall k | k in j.members :: Fits(Ordered(j.members[k]), n) <==> TreeFits(j.members[k], n)
    ensures Fits(Ordered(j), n + 1) <==> TreeFits(j, n + 1)
  {
    var docs := ListedMembers(j);
    DocsFit(docs, j.members, n);
  }

  /** The ordered members of an object, each once. */
  lemma ListedMembers(j: Json) returns (docs: seq<Member>)
    requires j.Obj?
    ensures Ordered(j) == DObj(docs)
    ensures forall i | 0 <= i < |docs| :: docs[i].key in j.members && docs[i].value == Ordered(j.members[docs[i].key])
    ensures forall k | k in j.members :: exists i | 0 <= i < |docs| :: docs[i].key == k
  {
    docs := OrderedMembers(j);
    KeysAreDistinct(j);
  }

  lemma DocsFit(docs: seq<Member>, m: map<string, Json>, n: nat)
    requires forall i | 0 <= i < |docs| :: docs[i].key in m && docs[i].value == Ordered(m[docs[i].key])
    requires forall k | k in m :: exists i | 0 <= i < |docs| :: docs[i].key == k
    requires forall k | k in m :: Fits(Ordered(m[k]), n) <==> TreeFits(m[k], n)
    ensures Fits(DObj(docs), n + 1) <==> TreeFits(Obj(m), n + 1)
  {
    ListedFit(docs, m, n);
  }

  predicate AllFit(members: seq<Member>, n: nat) { forall i | 0 <= i < |members| :: Fits(members[i].value, n) }

  lemma ListedFit(docs: seq<Member>, m: map<string, Json>, n: nat)
    requires forall i | 0 <= i < |docs| ::
      docs[i].key in m && (Fits(docs[i].value, n) <==> TreeFits(m[docs[i].key], n))
    requires forall k | k in m :: exists i | 0 <= i < |docs| :: docs[i].key == k
    ensures AllFit(docs, n) <==> forall k | k in m :: TreeFits(m[k], n)
  {
    if AllFit(docs, n) {
      forall k | k in m ensures TreeFits(m[k], n) {
        var i :| 0 <= i < |docs| && docs[i].key == k;
      }
    }
  }

  // ---------------------------------------------------------------- the payload

  predicate SlotsFit(slots: seq<Slot>, n: nat) {
    forall i | 0 <= i < |slots| && slots[i].doc.Some? :: Fits(slots[i].doc.value, n)
  }

  lemma SlotsFitStep(slots: seq<Slot>, n: nat)
    requires slots != []
    ensures SlotsFit(slots, n) <==> (slots[0].doc.Some? ==> Fits(slots[0].doc.value, n)) && SlotsFit(slots[1..], n)
  {
    var rest := slots[1..];
    assert forall i | 0 <= i < |rest| :: rest[i] == slots[i + 1];
    assert forall i | 1 <= i < |slots| :: slots[i] == rest[i - 1];
  }

  lemma AllFitStep(m: Member, later: seq<Member>, n: nat)
    ensures AllFit([m] + later, n) <==> Fits(m.value, n) && AllFit(later, n)
  {
    var all := [m] + later;
    assert forall i | 0 <= i < |later| :: later[i] == all[i + 1];
    assert forall i | 1 <= i < |all| :: all[i] == later[i - 1];
    assert all[0] == m;
  }

  lemma {:induction false} PresentFits(slots: seq<Slot>, n: nat)
    ensures AllFit(Present(slots), n) <==> SlotsFit(slots, n)
  {
    if slots != [] {
      PresentFits(slots[1..], n);
      SlotsFitStep(slots, n);
      if slots[0].doc.Some? {
        AllFitStep(Member(slots[0].key, slots[0].doc.value), Present(slots[1..]), n);
      } else {
        assert [] + Present(slots[1..]) == Present(slots[1..]);
      }
    }
  }

  /** A flat object fits in one level. */
  lemma FlatSlots(slots: seq<Slot>, n: nat)
    requires n > 0 && SlotsFit(slots, n - 1)
    ensures Fits(DObj(Present(slots)), n)
  {
    PresentFits(slots, n - 1);
  }

  /** Every field but details nests at most two levels. */
  lemma OtherFieldFits(i: nat, lower: string -> string, e: Event, issuer: string, iat: Int64, n: nat)
    requires i < FIELDS - 1 && n >= 2
    ensures var d := PayloadDoc(i, lower, e, issuer, iat);
      d.Some? ==> Fits(d.value, n)
  {
    if i == 14 && e.mfa.Some? {
      FlatSlots(MfaSlots(e.mfa.value), n);
    } else if i == 15 {
      forall k | 0 <= k < |e.federation| ensures Fits(LinkItems(e.federation)[k], n - 1) {
        FlatSlots(LinkSlots(e.federation[k]), n - 1);
      }
    } else if i == 17 {
      forall k | 0 <= k < |Signals(e.risk)| ensures Fits(SignalItems(Signals(e.risk))[k], n - 1) {
        FlatSlots(SignalSlots(Signals(e.risk)[k]), n - 1);
      }
    }
  }

  /** Every details value nests at most n levels. */
  ghost predicate DetailsFit(e: Event, n: nat) { forall k | k in e.details :: TreeFits(e.details[k], n) }

  lemma DetailsFieldFits(e: Event, n: nat)
    requires n > 0
    ensures DetailsDoc(e.details).Some? && Fits(DetailsDoc(e.details).value, n)
      <==> e.details != map[] && DetailsFit(e, n - 1)
  {
    if e.details != map[] { OrderedFits(Obj(e.details), n); }
  }

  /** The payload passes the scanner exactly when every details value leaves two levels free. */
  lemma PayloadWithin(lower: string -> string, e: Event, issuer: string, iat: Int64)
    ensures Within(Marshal(lower, e, issuer, iat), LIMIT, Plain) <==> DetailsFit(e, LIMIT - 2)
  {
    var slots := PayloadSlots(lower, e, issuer, iat);
    var d := DObj(Present(slots));
    PrintWithin(d, [], LIMIT);
    assert Print(d) + [] == Print(d);
    PresentFits(slots, LIMIT - 1);
    forall i | 0 <= i < FIELDS - 1 && slots[i].doc.Some? ensures Fits(slots[i].doc.value, LIMIT - 1) {
      OtherFieldFits(i, lower, e, issuer, iat, LIMIT - 1);
    }
    assert slots[FIELDS - 1].doc == DetailsDoc(e.details);
    DetailsFieldFits(e, LIMIT - 1);
  }

  /** UnmarshalCanonical with the decoder's limit. */
  function Decode(text: string): Option<(Event, string, Int64)> {
    if Within(text, LIMIT, Plain) then Unmarshal(text) else None
  }

  /** MarshalCanonical with the limit of canonicalizeAny, which decodes each details value. */
  ghost function Encode(lower: string -> string, e: Event, issuer: string, iat: Int64): Option<string> {
    if DetailsFit(e, LIMIT) then Some(Marshal(lower, e, issuer, iat)) else None
  }

  /** The round trip, exactly: an event encodes when every details value nests at most 10,000 levels, and what was
      encoded decodes to the normal form when each nests at most 9,998, and not at all otherwise. */
  lemma DecodeEncode(lower: string -> string, e: Event, issuer: string, iat: Int64)
    ensures Encode(lower, e, issuer, iat).Some? <==> DetailsFit(e, 10_000)
    ensures Encode(lower, e, issuer, iat).Some? ==>
      Decode(Encode(lower, e, issuer, iat).value) ==
      if DetailsFit(e, 9_998) then Some((Normal(lower, e), issuer, iat)) else None
  {
    PayloadWithin(lower, e, issuer, iat);
    UnmarshalMarshal(lower, e, issuer, iat);
  }

  // ---------------------------------------------------------------- the gap

  /** n arrays inside each other. */
  function Nested(n: nat): Json { if n == 0 then Null else Arr([Nested(n - 1)]) }

  lemma {:induction false} NestedFits(n: nat, m: nat)
    ensures TreeFits(Nested(n), m) <==> n <= m
  {
    if n > 0 {
      assert Nested(n).items[0] == Nested(n - 1);
      if m > 0 { NestedFits(n - 1, m - 1); }
    }
  }

  /** A details value nested 9,999 or 10,000 levels is stored and cannot be read back. */
  lemma TooDeepToRead(lower: string -> string, e: Event, issuer: string, iat: Int64, n: nat)
    requires 9_998 < n <= 10_000 && e.details == map["deep" := Nested(n)]
    ensures Encode(lower, e, issuer, iat).Some? && Decode(Encode(lower, e, issuer, iat).value).None?
  {
    NestedFits(n, LIMIT);
    NestedFits(n, LIMIT - 2);
    assert "deep" in e.details;
    DecodeEncode(lower, e, issuer, iat);
  }
}

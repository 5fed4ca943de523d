/**
 The canonical payload of an audit event: MarshalCanonical and UnmarshalCanonical over canonical JSON.

 Details values are decoded JSON trees. Unicode lower-casing is a parameter; only its idempotence is used.
 */
module CanonicalEvent {
  import opened Options
  import opened Numerals
  import opened CanonicalTree

  type Int32 = n: int | -0x8000_0000 <= n <= 0x7fff_ffff
  type Int64 = n: int | MIN_INT64 <= n <= MAX_INT64

  datatype Mfa = Mfa(presented: seq<string>, verified: seq<string>, stepUpSatisfied: bool, aalAchieved: string)
  datatype Link = Link(idp: string, level: string, trustLink: string)
  datatype Signal = Signal(signal: string, weight: Int32)
  datatype Risk = Risk(score: Int32, signals: seq<Signal>)

  datatype Event = Event(
    companyId: string,
    actorId: string,
    action: string,
    resource: string,
    resourceId: string,
    details: map<string, Json>,
    ipAddress: string,
    decision: string,
    actorKind: string,
    subjectId: string,
    subjectKind: string,
    mfa: Option<Mfa>,
    federation: seq<Link>,
    risk: Option<Risk>)

  /** eventJTI: Details["jti"] when it is a string. */
  function EventJti(e: Event): string {
    if "jti" in e.details && e.details["jti"].Str? then e.details["jti"].s else ""
  }

  // ---------------------------------------------------------------- encoding with omitempty

  /** A struct field: absent when empty. */
  datatype Slot = Slot(key: string, doc: Option<Doc>)

  ghost function Present(slots: seq<Slot>): seq<Member> {
    if slots == [] then []
    else (if slots[0].doc.Some? then [Member(slots[0].key, slots[0].doc.value)] else []) + Present(slots[1..])
  }

  function StrDoc(s: string): Option<Doc> { if s == "" then None else Some(DStr(s)) }

  function IntDoc(n: int): (d: Option<Doc>)
    ensures n != 0 ==> d.Some? && d.value.DNum? && d.value.token == IntStr(n)
  {
    IntRoundTrip(n);
    if n == 0 then None else Some(DNum(IntStr(n)))
  }

  function BoolDoc(b: bool): Option<Doc> { if b then Some(DBool(true)) else None }

  function ListDoc(items: seq<Doc>): Option<Doc> { if items == [] then None else Some(DArr(items)) }

  function StrItems(ss: seq<string>): seq<Doc> { seq(|ss|, i requires 0 <= i < |ss| => DStr(ss[i])) }

  ghost function MfaSlots(m: Mfa): seq<Slot> {
    [Slot("presented", ListDoc(StrItems(m.presented))), Slot("verified", ListDoc(StrItems(m.verified))),
     Slot("step_up_satisfied", BoolDoc(m.stepUpSatisfied)), Slot("aal_achieved", StrDoc(m.aalAchieved))]
  }

  ghost function LinkSlots(l: Link): seq<Slot> {
    [Slot("idp", StrDoc(l.idp)), Slot("level", StrDoc(l.level)), Slot("trust_link", StrDoc(l.trustLink))]
  }

  ghost function SignalSlots(s: Signal): seq<Slot> {
    [Slot("signal", StrDoc(s.signal)), Slot("weight", IntDoc(s.weight))]
  }

  ghost function LinkItems(ls: seq<Link>): seq<Doc> {
    seq(|ls|, i requires 0 <= i < |ls| => DObj(Present(LinkSlots(ls[i]))))
  }

  ghost function SignalItems(ss: seq<Signal>): seq<Doc> {
    seq(|ss|, i requires 0 <= i < |ss| => DObj(Present(SignalSlots(ss[i]))))
  }

  function Score(r: Option<Risk>): Int32 { if r.None? then 0 else r.value.score }

  function Signals(r: Option<Risk>): seq<Signal> { if r.None? then [] else r.value.signals }

  const FIELDS: nat := 19

  /** The JSON names of canonicalPayload's fields, in declaration order. */
  function Key(i: nat): string
    requires i < FIELDS
  {
    match i
    case 0 => "event_id"
    case 1 => "iss"
    case 2 => "iat"
    case 3 => "jti"
    case 4 => "event_type"
    case 5 => "tenant_id"
    case 6 => "actor_id"
    case 7 => "actor_kind"
    case 8 => "subject_id"
    case 9 => "subject_kind"
    case 10 => "resource"
    case 11 => "resource_id"
    case 12 => "decision"
    case 13 => "source_ip"
    case 14 => "mfa"
    case 15 => "federation"
    case 16 => "risk_score"
    case 17 => "risk_signals"
    case _ => "details"
  }

  predicate IsString(i: nat) { i < 14 && i != 2 }

  /** The string fields. */
  function PayloadStr(i: nat, lower: string -> string, e: Event, issuer: string): string
    requires IsString(i)
  {
    match i
    case 0 => EventJti(e)
    case 1 => issuer
    case 3 => EventJti(e)
    case 4 => e.action
    case 5 => lower(e.companyId)
    case 6 => lower(e.actorId)
    case 7 => e.actorKind
    case 8 => lower(e.subjectId)
    case 9 => e.subjectKind
    case 10 => e.resource
    case 11 => e.resourceId
    case 12 => e.decision
    case _ => e.ipAddress
  }

  ghost function MfaDoc(mfa: Option<Mfa>): Option<Doc> {
    if mfa.None? then None else Some(DObj(Present(MfaSlots(mfa.value))))
  }

  ghost function DetailsDoc(details: map<string, Json>): Option<Doc> {
    if details == map[] then None else Some(Ordered(Obj(details)))
  }

  /** The value of each field; None is an empty one, which omitempty drops. */
  ghost function PayloadDoc(i: nat, lower: string -> string, e: Event, issuer: string, iat: Int64): Option<Doc>
    requires i < FIELDS
  {
    if IsString(i) then StrDoc(PayloadStr(i, lower, e, issuer))
    else
      match i
      case 2 => IntDoc(iat)
      case 14 => MfaDoc(e.mfa)
      case 15 => ListDoc(LinkItems(e.federation))
      case 16 => IntDoc(Score(e.risk))
      case 17 => ListDoc(SignalItems(Signals(e.risk)))
      case _ => DetailsDoc(e.details)
  }

  ghost function PayloadSlots(lower: string -> string, e: Event, issuer: string, iat: Int64): seq<Slot> {
    seq(FIELDS, i requires 0 <= i < FIELDS => Slot(Key(i), PayloadDoc(i, lower, e, issuer, iat)))
  }

  /** MarshalCanonical. */
  ghost function Marshal(lower: string -> string, e: Event, issuer: string, iat: Int64): string {
    Print(DObj(Present(PayloadSlots(lower, e, issuer, iat))))
  }

  // ---------------------------------------------------------------- decoding

  /** A struct field of a decoded object; an absent one reads like null, the zero value. */
  function Field(m: map<string, Json>, key: string): Json { if key in m then m[key] else Null }

  function AsStr(j: Json): Option<string> {
    match j case Null => Some("") case Str(s) => Some(s) case _ => None
  }

  function AsInt(j: Json, lo: int, hi: int): (r: Option<int>)
    requires lo <= 0 <= hi
    ensures r.Some? ==> lo <= r.value <= hi
  {
    match j
    case Null => Some(0)
    case Num(t) => if Numeral(t) && lo <= IntVal(t) <= hi then Some(IntVal(t)) else None
    case _ => None
  }

  function AsBool(j: Json): Option<bool> {
    match j case Null => Some(false) case Bool(b) => Some(b) case _ => None
  }

  function All<T>(read: Json -> Option<T>, items: seq<Json>): Option<seq<T>> {
    if items == [] then Some([])
    else
      var first, rest := read(items[0]), All(read, items[1..]);
      if first.None? || rest.None? then None else Some([first.value] + rest.value)
  }

  function AsList<T>(read: Json -> Option<T>, j: Json): Option<seq<T>> {
    match j case Null => Some([]) case Arr(items) => All(read, items) case _ => None
  }

  /** The members of an object, or of a null standing for the zero struct. */
  function AsMembers(j: Json): Option<map<string, Json>> {
    match j case Null => Some(map[]) case Obj(m) => Some(m) case _ => None
  }

  function AsLink(j: Json): Option<Link> {
    if AsMembers(j).None? then None
    else
      var m := AsMembers(j).value;
      var idp, level, trust := AsStr(Field(m, "idp")), AsStr(Field(m, "level")), AsStr(Field(m, "trust_link"));
      if idp.None? || level.None? || trust.None? then None else Some(Link(idp.value, level.value, trust.value))
  }

  function AsSignal(j: Json): Option<Signal> {
    if AsMembers(j).None? then None
    else
      var m := AsMembers(j).value;
      var signal, weight := AsStr(Field(m, "signal")), AsInt(Field(m, "weight"), -0x8000_0000, 0x7fff_ffff);
      if signal.None? || weight.None? then None else Some(Signal(signal.value, weight.value))
  }

  /** A pointer field: null leaves it nil. */
  function AsMfa(j: Json): Option<Option<Mfa>> {
    if j.Null? then Some(None)
    else if !j.Obj? then None
    else
      var m := j.members;
      var presented, verified := AsList(AsStr, Field(m, "presented")), AsList(AsStr, Field(m, "verified"));
      var stepUp, aal := AsBool(Field(m, "step_up_satisfied")), AsStr(Field(m, "aal_achieved"));
      if presented.None? || verified.None? || stepUp.None? || aal.None? then None
      else Some(Some(Mfa(presented.value, verified.value, stepUp.value, aal.value)))
  }

  /** The values of canonicalPayload's fields in a decoded object. */
  function FieldValues(m: map<string, Json>): seq<Json> {
    seq(FIELDS, i requires 0 <= i < FIELDS => Field(m, Key(i)))
  }

  predicate StringsOk(v: seq<Json>)
    requires |v| == FIELDS
  {
    && AsStr(v[0]).Some? && AsStr(v[1]).Some? && AsStr(v[3]).Some? && AsStr(v[4]).Some? && AsStr(v[5]).Some?
    && AsStr(v[6]).Some? && AsStr(v[7]).Some? && AsStr(v[8]).Some? && AsStr(v[9]).Some? && AsStr(v[10]).Some?
    && AsStr(v[11]).Some? && AsStr(v[12]).Some? && AsStr(v[13]).Some?
  }

  /** The Event that UnmarshalCanonical builds from the payload struct, with issuer and iat; event_id and
      jti are read and dropped. */
  function FromFields(v: seq<Json>): Option<(Event, string, Int64)>
    requires |v| == FIELDS
  {
    var iat := AsInt(v[2], MIN_INT64, MAX_INT64);
    var mfa := AsMfa(v[14]);
    var federation := AsList(AsLink, v[15]);
    var score := AsInt(v[16], -0x8000_0000, 0x7fff_ffff);
    var signals := AsList(AsSignal, v[17]);
    var details := AsMembers(v[18]);
    if !StringsOk(v) || iat.None? || mfa.None? || federation.None? || score.None? || signals.None? || details.None?
    then None
    else
      var str := i requires 0 <= i < 14 && AsStr(v[i]).Some? => AsStr(v[i]).value;
      var risk := if score.value != 0 || signals.value != [] then Some(Risk(score.value, signals.value)) else None;
      var e := Event(str(5), str(6), str(4), str(10), str(11), details.value, str(13), str(12), str(7), str(8), str(9),
                     mfa.value, federation.value, risk);
      Some((e, str(1), iat.value))
  }

  /** UnmarshalCanonical: the event, the issuer and iat. */
  function Unmarshal(text: string): Option<(Event, string, Int64)> {
    var parsed := Parse(text);
    if parsed.None? || AsMembers(parsed.value).None? then None
    else FromFields(FieldValues(AsMembers(parsed.value).value))
  }

  // ---------------------------------------------------------------- the round trip

  ghost predicate DistinctSlots(slots: seq<Slot>) {
    forall i, j | 0 <= i < j < |slots| :: slots[i].key != slots[j].key
  }

  ghost function SlotValue(s: Slot): Json { if s.doc.Some? then Decoded(s.doc.value) else Null }

  /** The object m has exactly these field values. */
  ghost predicate Holds(slots: seq<Slot>, m: map<string, Json>) {
    forall i | 0 <= i < |slots| :: Field(m, slots[i].key) == SlotValue(slots[i])
  }

  /** Only filled slots show up. */
  lemma {:induction false} SlotsPresent(slots: seq<Slot>)
    ensures forall k | k in DecodedMembers(Present(slots)) ::
      exists i | 0 <= i < |slots| :: slots[i].key == k && slots[i].doc.Some?
  {
    if slots != [] {
      var rest := slots[1..];
      SlotsPresent(rest);
      FirstSlot(slots);
      forall k | k in DecodedMembers(Present(slots))
        ensures exists i | 0 <= i < |slots| :: slots[i].key == k && slots[i].doc.Some?
      {
        if k in DecodedMembers(Present(rest)) {
          var i :| 0 <= i < |rest| && rest[i].key == k && rest[i].doc.Some?;
          assert slots[i + 1] == rest[i];
        }
      }
    }
  }

  lemma FirstSlot(slots: seq<Slot>)
    requires slots != []
    ensures DecodedMembers(Present(slots))
         == if slots[0].doc.Some?
            then map[slots[0].key := Decoded(slots[0].doc.value)] + DecodedMembers(Present(slots[1..]))
            else DecodedMembers(Present(slots[1..]))
  {
    if slots[0].doc.Some? {
      assert Present(slots)[1..] == Present(slots[1..]);
    } else {
      assert Present(slots) == Present(slots[1..]);
    }
  }

  lemma {:induction false} SlotsDecode(slots: seq<Slot>)
    requires DistinctSlots(slots)
    ensures Holds(slots, DecodedMembers(Present(slots)))
  {
    if slots != [] {
      var rest := slots[1..];
      SlotsDecode(rest);
      SlotsPresent(rest);
      FirstSlot(slots);
      assert forall i | 1 <= i < |slots| :: slots[i] == rest[i - 1];
      assert slots[0].key !in DecodedMembers(Present(rest));
    }
  }

  lemma {:induction false} AllReads<T>(read: Json -> Option<T>, items: seq<Json>, xs: seq<T>)
    requires |items| == |xs| && forall i | 0 <= i < |xs| :: read(items[i]) == Some(xs[i])
    ensures All(read, items) == Some(xs)
  {
    if xs != [] {
      AllReads(read, items[1..], xs[1..]);
      assert xs == [xs[0]] + xs[1..];
    }
  }

  lemma IntReads(n: int, lo: int, hi: int)
    requires lo <= 0 <= hi && lo <= n <= hi
    ensures AsInt(SlotValue(Slot("", IntDoc(n))), lo, hi) == Some(n)
  {
    IntRoundTrip(n);
  }

  lemma StringsRead(ss: seq<string>)
    ensures AsList(AsStr, SlotValue(Slot("", ListDoc(StrItems(ss))))) == Some(ss)
  {
    if ss != [] {
      DecodedItemsAt(StrItems(ss));
      AllReads(AsStr, DecodedItems(StrItems(ss)), ss);
    }
  }

  lemma LinkFields(l: Link, slots: seq<Slot>, m: map<string, Json>)
    requires slots == LinkSlots(l) && Holds(slots, m)
    ensures AsLink(Obj(m)) == Some(l)
  {
    assert slots[0].key == "idp" && slots[1].key == "level" && slots[2].key == "trust_link";
  }

  lemma LinkReads(l: Link)
    ensures AsLink(Decoded(DObj(Present(LinkSlots(l))))) == Some(l)
  {
    SlotsDecode(LinkSlots(l));
    LinkFields(l, LinkSlots(l), DecodedMembers(Present(LinkSlots(l))));
  }

  lemma LinksRead(ls: seq<Link>)
    ensures AsList(AsLink, SlotValue(Slot("", ListDoc(LinkItems(ls))))) == Some(ls)
  {
    if ls != [] {
      DecodedItemsAt(LinkItems(ls));
      forall i | 0 <= i < |ls| ensures AsLink(DecodedItems(LinkItems(ls))[i]) == Some(ls[i]) {
        LinkReads(ls[i]);
      }
      AllReads(AsLink, DecodedItems(LinkItems(ls)), ls);
    }
  }

  lemma SignalFields(s: Signal, slots: seq<Slot>, m: map<string, Json>)
    requires slots == SignalSlots(s) && Holds(slots, m)
    ensures AsSignal(Obj(m)) == Some(s)
  {
    IntReads(s.weight, -0x8000_0000, 0x7fff_ffff);
    assert slots[0].key == "signal" && slots[1].key == "weight";
  }

  lemma SignalReads(s: Signal)
    ensures AsSignal(Decoded(DObj(Present(SignalSlots(s))))) == Some(s)
  {
    SlotsDecode(SignalSlots(s));
    SignalFields(s, SignalSlots(s), DecodedMembers(Present(SignalSlots(s))));
  }

  lemma SignalsRead(ss: seq<Signal>)
    ensures AsList(AsSignal, SlotValue(Slot("", ListDoc(SignalItems(ss))))) == Some(ss)
  {
    if ss != [] {
      DecodedItemsAt(SignalItems(ss));
      forall i | 0 <= i < |ss| ensures AsSignal(DecodedItems(SignalItems(ss))[i]) == Some(ss[i]) {
        SignalReads(ss[i]);
      }
      AllReads(AsSignal, DecodedItems(SignalItems(ss)), ss);
    }
  }

  lemma MfaFields(a: Mfa, slots: seq<Slot>, m: map<string, Json>)
    requires slots == MfaSlots(a) && Holds(slots, m)
    ensures AsMfa(Obj(m)) == Some(Some(a))
  {
    StringsRead(a.presented);
    StringsRead(a.verified);
    assert slots[0].key == "presented" && slots[1].key == "verified";
    assert slots[2].key == "step_up_satisfied" && slots[3].key == "aal_achieved";
  }

  lemma MfaReads(a: Mfa)
    ensures AsMfa(Decoded(DObj(Present(MfaSlots(a))))) == Some(Some(a))
  {
    SlotsDecode(MfaSlots(a));
    MfaFields(a, MfaSlots(a), DecodedMembers(Present(MfaSlots(a))));
  }

  lemma DetailsRead(details: map<string, Json>)
    ensures AsMembers(SlotValue(Slot("", DetailsDoc(details)))) == Some(details)
  {
    OrderedDecodes(Obj(details));
  }

  /** The normal form of an event: lower-cased ids, an empty risk attestation dropped; everything else,
      the jti in details included, is kept. */
  function Normal(lower: string -> string, e: Event): Event {
    e.(companyId := lower(e.companyId), actorId := lower(e.actorId), subjectId := lower(e.subjectId),
       risk := if e.risk.Some? && e.risk.value.score == 0 && e.risk.value.signals == [] then None else e.risk)
  }

  lemma NormalIs(lower: string -> string, e: Event)
    ensures Normal(lower, e) == Event(
      lower(e.companyId), lower(e.actorId), e.action, e.resource, e.resourceId, e.details, e.ipAddress, e.decision,
      e.actorKind, lower(e.subjectId), e.subjectKind, e.mfa, e.federation,
      if e.risk == Some(Risk(0, [])) then None else e.risk)
  {}

  ghost predicate Idempotent(lower: string -> string) { forall s :: lower(lower(s)) == lower(s) }

  ghost function PayloadValue(i: nat, lower: string -> string, e: Event, issuer: string, iat: Int64): Json
    requires i < FIELDS
  {
    SlotValue(Slot("", PayloadDoc(i, lower, e, issuer, iat)))
  }

  /** v holds the decoded values of the fields of e's payload. */
  ghost predicate Encodes(v: seq<Json>, lower: string -> string, e: Event, issuer: string, iat: Int64) {
    |v| == FIELDS && forall i | 0 <= i < FIELDS :: v[i] == PayloadValue(i, lower, e, issuer, iat)
  }

  lemma StrAt(v: seq<Json>, i: nat, lower: string -> string, e: Event, issuer: string, iat: Int64)
    requires Encodes(v, lower, e, issuer, iat) && IsString(i)
    ensures AsStr(v[i]) == Some(PayloadStr(i, lower, e, issuer))
  {
    assert v[i] == PayloadValue(i, lower, e, issuer, iat);
  }

  lemma StringFields(v: seq<Json>, lower: string -> string, e: Event, issuer: string)
    requires |v| == FIELDS && forall i: nat | IsString(i) :: AsStr(v[i]) == Some(PayloadStr(i, lower, e, issuer))
    ensures StringsOk(v)
    ensures AsStr(v[1]).value == issuer && AsStr(v[4]).value == e.action && AsStr(v[5]).value == lower(e.companyId)
    ensures AsStr(v[6]).value == lower(e.actorId) && AsStr(v[7]).value == e.actorKind
    ensures AsStr(v[8]).value == lower(e.subjectId) && AsStr(v[9]).value == e.subjectKind
    ensures AsStr(v[10]).value == e.resource && AsStr(v[11]).value == e.resourceId
    ensures AsStr(v[12]).value == e.decision && AsStr(v[13]).value == e.ipAddress
  {
  }

  lemma MfaField(mfa: Option<Mfa>)
    ensures AsMfa(SlotValue(Slot("", MfaDoc(mfa)))) == Some(mfa)
  {
    if mfa.Some? { MfaReads(mfa.value); }
  }

  lemma OtherAt(v: seq<Json>, lower: string -> string, e: Event, issuer: string, iat: Int64)
    requires Encodes(v, lower, e, issuer, iat)
    ensures v[2] == SlotValue(Slot("", IntDoc(iat)))
    ensures v[14] == SlotValue(Slot("", MfaDoc(e.mfa)))
    ensures v[15] == SlotValue(Slot("", ListDoc(LinkItems(e.federation))))
    ensures v[16] == SlotValue(Slot("", IntDoc(Score(e.risk))))
    ensures v[17] == SlotValue(Slot("", ListDoc(SignalItems(Signals(e.risk)))))
    ensures v[18] == SlotValue(Slot("", DetailsDoc(e.details)))
  {
  }

  lemma OtherFields(v: seq<Json>, lower: string -> string, e: Event, issuer: string, iat: Int64)
    requires Encodes(v, lower, e, issuer, iat)
    ensures AsInt(v[2], MIN_INT64, MAX_INT64) == Some(iat)
    ensures AsMfa(v[14]) == Some(e.mfa)
    ensures AsList(AsLink, v[15]) == Some(e.federation)
    ensures AsInt(v[16], -0x8000_0000, 0x7fff_ffff) == Some(Score(e.risk))
    ensures AsList(AsSignal, v[17]) == Some(Signals(e.risk))
    ensures AsMembers(v[18]) == Some(e.details)
  {
    OtherAt(v, lower, e, issuer, iat);
    IntReads(iat, MIN_INT64, MAX_INT64);
    MfaField(e.mfa);
    LinksRead(e.federation);
    IntReads(Score(e.risk), -0x8000_0000, 0x7fff_ffff);
    SignalsRead(Signals(e.risk));
    DetailsRead(e.details);
  }

  lemma FieldsRead(v: seq<Json>, lower: string -> string, e: Event, issuer: string, iat: Int64)
    requires Encodes(v, lower, e, issuer, iat)
    ensures FromFields(v) == Some((Normal(lower, e), issuer, iat))
  {
    assert forall i: nat | IsString(i) :: AsStr(v[i]) == Some(PayloadStr(i, lower, e, issuer)) by {
      forall i: nat | IsString(i) ensures AsStr(v[i]) == Some(PayloadStr(i, lower, e, issuer)) {
        StrAt(v, i, lower, e, issuer, iat);
      }
    }
    OtherFields(v, lower, e, issuer, iat);
    Assemble(v, lower, e, issuer, iat);
  }

  lemma Assemble(v: seq<Json>, lower: string -> string, e: Event, issuer: string, iat: Int64)
    requires |v| == FIELDS && forall i: nat | IsString(i) :: AsStr(v[i]) == Some(PayloadStr(i, lower, e, issuer))
    requires AsInt(v[2], MIN_INT64, MAX_INT64) == Some(iat) && AsMfa(v[14]) == Some(e.mfa)
    requires AsList(AsLink, v[15]) == Some(e.federation) && AsMembers(v[18]) == Some(e.details)
    requires AsInt(v[16], -0x8000_0000, 0x7fff_ffff) == Some(Score(e.risk))
    requires AsList(AsSignal, v[17]) == Some(Signals(e.risk))
    ensures FromFields(v) == Some((Normal(lower, e), issuer, iat))
  {
    StringFields(v, lower, e, issuer);
  }

  lemma PayloadEncodes(lower: string -> string, e: Event, issuer: string, iat: Int64)
    ensures Encodes(FieldValues(DecodedMembers(Present(PayloadSlots(lower, e, issuer, iat)))), lower, e, issuer, iat)
  {
    var slots := PayloadSlots(lower, e, issuer, iat);
    PayloadKeysDistinct(slots, lower, e, issuer, iat);
    SlotsDecode(slots);
    var m := DecodedMembers(Present(slots));
    forall i | 0 <= i < FIELDS ensures FieldValues(m)[i] == PayloadValue(i, lower, e, issuer, iat) {
      assert slots[i] == Slot(Key(i), PayloadDoc(i, lower, e, issuer, iat));
    }
  }

  lemma UnmarshalObject(text: string, m: map<string, Json>)
    requires Parse(text) == Some(Obj(m))
    ensures Unmarshal(text) == FromFields(FieldValues(m))
  {
  }

  /** UnmarshalCanonical of MarshalCanonical yields the normal form, the issuer and iat. */
  lemma UnmarshalMarshal(lower: string -> string, e: Event, issuer: string, iat: Int64)
    ensures Unmarshal(Marshal(lower, e, issuer, iat)) == Some((Normal(lower, e), issuer, iat))
  {
    var members := Present(PayloadSlots(lower, e, issuer, iat));
    PayloadEncodes(lower, e, issuer, iat);
    FieldsRead(FieldValues(DecodedMembers(members)), lower, e, issuer, iat);
    UnmarshalPrinted(members);
  }

  lemma UnmarshalPrinted(members: seq<Member>)
    ensures Unmarshal(Print(DObj(members))) == FromFields(FieldValues(DecodedMembers(members)))
  {
    ParsePrint(DObj(members));
    UnmarshalObject(Print(DObj(members)), DecodedMembers(members));
  }

  function KeyIndex(k: string): nat {
    if k == "event_id" then 0 else if k == "iss" then 1 else if k == "iat" then 2 else if k == "jti" then 3 else
    if k == "event_type" then 4 else if k == "tenant_id" then 5 else if k == "actor_id" then 6 else
    if k == "actor_kind" then 7 else
    if k == "subject_id" then 8 else if k == "subject_kind" then 9 else if k == "resource" then 10 else
    if k == "resource_id" then 11 else
    if k == "decision" then 12 else if k == "source_ip" then 13 else if k == "mfa" then 14 else
    if k == "federation" then 15 else
    if k == "risk_score" then 16 else if k == "risk_signals" then 17 else 18
  }

  lemma KeyIndexOf(i: nat)
    requires i < FIELDS
    ensures KeyIndex(Key(i)) == i
  {
  }

  lemma PayloadKeysDistinct(slots: seq<Slot>, lower: string -> string, e: Event, issuer: string, iat: Int64)
    requires slots == PayloadSlots(lower, e, issuer, iat)
    ensures DistinctSlots(slots)
  {
    forall i, j | 0 <= i < j < |slots| ensures slots[i].key != slots[j].key {
      KeyIndexOf(i);
      KeyIndexOf(j);
    }
  }

  /** Marshalling the normal form with the same issuer and iat reproduces the same bytes. */
  lemma MarshalNormal(lower: string -> string, e: Event, issuer: string, iat: Int64)
    requires Idempotent(lower)
    ensures Marshal(lower, Normal(lower, e), issuer, iat) == Marshal(lower, e, issuer, iat)
  {
    var n := Normal(lower, e);
    assert Score(n.risk) == Score(e.risk) && Signals(n.risk) == Signals(e.risk);
    assert PayloadSlots(lower, n, issuer, iat) == PayloadSlots(lower, e, issuer, iat);
  }

  /** The payload identifies the event up to its normal form. */
  lemma MarshalIdentifies(lower: string -> string, e: Event, issuer: string, iat: Int64, e': Event, issuer': string,
                          iat': Int64)
    requires Marshal(lower, e, issuer, iat) == Marshal(lower, e', issuer', iat')
    ensures Normal(lower, e) == Normal(lower, e') && issuer == issuer' && iat == iat'
  {
    UnmarshalMarshal(lower, e, issuer, iat);
    UnmarshalMarshal(lower, e', issuer', iat');
  }

  /** The re-signer: re-parsing a stored payload and marshalling it for a new signature gives exactly
      the bytes that signing the original event at that moment would have signed. */
  lemma ResignSignsOriginalBytes(lower: string -> string, e: Event, stored: string, iat0: Int64, issuer: string,
                                 iat1: Int64)
    requires Idempotent(lower) && stored == Marshal(lower, e, "aoid", iat0)
    ensures Unmarshal(stored).Some?
    ensures Marshal(lower, Unmarshal(stored).value.0, issuer, iat1) == Marshal(lower, e, issuer, iat1)
    ensures EventJti(Unmarshal(stored).value.0) == EventJti(e)
  {
    UnmarshalMarshal(lower, e, "aoid", iat0);
    MarshalNormal(lower, e, issuer, iat1);
  }
}

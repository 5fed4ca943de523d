/** The fields of a canonical payload by name, as a reader of the JSON sees them. */
module CanonicalFields {
  import opened Options
  import opened Numerals
  import opened CanonicalTree
  import opened CanonicalEvent

  /** Empty values are left out. */
  predicate HasText(m: map<string, Json>, key: string, text: string) {
    if text == "" then key !in m else key in m && m[key] == Str(text)
  }

  predicate HasNumber(m: map<string, Json>, key: string, n: int) {
    if n == 0 then key !in m else key in m && m[key].Num? && m[key].token == IntStr(n)
  }

  predicate HasFlag(m: map<string, Json>, key: string, b: bool) {
    if b then key in m && m[key] == Bool(true) else key !in m
  }

  predicate HasTexts(m: map<string, Json>, key: string, texts: seq<string>) {
    if texts == [] then key !in m
    else
      && key in m && m[key].Arr? && |m[key].items| == |texts|
      && forall i | 0 <= i < |texts| :: m[key].items[i] == Str(texts[i])
  }

  predicate IsLink(j: Json, l: Link) {
    && j.Obj? && HasText(j.members, "idp", l.idp) && HasText(j.members, "level", l.level)
    && HasText(j.members, "trust_link", l.trustLink)
  }

  predicate IsSignal(j: Json, s: Signal) {
    j.Obj? && HasText(j.members, "signal", s.signal) && HasNumber(j.members, "weight", s.weight)
  }

  predicate IsMfa(j: Json, a: Mfa) {
    && j.Obj? && HasTexts(j.members, "presented", a.presented) && HasTexts(j.members, "verified", a.verified)
    && HasFlag(j.members, "step_up_satisfied", a.stepUpSatisfied) && HasText(j.members, "aal_achieved", a.aalAchieved)
  }

  predicate HasMfa(m: map<string, Json>, key: string, a: Option<Mfa>) {
    if a.None? then key !in m else key in m && IsMfa(m[key], a.value)
  }

  predicate HasLinks(m: map<string, Json>, key: string, ls: seq<Link>) {
    if ls == [] then key !in m
    else
      && key in m && m[key].Arr? && |m[key].items| == |ls|
      && forall i | 0 <= i < |ls| :: IsLink(m[key].items[i], ls[i])
  }

  predicate HasSignals(m: map<string, Json>, key: string, ss: seq<Signal>) {
    if ss == [] then key !in m
    else
      && key in m && m[key].Arr? && |m[key].items| == |ss|
      && forall i | 0 <= i < |ss| :: IsSignal(m[key].items[i], ss[i])
  }

  predicate HasDetails(m: map<string, Json>, key: string, details: map<string, Json>) {
    if details == map[] then key !in m else key in m && m[key] == Obj(details)
  }

  // ---------------------------------------------------------------- one slot

  /** In an object printed from distinct slots, slot i is absent when empty and otherwise its decoded value. */
  lemma SlotRead(slots: seq<Slot>, i: nat)
    requires DistinctSlots(slots) && i < |slots|
    ensures var m := DecodedMembers(Present(slots));
      if slots[i].doc.None? then slots[i].key !in m
      else Decoded(slots[i].doc.value) == Null || (slots[i].key in m && m[slots[i].key] == Decoded(slots[i].doc.value))
  {
    SlotsDecode(slots);
    SlotsPresent(slots);
  }

  lemma LinkIs(l: Link)
    ensures IsLink(Decoded(DObj(Present(LinkSlots(l)))), l)
  {
    SlotRead(LinkSlots(l), 0);
    SlotRead(LinkSlots(l), 1);
    SlotRead(LinkSlots(l), 2);
  }

  lemma SignalIs(s: Signal)
    ensures IsSignal(Decoded(DObj(Present(SignalSlots(s)))), s)
  {
    SlotRead(SignalSlots(s), 0);
    SlotRead(SignalSlots(s), 1);
  }

  /** A slot with a list of texts. */
  lemma TextsRead(slots: seq<Slot>, i: nat, texts: seq<string>)
    requires DistinctSlots(slots) && i < |slots| && slots[i].doc == ListDoc(StrItems(texts))
    ensures HasTexts(DecodedMembers(Present(slots)), slots[i].key, texts)
  {
    SlotRead(slots, i);
    if texts != [] { TextsValue(texts); }
  }

  lemma TextsValue(texts: seq<string>)
    requires texts != []
    ensures ListDoc(StrItems(texts)).Some?
    ensures var j := Decoded(ListDoc(StrItems(texts)).value);
      j.Arr? && |j.items| == |texts| && forall i | 0 <= i < |texts| :: j.items[i] == Str(texts[i])
  {
    DecodedItemsAt(StrItems(texts));
  }

  lemma MfaIs(a: Mfa)
    ensures IsMfa(Decoded(DObj(Present(MfaSlots(a)))), a)
  {
    var slots := MfaSlots(a);
    TextsRead(slots, 0, a.presented);
    TextsRead(slots, 1, a.verified);
    SlotRead(slots, 2);
    SlotRead(slots, 3);
  }

  // ---------------------------------------------------------------- the payload

  ghost function Payload(lower: string -> string, e: Event, issuer: string, iat: Int64): map<string, Json> {
    DecodedMembers(Present(PayloadSlots(lower, e, issuer, iat)))
  }

  lemma FieldAt(lower: string -> string, e: Event, issuer: string, iat: Int64, i: nat)
    requires i < FIELDS
    ensures var d := PayloadDoc(i, lower, e, issuer, iat); var m := Payload(lower, e, issuer, iat);
      if d.None? then Key(i) !in m else Decoded(d.value) == Null || (Key(i) in m && m[Key(i)] == Decoded(d.value))
  {
    var slots := PayloadSlots(lower, e, issuer, iat);
    PayloadKeysDistinct(slots, lower, e, issuer, iat);
    SlotRead(slots, i);
  }

  lemma TextAt(lower: string -> string, e: Event, issuer: string, iat: Int64, i: nat)
    requires IsString(i)
    ensures HasText(Payload(lower, e, issuer, iat), Key(i), PayloadStr(i, lower, e, issuer))
  {
    FieldAt(lower, e, issuer, iat, i);
  }

  /** The string fields: the jti twice, the issuer, and the event's own, three of them lower-cased. */
  lemma TextFields(lower: string -> string, e: Event, issuer: string, iat: Int64)
    ensures var m := Payload(lower, e, issuer, iat);
      && HasText(m, "event_id", EventJti(e)) && HasText(m, "jti", EventJti(e)) && HasText(m, "iss", issuer)
      && HasText(m, "event_type", e.action) && HasText(m, "tenant_id", lower(e.companyId))
      && HasText(m, "actor_id", lower(e.actorId)) && HasText(m, "actor_kind", e.actorKind)
      && HasText(m, "subject_id", lower(e.subjectId)) && HasText(m, "subject_kind", e.subjectKind)
      && HasText(m, "resource", e.resource) && HasText(m, "resource_id", e.resourceId)
      && HasText(m, "decision", e.decision) && HasText(m, "source_ip", e.ipAddress)
  {
    TextAt(lower, e, issuer, iat, 0);
    TextAt(lower, e, issuer, iat, 1);
    TextAt(lower, e, issuer, iat, 3);
    TextAt(lower, e, issuer, iat, 4);
    TextAt(lower, e, issuer, iat, 5);
    TextAt(lower, e, issuer, iat, 6);
    TextAt(lower, e, issuer, iat, 7);
    TextAt(lower, e, issuer, iat, 8);
    TextAt(lower, e, issuer, iat, 9);
    TextAt(lower, e, issuer, iat, 10);
    TextAt(lower, e, issuer, iat, 11);
    TextAt(lower, e, issuer, iat, 12);
    TextAt(lower, e, issuer, iat, 13);
  }

  /** The others: times and scores as numbers, attestations as objects and lists, details as they are. */
  lemma OtherFieldsByName(lower: string -> string, e: Event, issuer: string, iat: Int64)
    ensures var m := Payload(lower, e, issuer, iat);
      && HasNumber(m, "iat", iat) && HasNumber(m, "risk_score", if e.risk.None? then 0 else e.risk.value.score)
      && HasMfa(m, "mfa", e.mfa) && HasLinks(m, "federation", e.federation)
      && HasSignals(m, "risk_signals", if e.risk.None? then [] else e.risk.value.signals)
      && HasDetails(m, "details", e.details)
  {
    NumbersByName(lower, e, issuer, iat);
    MfaByName(lower, e, issuer, iat);
    LinksByName(lower, e, issuer, iat);
    SignalsByName(lower, e, issuer, iat);
    DetailsByName(lower, e, issuer, iat);
  }

  lemma NumbersByName(lower: string -> string, e: Event, issuer: string, iat: Int64)
    ensures var m := Payload(lower, e, issuer, iat);
      HasNumber(m, "iat", iat) && HasNumber(m, "risk_score", if e.risk.None? then 0 else e.risk.value.score)
  {
    FieldAt(lower, e, issuer, iat, 2);
    FieldAt(lower, e, issuer, iat, 16);
  }

  lemma DetailsByName(lower: string -> string, e: Event, issuer: string, iat: Int64)
    ensures HasDetails(Payload(lower, e, issuer, iat), "details", e.details)
  {
    var i, d := DetailsField(lower, e, issuer, iat);
    DetailsSlot(lower, e, issuer, iat, i, d);
    DetailsFrom(Payload(lower, e, issuer, iat), e.details, d);
  }

  /** The details' slot and what its document means, the slot's number kept out of sight. */
  lemma DetailsField(lower: string -> string, e: Event, issuer: string, iat: Int64) returns (i: nat, d: Option<Doc>)
    ensures i < FIELDS && Key(i) == "details" && d == PayloadDoc(i, lower, e, issuer, iat)
    ensures d.None? <==> e.details == map[]
    ensures d.Some? ==> Decoded(d.value) == Obj(e.details)
  {
    d := DetailsMeaning(e.details);
    i := DetailsIndex(lower, e, issuer, iat, d);
  }

  lemma DetailsIndex(lower: string -> string, e: Event, issuer: string, iat: Int64, d: Option<Doc>) returns (i: nat)
    requires d == DetailsDoc(e.details)
    ensures i < FIELDS && Key(i) == "details" && d == PayloadDoc(i, lower, e, issuer, iat)
  {
    i := FIELDS - 1;
    LastDoc(i, lower, e, issuer, iat);
  }

  lemma LastDoc(i: nat, lower: string -> string, e: Event, issuer: string, iat: Int64)
    requires i == FIELDS - 1
    ensures PayloadDoc(i, lower, e, issuer, iat) == DetailsDoc(e.details)
  {
    assert i == 18 && !IsString(i);
  }

  lemma DetailsMeaning(details: map<string, Json>) returns (d: Option<Doc>)
    ensures d == DetailsDoc(details)
    ensures d.None? <==> details == map[]
    ensures d.Some? ==> Decoded(d.value) == Obj(details)
  {
    d := DetailsDoc(details);
    if details != map[] { OrderedDecodes(Obj(details)); }
  }

  lemma DetailsSlot(lower: string -> string, e: Event, issuer: string, iat: Int64, i: nat, d: Option<Doc>)
    requires i < FIELDS && d == PayloadDoc(i, lower, e, issuer, iat)
    ensures var m := Payload(lower, e, issuer, iat);
      if d.None? then Key(i) !in m
      else Decoded(d.value) == Null || (Key(i) in m && m[Key(i)] == Decoded(d.value))
  {
    FieldAt(lower, e, issuer, iat, i);
  }

  lemma DetailsFrom(m: map<string, Json>, details: map<string, Json>, d: Option<Doc>)
    requires d.None? <==> details == map[]
    requires d.Some? ==> Decoded(d.value) == Obj(details)
    requires if d.None? then "details" !in m
             else Decoded(d.value) == Null || ("details" in m && m["details"] == Decoded(d.value))
    ensures HasDetails(m, "details", details)
  {}

  lemma MfaByName(lower: string -> string, e: Event, issuer: string, iat: Int64)
    ensures HasMfa(Payload(lower, e, issuer, iat), "mfa", e.mfa)
  {
    FieldAt(lower, e, issuer, iat, 14);
    if e.mfa.Some? { MfaIs(e.mfa.value); }
  }

  lemma LinksByName(lower: string -> string, e: Event, issuer: string, iat: Int64)
    ensures HasLinks(Payload(lower, e, issuer, iat), "federation", e.federation)
  {
    FieldAt(lower, e, issuer, iat, 15);
    DecodedItemsAt(LinkItems(e.federation));
    forall i | 0 <= i < |e.federation| ensures IsLink(Decoded(LinkItems(e.federation)[i]), e.federation[i]) {
      LinkIs(e.federation[i]);
    }
  }

  lemma SignalsByName(lower: string -> string, e: Event, issuer: string, iat: Int64)
    ensures var m := Payload(lower, e, issuer, iat);
      HasSignals(m, "risk_signals", if e.risk.None? then [] else e.risk.value.signals)
  {
    var ss := Signals(e.risk);
    FieldAt(lower, e, issuer, iat, 17);
    DecodedItemsAt(SignalItems(ss));
    forall i | 0 <= i < |ss| ensures IsSignal(Decoded(SignalItems(ss)[i]), ss[i]) {
      SignalIs(ss[i]);
    }
  }

  /** The payload is one JSON object; these are all its fields, in this order. */
  lemma PayloadIsObject(lower: string -> string, e: Event, issuer: string, iat: Int64)
    ensures Parse(Marshal(lower, e, issuer, iat)) == Some(Obj(Payload(lower, e, issuer, iat)))
    ensures forall k | k in Payload(lower, e, issuer, iat) :: exists i | 0 <= i < FIELDS :: Key(i) == k
  {
    var slots := PayloadSlots(lower, e, issuer, iat);
    ParsePrint(DObj(Present(slots)));
    SlotsPresent(slots);
  }

  lemma FieldOrder(i: nat)
    requires i < 19
    ensures FIELDS == 19
    ensures Key(i) == ["event_id", "iss", "iat", "jti", "event_type", "tenant_id", "actor_id", "actor_kind",
                       "subject_id", "subject_kind", "resource", "resource_id", "decision", "source_ip", "mfa",
                       "federation", "risk_score", "risk_signals", "details"][i]
  {}

  /** The jti is details["jti"] when that is a string. */
  lemma JtiIs(e: Event)
    ensures forall s | "jti" in e.details && e.details["jti"] == Str(s) :: EventJti(e) == s
    ensures !("jti" in e.details && e.details["jti"].Str?) ==> EventJti(e) == ""
  {}

  // ---------------------------------------------------------------- what decoding refuses

  predicate TextOrNull(m: map<string, Json>, key: string) { key in m ==> m[key].Null? || m[key].Str? }

  predicate NumberOrNull(m: map<string, Json>, key: string, bits: nat)
    requires bits == 32 || bits == 64
  {
    var top := if bits == 32 then 0x8000_0000 else 0x8000_0000_0000_0000;
    key in m && !m[key].Null? ==> m[key].Num? && Numeral(m[key].token) && -top <= IntVal(m[key].token) < top
  }

  predicate ListOrNull(m: map<string, Json>, key: string) { key in m ==> m[key].Null? || m[key].Arr? }

  predicate ObjectOrNull(m: map<string, Json>, key: string) { key in m ==> m[key].Null? || m[key].Obj? }

  /** A field of the wrong type, or a number with a fraction or out of range, makes the whole payload unreadable. */
  lemma UnmarshalNeedsTypes(text: string, m: map<string, Json>)
    requires Parse(text) == Some(Obj(m)) && Unmarshal(text).Some?
    ensures forall i | 0 <= i < FIELDS && IsString(i) :: TextOrNull(m, Key(i))
    ensures NumberOrNull(m, "iat", 64) && NumberOrNull(m, "risk_score", 32)
    ensures ListOrNull(m, "federation") && ListOrNull(m, "risk_signals")
    ensures ObjectOrNull(m, "mfa") && ObjectOrNull(m, "details")
  {
    var v := FieldValues(m);
    FieldsNeedTypes(v);
    forall i | 0 <= i < FIELDS && IsString(i) ensures TextOrNull(m, Key(i)) { StringOk(v, i); }
    ValueNamed(m, "iat", 2);
    ValueNamed(m, "risk_score", 16);
    ValueNamed(m, "federation", 15);
    ValueNamed(m, "risk_signals", 17);
    ValueNamed(m, "mfa", 14);
    ValueNamed(m, "details", 18);
  }

  lemma ValueNamed(m: map<string, Json>, key: string, i: nat)
    requires i < FIELDS && Key(i) == key
    ensures FieldValues(m)[i] == Field(m, key)
  {}

  lemma FieldsNeedTypes(v: seq<Json>)
    requires |v| == FIELDS && FromFields(v).Some?
    ensures StringsOk(v)
    ensures AsInt(v[2], MIN_INT64, MAX_INT64).Some? && AsInt(v[16], -0x8000_0000, 0x7fff_ffff).Some?
    ensures (v[15].Null? || v[15].Arr?) && (v[17].Null? || v[17].Arr?)
    ensures (v[14].Null? || v[14].Obj?) && (v[18].Null? || v[18].Obj?)
  {}

  lemma StringOk(v: seq<Json>, i: nat)
    requires |v| == FIELDS && StringsOk(v) && IsString(i)
    ensures v[i].Null? || v[i].Str?
  {}

  /** So does one inside an attestation, a federation link or a risk signal. */
  lemma PartsNeedTypes(m: map<string, Json>)
    ensures AsLink(Obj(m)).Some? ==> TextOrNull(m, "idp") && TextOrNull(m, "level") && TextOrNull(m, "trust_link")
    ensures AsSignal(Obj(m)).Some? ==> TextOrNull(m, "signal") && NumberOrNull(m, "weight", 32)
    ensures AsMfa(Obj(m)).Some? ==>
      && ListOrNull(m, "presented") && ListOrNull(m, "verified")
      && TextOrNull(m, "aal_achieved")
      && ("step_up_satisfied" in m ==> m["step_up_satisfied"].Null? || m["step_up_satisfied"].Bool?)
  {}
}

/** Message parameters between C and JavaScript: numbers pass through 32 bits,
    and flags are enabled by read-modify-write on a JavaScript property. */
module MessageParams {
  import opened Basics

  /** mesibo_uint_t */
  type Uint = v: int | 0 <= v < TWO64

  type Word32 = v: int | 0 <= v < TWO32

  /** A JavaScript value as the conversions see it.  `Other` is any value that is
      not an unsigned 32-bit integer, with its conversion to a string, if it has one. */
  datatype JsValue =
    | Undefined
    | Null
    | Bool(b: bool)
    | Uint32(n: Word32)
    | Str(s: string)
    | Other(text: Option<string>)

  /** The property names of a message object that carry parameters. */
  datatype Key = Aid | Id | RefId | GroupId | Flags | Type | Expiry | To | From | ToOnline

  type Properties = map<Key, JsValue>

  function Get(props: Properties, key: Key): JsValue {
    if key in props then props[key] else Undefined
  }

  /** mesibo_message_params_t; `rest` are uflags, status, sid, device and the
      four reserved words. */
  datatype Params = Params(
    aid: Uint, id: Uint, refid: Uint, groupid: Uint, flags: Uint, kind: Uint, expiry: Uint,
    rest: seq<Uint>, to: Option<string>, from: Option<string>)

  const ZEROES: seq<Uint> := [0, 0, 0, 0, 0, 0, 0, 0]

  /** (uint32_t)value */
  function Low32(v: Uint): Word32 {
    v % TWO32
  }

  predicate Below32(v: Uint) {
    v < TWO32
  }

  /** JtoC_ParamUint: null and undefined read as 0, anything that is not an
      unsigned 32-bit integer as -1. */
  function ReadUint(v: JsValue): Uint {
    match v
    case Undefined => 0
    case Null => 0
    case Uint32(n) => n
    case _ => TWO64 - 1
  }

  /** JtoC_ParamString */
  function ReadString(v: JsValue): Option<string> {
    match v
    case Undefined => None
    case Null => None
    case Bool(b) => Some(if b then "true" else "false")
    case Uint32(n) => Some(Decimal(n))
    case Str(s) => Some(s)
    case Other(text) => text
  }

  function WriteString(s: Option<string>): JsValue {
    if s.Some? then Str(s.value) else Null
  }

  class JsObject {
    var props: Properties

    constructor ()
      ensures props == map[]
    {
      props := map[];
    }

    /** CtoJ_Uint */
    method SetUint(key: Key, value: Uint)
      modifies this
      ensures props == old(props)[key := Uint32(Low32(value))]
    {
      props := props[key := Uint32(Low32(value))];
    }

    /** CtoJ_String */
    method SetString(key: Key, value: Option<string>)
      modifies this
      ensures props == old(props)[key := WriteString(value)]
    {
      if value.None? {
        props := props[key := Null];
      } else {
        props := props[key := Str(value.value)];
      }
    }
  }

  /** CtoJ_MessageParams, for a pointer that is not null. */
  method CtoJ(p: Params) returns (message: JsObject)
    ensures fresh(message)
    ensures message.props == Written(p)
  {
    message := new JsObject();
    message.SetUint(Aid, p.aid);
    message.SetUint(Id, p.id);
    message.SetUint(RefId, p.refid);
    message.SetUint(GroupId, p.groupid);
    message.SetUint(Flags, p.flags);
    message.SetUint(Type, p.kind);
    message.SetUint(Expiry, p.expiry);
    message.SetString(To, p.to);
    message.SetString(From, p.from);
  }

  function Written(p: Params): Properties {
    map[Aid := Uint32(Low32(p.aid)), Id := Uint32(Low32(p.id)), RefId := Uint32(Low32(p.refid)),
        GroupId := Uint32(Low32(p.groupid)), Flags := Uint32(Low32(p.flags)),
        Type := Uint32(Low32(p.kind)), Expiry := Uint32(Low32(p.expiry)),
        To := WriteString(p.to), From := WriteString(p.from)]
  }

  /** JtoC_MessageParams: the struct is zeroed, then filled field by field. */
  method JtoC(message: JsObject) returns (mp: Params)
    ensures mp == Read(message.props)
  {
    mp := Params(0, 0, 0, 0, 0, 0, 0, ZEROES, None, None);
    mp := mp.(aid := ReadUint(Get(message.props, Aid)));
    mp := mp.(id := ReadUint(Get(message.props, Id)));
    mp := mp.(refid := ReadUint(Get(message.props, RefId)));
    mp := mp.(groupid := ReadUint(Get(message.props, GroupId)));
    mp := mp.(flags := ReadUint(Get(message.props, Flags)));
    mp := mp.(kind := ReadUint(Get(message.props, Type)));
    mp := mp.(expiry := ReadUint(Get(message.props, Expiry)));
    mp := mp.(to := ReadString(Get(message.props, To)));
    mp := mp.(from := ReadString(Get(message.props, From)));
  }

  function Read(props: Properties): Params {
    Params(ReadUint(Get(props, Aid)), ReadUint(Get(props, Id)), ReadUint(Get(props, RefId)),
           ReadUint(Get(props, GroupId)), ReadUint(Get(props, Flags)), ReadUint(Get(props, Type)),
           ReadUint(Get(props, Expiry)), ZEROES,
           ReadString(Get(props, To)), ReadString(Get(props, From)))
  }

  lemma UintRoundTrip(v: Uint)
    ensures ReadUint(Uint32(Low32(v))) == v <==> Below32(v)
    ensures ReadUint(Uint32(Low32(v))) == v % TWO32
  {
  }

  /** Out to JavaScript and back: each number is restored exactly when it fits 32
      bits, addresses are restored including null, and the rest is zeroed. */
  lemma ParamsRoundTrip(p: Params)
    ensures var q := Read(Written(p));
      && (q.aid == p.aid <==> Below32(p.aid)) && (q.id == p.id <==> Below32(p.id))
      && (q.refid == p.refid <==> Below32(p.refid)) && (q.groupid == p.groupid <==> Below32(p.groupid))
      && (q.flags == p.flags <==> Below32(p.flags)) && (q.kind == p.kind <==> Below32(p.kind))
      && (q.expiry == p.expiry <==> Below32(p.expiry))
      && q.to == p.to && q.from == p.from && q.rest == ZEROES
  {
    UintRoundTrip(p.aid);
    UintRoundTrip(p.id);
    UintRoundTrip(p.refid);
    UintRoundTrip(p.groupid);
    UintRoundTrip(p.flags);
    UintRoundTrip(p.kind);
    UintRoundTrip(p.expiry);
  }

  /** The struct field each numeric property belongs to. */
  function NumberField(p: Params, key: Key): Option<Uint> {
    match key
    case Aid => Some(p.aid)
    case Id => Some(p.id)
    case RefId => Some(p.refid)
    case GroupId => Some(p.groupid)
    case Flags => Some(p.flags)
    case Type => Some(p.kind)
    case Expiry => Some(p.expiry)
    case _ => None
  }

  /** What each property of a written object is: a number's low 32 bits, an
      address or null, and no others. */
  lemma WrittenProperties(p: Params, key: Key)
    ensures NumberField(p, key).Some? ==>
      key in Written(p) && Written(p)[key] == Uint32(NumberField(p, key).value % 0x1_0000_0000)
    ensures To in Written(p) && Written(p)[To] == (if p.to.None? then Null else Str(p.to.value))
    ensures From in Written(p) && Written(p)[From] == (if p.from.None? then Null else Str(p.from.value))
    ensures key == ToOnline ==> key !in Written(p)
  {
  }

  /** What each field of a read struct is, for any object: a number that is absent
      or null is zero, one that is no unsigned 32-bit integer all ones; an
      address that is absent or null stays null, a string is copied. */
  lemma ReadFields(props: Properties, key: Key)
    ensures var n := NumberField(Read(props), key); n.Some? ==>
      && (key !in props || props[key].Undefined? || props[key].Null? ==> n.value == 0)
      && (key in props && props[key].Uint32? ==> n.value == props[key].n)
      && (key in props && (props[key].Bool? || props[key].Str? || props[key].Other?) ==>
            n.value == 0xFFFF_FFFF_FFFF_FFFF)
    ensures ReadsAddress(props, To, Read(props).to) && ReadsAddress(props, From, Read(props).from)
    ensures Read(props).rest == [0, 0, 0, 0, 0, 0, 0, 0]
  {
    if To in props && props[To].Uint32? { DecimalReadsBack(props[To].n); }
    if From in props && props[From].Uint32? { DecimalReadsBack(props[From].n); }
  }

  predicate ReadsAddress(props: Properties, key: Key, address: Option<string>) {
    && (key !in props || props[key].Undefined? || props[key].Null? ==> address == None)
    && (key in props && props[key].Str? ==> address == Some(props[key].s))
    && (key in props && props[key].Bool? ==> address == Some(if props[key].b then "true" else "false"))
    && (key in props && props[key].Uint32? ==>
          address.Some? && IsDecimal(address.value) && NumberOf(address.value) == props[key].n)
    && (key in props && props[key].Other? ==> address == props[key].text)
  }

  // ---------------------------------------------------------------------
  // Bitwise or

  function Or(a: nat, b: nat): nat {
    if a == 0 then b else if b == 0 then a
    else 2 * Or(a / 2, b / 2) + if a % 2 == 1 || b % 2 == 1 then 1 else 0
  }

  lemma {:induction false} OrCommutes(a: nat, b: nat)
    ensures Or(a, b) == Or(b, a)
  {
    if a != 0 && b != 0 { OrCommutes(a / 2, b / 2); }
  }

  lemma {:induction false} OrHalves(a: nat, b: nat)
    ensures Or(a, b) / 2 == Or(a / 2, b / 2)
    ensures Or(a, b) % 2 == 1 <==> a % 2 == 1 || b % 2 == 1
    ensures Or(a, b) == 0 <==> a == 0 && b == 0
  {
    if a != 0 && b != 0 { OrHalves(a / 2, b / 2); }
  }

  lemma {:induction false} OrAssociates(a: nat, b: nat, c: nat)
    ensures Or(Or(a, b), c) == Or(a, Or(b, c))
  {
    if a != 0 && b != 0 && c != 0 {
      OrAssociates(a / 2, b / 2, c / 2);
      OrHalves(a, b);
      OrHalves(b, c);
    }
  }

  lemma {:induction false} OrIdempotent(a: nat)
    ensures Or(a, a) == a
  {
    if a != 0 { OrIdempotent(a / 2); }
  }

  /** Or does not carry: words of 2^k stay words of 2^k. */
  lemma {:induction false} OrStaysBelow(a: nat, b: nat, k: nat)
    requires a < Power2(k) && b < Power2(k)
    ensures Or(a, b) < Power2(k)
  {
    if a != 0 && b != 0 { OrStaysBelow(a / 2, b / 2, k - 1); }
  }

  function Power2(k: nat): nat {
    if k == 0 then 1 else 2 * Power2(k - 1)
  }

  lemma Power2Of32()
    ensures Power2(32) == TWO32
  {
    assert Power2(8) == 0x100;
    assert Power2(16) == 0x1_0000;
    assert Power2(24) == 0x100_0000;
  }

  lemma OrBelow32(a: nat, b: nat)
    requires a < TWO32 && b < TWO32
    ensures Or(a, b) < TWO32
  {
    Power2Of32();
    OrStaysBelow(a, b, 32);
  }

  // ---------------------------------------------------------------------
  // Enabling flags

  datatype Feature = DeliveryReceipt | ReadReceipt | Presence | SendIfOnline

  function Mask(f: Feature): nat {
    match f
    case DeliveryReceipt => 0x1
    case ReadReceipt => 0x2
    case Presence => 0x8
    case SendIfOnline => 1
  }

  function Property(f: Feature): Key {
    if f.SendIfOnline? then ToOnline else Flags
  }

  /** One of the four enable callbacks, with its first argument. */
  datatype Enable = Enable(feature: Feature, argument: JsValue)

  predicate Enables(e: Enable) {
    e.argument == Bool(true)
  }

  /** What a property holds after a mask is read, or'ed in and written back; all
      bits set stays all bits set. */
  function WithMask(v: JsValue, mask: nat): JsValue {
    Uint32(Or(ReadUint(v), mask) % TWO32)
  }

  function Enabled(props: Properties, e: Enable): Properties {
    if Enables(e)
    then props[Property(e.feature) := WithMask(Get(props, Property(e.feature)), Mask(e.feature))]
    else props
  }

  /** EnableMessageProperty as called by the four callbacks. */
  method EnableMessageProperty(message: JsObject, e: Enable) returns (rv: int)
    modifies message
    ensures message.props == Enabled(old(message.props), e)
    ensures rv == if e.argument.Bool? then MESIBO_RESULT_OK else MESIBO_RESULT_FAIL
  {
    if !e.argument.Bool? { return MESIBO_RESULT_FAIL; }
    if e.argument.b {
      var value := ReadUint(Get(message.props, Property(e.feature)));
      OrIsUint(value, e.feature);
      message.SetUint(Property(e.feature), Or(value, Mask(e.feature)));
    }
    return MESIBO_RESULT_OK;
  }

  lemma OrIsUint(v: Uint, f: Feature)
    ensures Or(v, Mask(f)) < TWO64
  {
    assert Power2(32) == TWO32 by { Power2Of32(); }
    assert Power2(64) == TWO64 by { Power2Doubles(32); }
    OrStaysBelow(v, Mask(f), 64);
  }

  lemma {:induction false} Power2Adds(j: nat, k: nat)
    ensures Power2(j + k) == Power2(j) * Power2(k)
  {
    if j > 0 { Power2Adds(j - 1, k); }
  }

  lemma Power2Doubles(k: nat)
    ensures Power2(2 * k) == Power2(k) * Power2(k)
  {
    Power2Adds(k, k);
  }

  function EnabledAll(props: Properties, es: seq<Enable>): Properties {
    if es == [] then props else Enabled(EnabledAll(props, es[..|es| - 1]), es[|es| - 1])
  }

  /** Whether some call of the sequence turns a feature on. */
  predicate TurnsOn(es: seq<Enable>, f: Feature) {
    exists i :: 0 <= i < |es| && es[i].feature == f && es[i].argument == Bool(true)
  }

  function MaskIf(f: Feature, on: bool): nat {
    if on then Mask(f) else 0
  }

  /** The union of the masks turned on for a property, whatever order they come in. */
  function UnionFor(es: seq<Enable>, property: Key): nat {
    if property == Flags then
      FlagUnion(TurnsOn(es, DeliveryReceipt), TurnsOn(es, ReadReceipt), TurnsOn(es, Presence))
    else if property == ToOnline then MaskIf(SendIfOnline, TurnsOn(es, SendIfOnline))
    else 0
  }

  function FlagUnion(delivery: bool, read: bool, presence: bool): nat {
    Or(Or(MaskIf(DeliveryReceipt, delivery), MaskIf(ReadReceipt, read)), MaskIf(Presence, presence))
  }

  predicate ValidFlags(v: JsValue) {
    v.Undefined? || v.Null? || v.Uint32?
  }

  lemma TurnsOnGrows(before: seq<Enable>, e: Enable, f: Feature)
    ensures TurnsOn(before + [e], f) <==> TurnsOn(before, f) || (e.feature == f && Enables(e))
  {
    var es := before + [e];
    if TurnsOn(before, f) {
      var i :| 0 <= i < |before| && before[i].feature == f && before[i].argument == Bool(true);
      assert es[i] == before[i];
    }
    if e.feature == f && Enables(e) { assert es[|before|] == e; }
    if TurnsOn(es, f) && !(e.feature == f && Enables(e)) {
      var i :| 0 <= i < |es| && es[i].feature == f && es[i].argument == Bool(true);
      assert before[i] == es[i];
    }
  }

  /** Or'ing a mask into a union that may hold it already. */
  lemma MaskIntoUnion(d: nat, r: nat, p: nat, m: nat)
    ensures Or(Or(Or(d, r), p), m) == Or(Or(Or(d, m), r), p)
    ensures Or(Or(Or(d, r), p), m) == Or(Or(d, Or(r, m)), p)
    ensures Or(Or(Or(d, r), p), m) == Or(Or(d, r), Or(p, m))
    ensures Or(0, m) == m && Or(m, m) == m
  {
    OrIdempotent(m);
    OrAssociates(Or(d, r), p, m);
    OrCommutes(p, m);
    OrAssociates(Or(d, r), m, p);
    OrAssociates(d, r, m);
    OrCommutes(r, m);
    OrAssociates(d, m, r);
  }

  lemma UnionStep(before: seq<Enable>, e: Enable, property: Key)
    ensures UnionFor(before + [e], property) ==
      if Enables(e) && Property(e.feature) == property
      then Or(UnionFor(before, property), Mask(e.feature)) else UnionFor(before, property)
  {
    TurnsOnGrows(before, e, DeliveryReceipt);
    TurnsOnGrows(before, e, ReadReceipt);
    TurnsOnGrows(before, e, Presence);
    TurnsOnGrows(before, e, SendIfOnline);
    MaskIntoUnion(MaskIf(DeliveryReceipt, TurnsOn(before, DeliveryReceipt)),
                  MaskIf(ReadReceipt, TurnsOn(before, ReadReceipt)),
                  MaskIf(Presence, TurnsOn(before, Presence)), Mask(e.feature));
  }

  lemma WithMaskReads(v: JsValue, m: nat)
    requires ValidFlags(v) && m < TWO32
    ensures WithMask(v, m).Uint32? && ReadUint(WithMask(v, m)) == Or(ReadUint(v), m)
  {
    OrBelow32(ReadUint(v), m);
  }

  /** After any sequence of calls, a property that held valid flags holds the
      initial flags together with the union of the masks turned on. */
  lemma {:induction false} FlagsAccumulate(props: Properties, es: seq<Enable>, property: Key)
    requires ValidFlags(Get(props, property))
    ensures var v := Get(EnabledAll(props, es), property);
            ValidFlags(v) && ReadUint(v) == Or(ReadUint(Get(props, property)), UnionFor(es, property))
  {
    var initial := ReadUint(Get(props, property));
    if es == [] {
      OrCommutes(initial, 0);
    } else {
      var before, e := es[..|es| - 1], es[|es| - 1];
      assert es == before + [e];
      FlagsAccumulate(props, before, property);
      UnionStep(before, e, property);
      WithMaskReads(Get(EnabledAll(props, before), property), Mask(e.feature));
      OrAssociates(initial, UnionFor(before, property), Mask(e.feature));
    }
  }

  // ---------------------------------------------------------------------
  // The flags bit by bit

  predicate Bit(n: nat, k: nat)
    decreases k
  {
    if k == 0 then n % 2 == 1 else Bit(n / 2, k - 1)
  }

  lemma {:induction false} NoBits(k: nat)
    ensures !Bit(0, k)
  {
    if k > 0 { NoBits(k - 1); }
  }

  lemma {:induction false} OrBits(a: nat, b: nat, k: nat)
    ensures Bit(Or(a, b), k) <==> Bit(a, k) || Bit(b, k)
    decreases k
  {
    OrHalves(a, b);
    if k > 0 { OrBits(a / 2, b / 2, k - 1); }
  }

  lemma MaskBits(f: Feature, k: nat)
    ensures Bit(Mask(f), k) <==>
      match f case DeliveryReceipt => k == 0 case ReadReceipt => k == 1
              case Presence => k == 3 case SendIfOnline => k == 0
  {
    NoBits(k);
    if k >= 1 { NoBits(k - 1); }
    if k >= 2 { NoBits(k - 2); }
    if k >= 4 { NoBits(k - 4); }
    assert k >= 1 ==> (Bit(1, k) <==> Bit(0, k - 1));
    assert k >= 2 ==> (Bit(2, k) <==> Bit(0, k - 2));
    assert k >= 2 ==> (Bit(8, k) <==> Bit(2, k - 2));
    assert k >= 4 ==> (Bit(2, k - 2) <==> Bit(0, k - 4));
  }

  /** After any calls on valid flags, bit by bit: delivery receipts are bit 0 of
      the flags, read receipts bit 1, presence bit 3; sending to those online is
      bit 0 of a property of its own; every other bit is what it was. */
  lemma FlagBits(props: Properties, es: seq<Enable>, k: nat)
    ensures ValidFlags(Get(props, Flags)) ==>
      (Bit(ReadUint(Get(EnabledAll(props, es), Flags)), k) <==>
        || Bit(ReadUint(Get(props, Flags)), k)
        || (k == 0 && TurnsOn(es, DeliveryReceipt))
        || (k == 1 && TurnsOn(es, ReadReceipt))
        || (k == 3 && TurnsOn(es, Presence)))
    ensures ValidFlags(Get(props, ToOnline)) ==>
      (Bit(ReadUint(Get(EnabledAll(props, es), ToOnline)), k) <==>
        Bit(ReadUint(Get(props, ToOnline)), k) || (k == 0 && TurnsOn(es, SendIfOnline)))
  {
    if ValidFlags(Get(props, Flags)) { FlagsAccumulate(props, es, Flags); }
    if ValidFlags(Get(props, ToOnline)) { FlagsAccumulate(props, es, ToOnline); }
    OrBits(ReadUint(Get(props, Flags)), UnionFor(es, Flags), k);
    OrBits(ReadUint(Get(props, ToOnline)), UnionFor(es, ToOnline), k);
    UnionBits(TurnsOn(es, DeliveryReceipt), TurnsOn(es, ReadReceipt), TurnsOn(es, Presence), k);
    NoBits(k);
    MaskBits(SendIfOnline, k);
  }

  lemma UnionBits(delivery: bool, read: bool, presence: bool, k: nat)
    ensures Bit(FlagUnion(delivery, read, presence), k) <==>
      (k == 0 && delivery) || (k == 1 && read) || (k == 3 && presence)
  {
    var d, r, p := MaskIf(DeliveryReceipt, delivery), MaskIf(ReadReceipt, read), MaskIf(Presence, presence);
    OrBits(Or(d, r), p, k);
    OrBits(d, r, k);
    NoBits(k);
    MaskBits(DeliveryReceipt, k);
    MaskBits(ReadReceipt, k);
    MaskBits(Presence, k);
  }

  /** The calls touch no other property. */
  lemma {:induction false} OtherPropertiesStay(props: Properties, es: seq<Enable>, key: Key)
    requires key != Flags && key != ToOnline
    ensures Get(EnabledAll(props, es), key) == Get(props, key)
  {
    if es != [] { OtherPropertiesStay(props, es[..|es| - 1], key); }
  }

  /** So neither order nor repetition matters: only which features are turned on. */
  lemma OnlyFeaturesMatter(props: Properties, es: seq<Enable>, es': seq<Enable>, property: Key)
    requires ValidFlags(Get(props, property))
    requires forall f :: TurnsOn(es, f) <==> TurnsOn(es', f)
    ensures ReadUint(Get(EnabledAll(props, es), property)) == ReadUint(Get(EnabledAll(props, es'), property))
  {
    FlagsAccumulate(props, es, property);
    FlagsAccumulate(props, es', property);
  }

  lemma {:induction false} AllOnesAbsorb(k: nat, m: nat)
    requires m < Power2(k)
    ensures Or(Power2(k) - 1, m) == Power2(k) - 1
  {
    if k > 0 && m != 0 {
      assert (Power2(k) - 1) / 2 == Power2(k - 1) - 1;
      AllOnesAbsorb(k - 1, m / 2);
    }
  }

  /** Validity is what it takes: any other value turns into all flags at once. */
  lemma InvalidFlagsSaturate(props: Properties, e: Enable)
    requires Enables(e) && !ValidFlags(Get(props, Property(e.feature)))
    ensures Get(Enabled(props, e), Property(e.feature)) == Uint32(0xFFFF_FFFF)
  {
    assert Power2(32) == TWO32 by { Power2Of32(); }
    assert Power2(64) == TWO64 by { Power2Doubles(32); }
    AllOnesAbsorb(64, Mask(e.feature));
  }
}

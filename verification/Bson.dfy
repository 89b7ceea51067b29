/**
 JSON commands to BSON documents and back. Objects are ordered sequences of members, as both sides keep
 key order. The text codecs (hex, RFC 3339, decimal, base64) come in as a `Codec`, of which only that
 decoding undoes encoding is assumed.
 */
module Bson {
  import opened Wrappers

  type Byte = b: int | 0 <= b < 256
  type I64 = i: int | -0x8000_0000_0000_0000 <= i < 0x8000_0000_0000_0000
  type I32 = i: int | -0x8000_0000 <= i < 0x8000_0000
  type U32 = i: int | 0 <= i < 0x1_0000_0000
  type OidBytes = b: seq<Byte> | |b| == 12 witness [0, 0, 0, 0, 0, 0, 0, 0, 0, 0, 0, 0]

  /** What a JSON number without a fraction can hold: `i64` or `u64`. */
  type JsonInt = i: int | -0x8000_0000_0000_0000 <= i < 0x1_0000_0000_0000_0000

  const I64_MAX := 0x7FFF_FFFF_FFFF_FFFF

  datatype Json =
    | JNull
    | JBool(flag: bool)
    | JInt(i: JsonInt)
    | JFloat(bits: int)
    | JString(text: string)
    | JArray(items: seq<Json>)
    | JObject(members: seq<Member>)

  datatype Member = Member(key: string, value: Json)

  /** A 64-bit float, told apart by its bits; JSON holds only the finite ones. */
  datatype Float = Finite(bits: int) | NonFinite(bits: int)

  datatype Bson =
    | Double(float: Float)
    | String(text: string)
    | Boolean(flag: bool)
    | Null
    | Int32(i32: I32)
    | Int64(i64: I64)
    | ObjectId(oid: OidBytes)
    | DateTime(millis: I64)
    | Timestamp(time: U32, increment: U32)
    | Decimal128(decimal: int)
    | Binary(subtype: Byte, bytes: seq<Byte>)
    | RegularExpression(pattern: string, options: string)
    | JavaScriptCode(code: string)
    | Symbol(symbol: string)
    | Array(items: seq<Bson>)
    | Document(elements: seq<Element>)
    | Other(display: string)

  datatype Element = Element(key: string, value: Bson)

  datatype Codec = Codec(
    hexEncode: seq<Byte> -> string,
    hexDecode: string -> Option<seq<Byte>>,
    dateEncode: I64 -> Option<string>,
    dateDisplay: I64 -> string,
    dateDecode: string -> Option<I64>,
    decimalEncode: int -> string,
    decimalDecode: string -> Option<int>,
    base64Encode: seq<Byte> -> string,
    base64Decode: string -> Option<seq<Byte>>,
    subtypeEncode: Byte -> string,
    subtypeDecode: string -> Option<Byte>,
    unsignedToFloat: JsonInt -> int)

  /** Decoding undoes encoding; the fallback text of a date outside RFC 3339 is not an RFC 3339 date. */
  ghost predicate Lawful(c: Codec) {
    && (forall b: seq<Byte> :: c.hexDecode(c.hexEncode(b)) == Some(b))
    && (forall ms: I64 :: c.dateEncode(ms).Some? ==> c.dateDecode(c.dateEncode(ms).value) == Some(ms))
    && (forall ms: I64 :: c.dateEncode(ms).None? ==> c.dateDecode(c.dateDisplay(ms)).None?)
    && (forall d :: c.decimalDecode(c.decimalEncode(d)) == Some(d))
    && (forall b: seq<Byte> :: c.base64Decode(c.base64Encode(b)) == Some(b))
    && (forall b: Byte :: c.subtypeDecode(c.subtypeEncode(b)) == Some(b))
  }

  // ── JSON to BSON ──

  function Get(members: seq<Member>, key: string): Option<Json> {
    if members == [] then None
    else if members[0].key == key then Some(members[0].value)
    else Get(members[1..], key)
  }

  /** `$binary` needs `base64` and `subType` texts that decode; other members are ignored. */
  function DecodeBinary(c: Codec, inner: seq<Member>): Option<Bson> {
    match (Get(inner, "base64"), Get(inner, "subType"))
    case (Some(JString(text)), Some(JString(sub))) => (
      match (c.base64Decode(text), c.subtypeDecode(sub))
      case (Some(bytes), Some(subtype)) => Some(Binary(subtype, bytes))
      case _ => None
    )
    case _ => None
  }

  /** A one-key object in extended JSON form; a malformed one is left to be a plain document. */
  function ExtendedJsonToBson(c: Codec, members: seq<Member>): Option<Bson> {
    if |members| != 1 then None
    else
      match members[0]
      case Member("$oid", JString(hex)) => (
        match c.hexDecode(hex)
        case Some(bytes) => if |bytes| == 12 then Some(ObjectId(bytes)) else None
        case None => None
      )
      case Member("$date", JString(date)) => (
        match c.dateDecode(date)
        case Some(ms) => Some(DateTime(ms))
        case None => None
      )
      case Member("$date", JInt(i)) => if i <= I64_MAX then Some(DateTime(i)) else None
      case Member("$numberDecimal", JString(text)) => (
        match c.decimalDecode(text)
        case Some(d) => Some(Decimal128(d))
        case None => None
      )
      case Member("$binary", JObject(inner)) => DecodeBinary(c, inner)
      case _ => None
  }

  function JsonToBson(c: Codec, v: Json): Bson
    decreases v, 0
  {
    match v
    case JNull => Null
    case JBool(flag) => Boolean(flag)
    case JInt(i) => if i <= I64_MAX then Int64(i) else Double(Finite(c.unsignedToFloat(i)))
    case JFloat(bits) => Double(Finite(bits))
    case JString(text) => String(text)
    case JArray(items) => Array(ItemsToBson(c, items))
    case JObject(members) => Document(MembersToDoc(c, members))
  }

  function ItemsToBson(c: Codec, items: seq<Json>): (bs: seq<Bson>)
    ensures |bs| == |items|
    decreases items, 0
  {
    if items == [] then [] else [JsonToBson(c, items[0])] + ItemsToBson(c, items[1..])
  }

  /** A member's value may be in extended form; an array item never is. */
  function MemberToBson(c: Codec, v: Json): Bson
    decreases v, 1
  {
    if v.JObject? && ExtendedJsonToBson(c, v.members).Some? then ExtendedJsonToBson(c, v.members).value
    else JsonToBson(c, v)
  }

  function MembersToDoc(c: Codec, members: seq<Member>): (es: seq<Element>)
    ensures |es| == |members|
    decreases members, 0
  {
    if members == [] then []
    else
      assert members[0] in members;
      [Element(members[0].key, MemberToBson(c, members[0].value))] + MembersToDoc(c, members[1..])
  }

  // ── BSON to JSON ──

  function DateText(c: Codec, ms: I64): string {
    match c.dateEncode(ms)
    case Some(text) => text
    case None => c.dateDisplay(ms)
  }

  function BsonToJson(c: Codec, b: Bson): Json
    decreases b, 0
  {
    match b
    case Double(Finite(bits)) => JFloat(bits)
    case Double(NonFinite(_)) => JNull
    case String(text) => JString(text)
    case Boolean(flag) => JBool(flag)
    case Null => JNull
    case Int32(i) => JInt(i)
    case Int64(i) => JInt(i)
    case ObjectId(oid) => JObject([Member("$oid", JString(c.hexEncode(oid)))])
    case DateTime(ms) => JObject([Member("$date", JString(DateText(c, ms)))])
    case Timestamp(t, i) => JObject([Member("$timestamp", JObject([Member("t", JInt(t)), Member("i", JInt(i))]))])
    case Decimal128(d) => JObject([Member("$numberDecimal", JString(c.decimalEncode(d)))])
    case Binary(subtype, bytes) =>
      JObject([Member("$binary", JObject([Member("base64", JString(c.base64Encode(bytes))),
                                          Member("subType", JString(c.subtypeEncode(subtype)))]))])
    case RegularExpression(pattern, options) => JObject([Member("$regex", JString(pattern)), Member("$options", JString(options))])
    case JavaScriptCode(code) => JObject([Member("$code", JString(code))])
    case Symbol(s) => JString(s)
    case Array(items) => JArray(ItemsToJson(c, items))
    case Document(elements) => JObject(DocToMembers(c, elements))
    case Other(display) => JString(display)
  }

  function ItemsToJson(c: Codec, items: seq<Bson>): (vs: seq<Json>)
    ensures |vs| == |items|
    decreases items, 0
  {
    if items == [] then [] else [BsonToJson(c, items[0])] + ItemsToJson(c, items[1..])
  }

  function DocToMembers(c: Codec, elements: seq<Element>): (ms: seq<Member>)
    ensures |ms| == |elements|
    decreases elements, 0
  {
    if elements == [] then []
    else [Member(elements[0].key, BsonToJson(c, elements[0].value))] + DocToMembers(c, elements[1..])
  }

  // ── What is read and printed, value by value ──

  predicate HasMember(members: seq<Member>, key: string, v: Json) {
    exists i :: 0 <= i < |members| && members[i] == Member(key, v)
  }

  predicate DistinctKeys(members: seq<Member>) {
    forall i, j :: 0 <= i < j < |members| ==> members[i].key != members[j].key
  }

  /** Looking a key up finds its member, wherever it stands. */
  lemma {:induction false} GetFinds(members: seq<Member>, key: string, v: Json)
    requires DistinctKeys(members)
    ensures Get(members, key) == Some(v) <==> HasMember(members, key, v)
  {
    if members != [] {
      var rest := members[1..];
      assert forall i :: 0 <= i < |rest| ==> rest[i] == members[i + 1];
      GetFinds(rest, key, v);
      if HasMember(rest, key, v) {
        var i :| 0 <= i < |rest| && rest[i] == Member(key, v);
        assert members[i + 1] == Member(key, v);
      }
      if HasMember(members, key, v) && members[0] != Member(key, v) {
        var i :| 0 <= i < |members| && members[i] == Member(key, v);
        assert rest[i - 1] == Member(key, v);
      }
    }
  }

  /** An integer is a date of that many milliseconds if it fits `i64`; a larger one stays in its document. */
  lemma NumericDateIsRead(c: Codec, i: JsonInt)
    ensures i <= I64_MAX ==> MemberToBson(c, JObject([Member("$date", JInt(i))])) == DateTime(i)
    ensures i > I64_MAX ==> MemberToBson(c, JObject([Member("$date", JInt(i))])).Document?
  {
  }

  /** Both spellings of a date are the same date. */
  lemma DateSpellingsAgree(c: Codec, ms: I64)
    requires Lawful(c) && c.dateEncode(ms).Some?
    ensures MemberToBson(c, JObject([Member("$date", JInt(ms))])) ==
            MemberToBson(c, JObject([Member("$date", JString(c.dateEncode(ms).value))])) == DateTime(ms)
  {
    NumericDateIsRead(c, ms);
    ScalarIsRead(c, DateTime(ms));
  }

  /** A text in extended form is read as exactly the value it decodes to, canonical or not. */
  lemma TextScalarsAreRead(c: Codec, text: string, oid: OidBytes, ms: I64, d: int)
    ensures MemberToBson(c, JObject([Member("$oid", JString(text))])) == ObjectId(oid) <==> c.hexDecode(text).Some? && c.hexDecode(text).value == oid
    ensures MemberToBson(c, JObject([Member("$date", JString(text))])) == DateTime(ms) <==> c.dateDecode(text) == Some(ms)
    ensures MemberToBson(c, JObject([Member("$numberDecimal", JString(text))])) == Decimal128(d) <==> c.decimalDecode(text) == Some(d)
  {
  }

  /** `$binary` is read from its two texts, in any order and among any other members. */
  lemma BinaryIsRead(c: Codec, inner: seq<Member>, subtype: Byte, bytes: seq<Byte>)
    requires DistinctKeys(inner)
    ensures MemberToBson(c, JObject([Member("$binary", JObject(inner))])) == Binary(subtype, bytes) <==>
            exists text, sub :: HasMember(inner, "base64", JString(text)) && HasMember(inner, "subType", JString(sub)) &&
                                c.base64Decode(text) == Some(bytes) && c.subtypeDecode(sub) == Some(subtype)
  {
    hide HasMember, Get;
    forall text ensures Get(inner, "base64") == Some(JString(text)) <==> HasMember(inner, "base64", JString(text)) {
      GetFinds(inner, "base64", JString(text));
    }
    forall sub ensures Get(inner, "subType") == Some(JString(sub)) <==> HasMember(inner, "subType", JString(sub)) {
      GetFinds(inner, "subType", JString(sub));
    }
    BinaryMember(c, inner);
  }

  lemma BinaryMember(c: Codec, inner: seq<Member>)
    ensures var b := MemberToBson(c, JObject([Member("$binary", JObject(inner))]));
            if DecodeBinary(c, inner).Some? then b == DecodeBinary(c, inner).value else b.Document?
  {
    hide DecodeBinary, MembersToDoc;
    var members := [Member("$binary", JObject(inner))];
    assert ExtendedJsonToBson(c, members) == DecodeBinary(c, inner);
  }

  /** Values that both sides have stay what they are, in both directions. */
  lemma SharedValuesStand(c: Codec, flag: bool, text: string, i: I64, bits: int)
    ensures JsonToBson(c, JNull) == Null && BsonToJson(c, Null) == JNull
    ensures JsonToBson(c, JBool(flag)) == Boolean(flag) && BsonToJson(c, Boolean(flag)) == JBool(flag)
    ensures JsonToBson(c, JString(text)) == String(text) && BsonToJson(c, String(text)) == JString(text)
    ensures JsonToBson(c, JInt(i)) == Int64(i) && BsonToJson(c, Int64(i)) == JInt(i)
    ensures JsonToBson(c, JFloat(bits)) == Double(Finite(bits)) && BsonToJson(c, Double(Finite(bits))) == JFloat(bits)
  {
  }

  /** Array items and document members keep their places, their keys and their own readings. */
  lemma {:induction false} ItemsStayInPlace(c: Codec, items: seq<Json>, k: nat)
    requires k < |items|
    ensures ItemsToBson(c, items)[k] == JsonToBson(c, items[k])
  {
    hide JsonToBson;
    if k > 0 {
      ItemsStayInPlace(c, items[1..], k - 1);
    }
  }

  lemma {:induction false} MembersStayInPlace(c: Codec, members: seq<Member>, k: nat)
    requires k < |members|
    ensures MembersToDoc(c, members)[k] == Element(members[k].key, MemberToBson(c, members[k].value))
  {
    hide MemberToBson;
    if k > 0 {
      MembersStayInPlace(c, members[1..], k - 1);
    }
  }

  /** Texts of scalars are those of the codec. */
  lemma ScalarsPrintTheirText(c: Codec, oid: OidBytes, d: int, subtype: Byte, bytes: seq<Byte>, ms: I64)
    ensures BsonToJson(c, ObjectId(oid)) == JObject([Member("$oid", JString(c.hexEncode(oid)))])
    ensures BsonToJson(c, Decimal128(d)) == JObject([Member("$numberDecimal", JString(c.decimalEncode(d)))])
    ensures c.dateEncode(ms).Some? ==> BsonToJson(c, DateTime(ms)) == JObject([Member("$date", JString(c.dateEncode(ms).value))])
    ensures BsonToJson(c, Binary(subtype, bytes)) ==
            JObject([Member("$binary", JObject([Member("base64", JString(c.base64Encode(bytes))), Member("subType", JString(c.subtypeEncode(subtype)))]))])
  {
  }

  /** An integer above `i64` becomes the float it converts to; any other number is kept. */
  lemma NumbersAreRead(c: Codec, i: JsonInt, bits: int)
    ensures JsonToBson(c, JInt(i)) == if i < 0x8000_0000_0000_0000 then Int64(i) else Double(Finite(c.unsignedToFloat(i)))
    ensures JsonToBson(c, JFloat(bits)) == Double(Finite(bits))
  {
  }

  /** The values without a form of their own print like these others. */
  lemma ExoticPrintsAs(c: Codec, n: I32, a: string, b: string, bits: int, ms: I64)
    ensures BsonToJson(c, Int32(n)) == BsonToJson(c, Int64(n))
    ensures BsonToJson(c, Symbol(a)) == BsonToJson(c, Other(a)) == BsonToJson(c, String(a))
    ensures BsonToJson(c, Double(NonFinite(bits))) == BsonToJson(c, Null)
    ensures BsonToJson(c, JavaScriptCode(a)) == BsonToJson(c, Document([Element("$code", String(a))]))
    ensures BsonToJson(c, RegularExpression(a, b)) == BsonToJson(c, Document([Element("$regex", String(a)), Element("$options", String(b))]))
    ensures c.dateEncode(ms).None? ==> BsonToJson(c, DateTime(ms)) == BsonToJson(c, Document([Element("$date", String(c.dateDisplay(ms)))]))
  {
    hide DocToMembers;
    OneElement(c, "$code", String(a));
    TwoElements(c, "$regex", String(a), "$options", String(b));
    OneElement(c, "$date", String(c.dateDisplay(ms)));
  }

  lemma TimestampPrintsAs(c: Codec, t: U32, i: U32)
    ensures BsonToJson(c, Timestamp(t, i)) ==
            BsonToJson(c, Document([Element("$timestamp", Document([Element("t", Int64(t)), Element("i", Int64(i))]))]))
  {
    hide DocToMembers;
    var inner := Document([Element("t", Int64(t)), Element("i", Int64(i))]);
    TwoElements(c, "t", Int64(t), "i", Int64(i));
    OneElement(c, "$timestamp", inner);
    assert BsonToJson(c, inner) == JObject([Member("t", JInt(t)), Member("i", JInt(i))]);
  }

  lemma OneElement(c: Codec, key: string, value: Bson)
    ensures DocToMembers(c, [Element(key, value)]) == [Member(key, BsonToJson(c, value))]
  {
    hide BsonToJson;
    assert [Element(key, value)][1..] == [];
  }

  lemma TwoElements(c: Codec, key1: string, value1: Bson, key2: string, value2: Bson)
    ensures DocToMembers(c, [Element(key1, value1), Element(key2, value2)]) ==
            [Member(key1, BsonToJson(c, value1)), Member(key2, BsonToJson(c, value2))]
  {
    hide BsonToJson;
    assert [Element(key1, value1), Element(key2, value2)][1..] == [Element(key2, value2)];
    OneElement(c, key2, value2);
  }

  // ── JSON to BSON to JSON ──

  /** Exactly `base64` and `subType`, in this order, each in its printed form. */
  predicate CanonicalBinary(c: Codec, inner: seq<Member>) {
    && |inner| == 2 && inner[0].key == "base64" && inner[1].key == "subType" && inner[0].value.JString? && inner[1].value.JString?
    && var text, sub := inner[0].value.text, inner[1].value.text;
    && c.base64Decode(text).Some? && c.base64Encode(c.base64Decode(text).value) == text
    && c.subtypeDecode(sub).Some? && c.subtypeEncode(c.subtypeDecode(sub).value) == sub
  }

  /** The object is written exactly as the printer would write the scalar it stands for. */
  predicate CanonicalScalar(c: Codec, m: Member) {
    match m
    case Member("$oid", JString(hex)) => c.hexDecode(hex).Some? && c.hexEncode(c.hexDecode(hex).value) == hex
    case Member("$date", JString(date)) => c.dateDecode(date).Some? && DateText(c, c.dateDecode(date).value) == date
    case Member("$numberDecimal", JString(text)) => c.decimalDecode(text).Some? && c.decimalEncode(c.decimalDecode(text).value) == text
    case Member("$binary", JObject(inner)) => CanonicalBinary(c, inner)
    case _ => false
  }

  /** Integers fit `i64`, and each extended scalar a member holds is in its printed form. */
  predicate Canonical(c: Codec, v: Json)
    decreases v, 0
  {
    match v
    case JInt(i) => i <= I64_MAX
    case JArray(items) => forall k :: 0 <= k < |items| ==> Canonical(c, items[k])
    case JObject(members) => forall k :: 0 <= k < |members| ==> CanonicalMember(c, members[k].value)
    case _ => true
  }

  predicate CanonicalMember(c: Codec, v: Json)
    decreases v, 1
  {
    if v.JObject? && ExtendedJsonToBson(c, v.members).Some? then CanonicalScalar(c, v.members[0])
    else Canonical(c, v)
  }

  /** An extended scalar is printed back as it was written exactly when it was in printed form. */
  lemma ScalarRoundTrip(c: Codec, members: seq<Member>)
    requires ExtendedJsonToBson(c, members).Some?
    ensures BsonToJson(c, ExtendedJsonToBson(c, members).value) == JObject(members) <==> CanonicalScalar(c, members[0])
  {
    var m := members[0];
    var b := ExtendedJsonToBson(c, members).value;
    var printed := BsonToJson(c, b);
    assert members == [m];
    assert printed.JObject? && |printed.members| == 1 && printed.members[0].key == m.key;
    assert printed == JObject(members) <==> printed.members[0].value == m.value;
    if m.key == "$binary" {
      BinaryRoundTrip(c, m.value.members);
    }
  }

  lemma BinaryRoundTrip(c: Codec, inner: seq<Member>)
    requires DecodeBinary(c, inner).Some?
    ensures var b := DecodeBinary(c, inner).value;
            b.Binary? &&
            (inner == [Member("base64", JString(c.base64Encode(b.bytes))), Member("subType", JString(c.subtypeEncode(b.subtype)))] <==>
             CanonicalBinary(c, inner))
  {
    if |inner| == 2 && inner[0].key == "base64" && inner[1].key == "subType" {
      assert inner[1..][0] == inner[1];
      assert inner == [inner[0], inner[1]];
      assert Get(inner, "base64") == Some(inner[0].value);
      assert Get(inner, "subType") == Get(inner[1..], "subType") == Some(inner[1].value);
    }
  }

  /** JSON to BSON to JSON is the identity exactly on canonical values; keys keep their order at every depth. */
  lemma {:induction false} JsonRoundTrip(c: Codec, v: Json)
    ensures BsonToJson(c, JsonToBson(c, v)) == v <==> Canonical(c, v)
    decreases v, 0
  {
    hide ExtendedJsonToBson, ItemsToBson, MembersToDoc, ItemsToJson, DocToMembers, MemberToBson, CanonicalMember;
    match v
    case JArray(items) => ItemsRoundTrip(c, items);
    case JObject(members) => MembersRoundTrip(c, members);
    case _ =>
  }

  lemma {:induction false} MemberRoundTrip(c: Codec, v: Json)
    ensures BsonToJson(c, MemberToBson(c, v)) == v <==> CanonicalMember(c, v)
    decreases v, 1
  {
    if v.JObject? && ExtendedJsonToBson(c, v.members).Some? {
      ScalarRoundTrip(c, v.members);
    } else {
      JsonRoundTrip(c, v);
    }
  }

  lemma {:induction false} ItemsRoundTrip(c: Codec, items: seq<Json>)
    ensures ItemsToJson(c, ItemsToBson(c, items)) == items <==> forall k :: 0 <= k < |items| ==> Canonical(c, items[k])
    decreases items, 0
  {
    if items != [] {
      var bs := ItemsToBson(c, items);
      assert bs[0] == JsonToBson(c, items[0]) && bs[1..] == ItemsToBson(c, items[1..]);
      JsonRoundTrip(c, items[0]);
      ItemsRoundTrip(c, items[1..]);
      assert items == [items[0]] + items[1..];
    }
  }

  lemma {:induction false} MembersRoundTrip(c: Codec, members: seq<Member>)
    ensures DocToMembers(c, MembersToDoc(c, members)) == members <==>
            forall k :: 0 <= k < |members| ==> CanonicalMember(c, members[k].value)
    decreases members, 0
  {
    if members != [] {
      var es := MembersToDoc(c, members);
      assert es[0] == Element(members[0].key, MemberToBson(c, members[0].value)) && es[1..] == MembersToDoc(c, members[1..]);
      assert members[0] in members;
      MemberRoundTrip(c, members[0].value);
      MembersRoundTrip(c, members[1..]);
      assert members == [members[0]] + members[1..];
    }
  }

  // ── BSON to JSON to BSON ──

  /** A plain document that reads back as an extended scalar. */
  predicate Mimics(c: Codec, elements: seq<Element>) {
    |elements| == 1 &&
    match elements[0]
    case Element("$oid", String(hex)) => c.hexDecode(hex).Some? && |c.hexDecode(hex).value| == 12
    case Element("$date", String(date)) => c.dateDecode(date).Some?
    case Element("$date", Int64(_)) => true
    case Element("$numberDecimal", String(text)) => c.decimalDecode(text).Some?
    case Element("$binary", Document(inner)) => MimicsBinary(c, inner)
    case _ => false
  }

  predicate MimicsBinary(c: Codec, inner: seq<Element>) {
    match (Find(inner, "base64"), Find(inner, "subType"))
    case (Some(String(text)), Some(String(sub))) => c.base64Decode(text).Some? && c.subtypeDecode(sub).Some?
    case _ => false
  }

  function Find(elements: seq<Element>, key: string): Option<Bson> {
    if elements == [] then None
    else if elements[0].key == key then Some(elements[0].value)
    else Find(elements[1..], key)
  }

  /** Values with a form of their own in JSON, in a place where that form is read back. */
  predicate Faithful(c: Codec, b: Bson)
    decreases b, 0
  {
    match b
    case Double(float) => float.Finite?
    case String(_) => true
    case Boolean(_) => true
    case Null => true
    case Int64(_) => true
    case ObjectId(_) => true
    case DateTime(ms) => c.dateEncode(ms).Some?
    case Decimal128(_) => true
    case Binary(_, _) => true
    case Array(items) => forall k :: 0 <= k < |items| ==> FaithfulItem(c, items[k])
    case Document(elements) => !Mimics(c, elements) && forall k :: 0 <= k < |elements| ==> Faithful(c, elements[k].value)
    case _ => false
  }

  /** In an array no object is read as an extended scalar, so the scalars are lost and nothing mimics one. */
  predicate FaithfulItem(c: Codec, b: Bson)
    decreases b, 1
  {
    match b
    case Document(elements) => forall k :: 0 <= k < |elements| ==> Faithful(c, elements[k].value)
    case _ => !b.ObjectId? && !b.DateTime? && !b.Decimal128? && !b.Binary? && Faithful(c, b)
  }

  lemma {:induction false} FindInJson(c: Codec, elements: seq<Element>, key: string)
    ensures Get(DocToMembers(c, elements), key) ==
            if Find(elements, key).Some? then Some(BsonToJson(c, Find(elements, key).value)) else None
  {
    if elements != [] {
      assert DocToMembers(c, elements)[1..] == DocToMembers(c, elements[1..]);
      FindInJson(c, elements[1..], key);
    }
  }

  lemma {:induction false} FoundIsFaithful(c: Codec, elements: seq<Element>, key: string)
    requires forall k :: 0 <= k < |elements| ==> Faithful(c, elements[k].value)
    ensures Find(elements, key).Some? ==> Faithful(c, Find(elements, key).value)
  {
    if elements != [] {
      assert forall k :: 0 <= k < |elements[1..]| ==> elements[1..][k] == elements[k + 1];
      FoundIsFaithful(c, elements[1..], key);
    }
  }

  lemma TextIsString(c: Codec, b: Bson)
    requires Faithful(c, b)
    ensures BsonToJson(c, b).JString? <==> b.String?
    ensures b.String? ==> BsonToJson(c, b).text == b.text
  {
  }

  lemma BinaryMimic(c: Codec, inner: seq<Element>)
    requires forall k :: 0 <= k < |inner| ==> Faithful(c, inner[k].value)
    ensures MimicsBinary(c, inner) <==> DecodeBinary(c, DocToMembers(c, inner)).Some?
  {
    hide Faithful, BsonToJson;
    FindInJson(c, inner, "base64");
    FindInJson(c, inner, "subType");
    FoundIsFaithful(c, inner, "base64");
    FoundIsFaithful(c, inner, "subType");
    if Find(inner, "base64").Some? {
      TextIsString(c, Find(inner, "base64").value);
    }
    if Find(inner, "subType").Some? {
      TextIsString(c, Find(inner, "subType").value);
    }
  }

  lemma BinaryMimics(c: Codec, b: Bson)
    requires Faithful(c, b) && BsonToJson(c, b).JObject?
    ensures DecodeBinary(c, BsonToJson(c, b).members).Some? <==> b.Document? && MimicsBinary(c, b.elements)
  {
    if b.Document? {
      BinaryMimic(c, b.elements);
    } else {
      var inner := BsonToJson(c, b).members;
      assert inner[0].key != "base64" && inner[1..] == [];
      assert Get(inner, "base64") == Get(inner[1..], "base64") == None;
    }
  }

  /** A document of faithful values is read as a scalar exactly when it mimics one. */
  lemma MimicIsRead(c: Codec, elements: seq<Element>)
    requires forall k :: 0 <= k < |elements| ==> Faithful(c, elements[k].value)
    ensures Mimics(c, elements) <==> ExtendedJsonToBson(c, DocToMembers(c, elements)).Some?
  {
    if |elements| == 1 {
      var e := elements[0];
      assert DocToMembers(c, elements)[0] == Member(e.key, BsonToJson(c, e.value));
      if e.key == "$binary" && BsonToJson(c, e.value).JObject? {
        BinaryMimics(c, e.value);
      }
    }
  }

  /** The scalars with an extended form, read where that form is looked for. */
  lemma ScalarIsRead(c: Codec, b: Bson)
    requires Lawful(c) && (b.ObjectId? || b.DateTime? || b.Decimal128? || b.Binary?)
    ensures BsonToJson(c, b).JObject?
    ensures ExtendedJsonToBson(c, BsonToJson(c, b).members) ==
            if b.DateTime? && c.dateEncode(b.millis).None? then None else Some(b)
  {
    if b.Binary? {
      var inner := [Member("base64", JString(c.base64Encode(b.bytes))), Member("subType", JString(c.subtypeEncode(b.subtype)))];
      assert inner[1..][0].key == "subType";
      assert Get(inner, "base64") == Some(inner[0].value);
      assert Get(inner, "subType") == Get(inner[1..], "subType") == Some(inner[1].value);
    }
  }

  /** The exotic values print as objects or texts that are read as something else. */
  lemma ExoticIsLost(c: Codec, b: Bson)
    requires b.Timestamp? || b.RegularExpression? || b.JavaScriptCode? || b.Symbol? || b.Other? || b.Int32? || (b.Double? && !b.float.Finite?)
    ensures MemberToBson(c, BsonToJson(c, b)) != b && JsonToBson(c, BsonToJson(c, b)) != b
  {
  }

  /** BSON to JSON to BSON, for a value in a document, is the identity exactly on faithful values. */
  lemma {:induction false} BsonRoundTrip(c: Codec, b: Bson)
    requires Lawful(c)
    ensures MemberToBson(c, BsonToJson(c, b)) == b <==> Faithful(c, b)
    decreases b, 0
  {
    hide ExtendedJsonToBson, Lawful, Mimics;
    match b
    case Array(items) => ArrayRoundTrip(c, items);
    case Document(elements) =>
      DocRoundTrip(c, elements);
      if forall k :: 0 <= k < |elements| ==> Faithful(c, elements[k].value) {
        MimicIsRead(c, elements);
      }
      ExtendedIsNoDocument(c, DocToMembers(c, elements));
    case _ => LeafRoundTrip(c, b);
  }

  lemma LeafRoundTrip(c: Codec, b: Bson)
    requires Lawful(c) && !b.Array? && !b.Document?
    ensures MemberToBson(c, BsonToJson(c, b)) == b <==> Faithful(c, b)
    ensures JsonToBson(c, BsonToJson(c, b)) == b <==> FaithfulItem(c, b)
  {
    hide ExtendedJsonToBson, Lawful, Mimics, ItemsToBson, MembersToDoc;
    if b.ObjectId? || b.DateTime? || b.Decimal128? || b.Binary? {
      ScalarIsRead(c, b);
    } else if !Faithful(c, b) {
      ExoticIsLost(c, b);
    }
  }

  lemma ExtendedIsNoDocument(c: Codec, members: seq<Member>)
    ensures ExtendedJsonToBson(c, members).Some? ==> !ExtendedJsonToBson(c, members).value.Document?
  {
  }

  lemma {:induction false} ItemRoundTrip(c: Codec, b: Bson)
    requires Lawful(c)
    ensures JsonToBson(c, BsonToJson(c, b)) == b <==> FaithfulItem(c, b)
    decreases b, 0
  {
    hide ExtendedJsonToBson, Lawful, Mimics;
    match b
    case Array(items) => ArrayRoundTrip(c, items);
    case Document(elements) => DocRoundTrip(c, elements);
    case _ => LeafRoundTrip(c, b);
  }

  lemma {:induction false} ArrayRoundTrip(c: Codec, items: seq<Bson>)
    requires Lawful(c)
    ensures ItemsToBson(c, ItemsToJson(c, items)) == items <==> forall k :: 0 <= k < |items| ==> FaithfulItem(c, items[k])
    decreases items, 0
  {
    hide Lawful, BsonToJson, JsonToBson, FaithfulItem;
    if items != [] {
      var vs := ItemsToJson(c, items);
      assert vs[0] == BsonToJson(c, items[0]) && vs[1..] == ItemsToJson(c, items[1..]);
      ItemRoundTrip(c, items[0]);
      ArrayRoundTrip(c, items[1..]);
      assert items == [items[0]] + items[1..];
    }
  }

  lemma {:induction false} DocRoundTrip(c: Codec, elements: seq<Element>)
    requires Lawful(c)
    ensures MembersToDoc(c, DocToMembers(c, elements)) == elements <==>
            forall k :: 0 <= k < |elements| ==> Faithful(c, elements[k].value)
    decreases elements, 0
  {
    hide Lawful, BsonToJson, MemberToBson, Faithful;
    if elements != [] {
      var ms := DocToMembers(c, elements);
      assert ms[0] == Member(elements[0].key, BsonToJson(c, elements[0].value)) && ms[1..] == DocToMembers(c, elements[1..]);
      assert elements[0] in elements;
      BsonRoundTrip(c, elements[0].value);
      DocRoundTrip(c, elements[1..]);
      assert elements == [elements[0]] + elements[1..];
    }
  }

  // ── Commands and result documents ──

  function JsonToCommandDoc(c: Codec, v: Json): Result<seq<Element>, string> {
    match v
    case JObject(members) => Ok(MembersToDoc(c, members))
    case _ => Err("command must be a JSON object")
  }

  /** A command sent and printed back is the same JSON exactly when its members are canonical. */
  lemma CommandRoundTrip(c: Codec, v: Json)
    ensures JsonToCommandDoc(c, v).Ok? <==> v.JObject?
    ensures v.JObject? ==>
              (DocToMembers(c, JsonToCommandDoc(c, v).value) == v.members <==>
               forall k :: 0 <= k < |v.members| ==> CanonicalMember(c, v.members[k].value))
  {
    if v.JObject? {
      MembersRoundTrip(c, v.members);
    }
  }

  /** A stored document printed and sent back is the same document exactly when its values are faithful. */
  lemma DocumentRoundTrip(c: Codec, elements: seq<Element>)
    requires Lawful(c)
    ensures JsonToCommandDoc(c, JObject(DocToMembers(c, elements))) == Ok(elements) <==>
            forall k :: 0 <= k < |elements| ==> Faithful(c, elements[k].value)
  {
    hide Faithful;
    DocRoundTrip(c, elements);
  }

  // ── Building a document ──

  /** A document keeps one entry for a key, at the place where it was first put. */
  class DocumentBuilder {
    var elements: seq<Element>

    constructor ()
      ensures elements == []
    {
      elements := [];
    }

    method Insert(key: string, value: Bson)
      modifies this
      ensures (forall k :: 0 <= k < |old(elements)| ==> old(elements)[k].key != key) ==>
                elements == old(elements) + [Element(key, value)]
      ensures (exists k :: 0 <= k < |old(elements)| && old(elements)[k].key == key) ==>
                exists k :: 0 <= k < |old(elements)| && old(elements)[k].key == key && elements == old(elements)[k := Element(key, value)]
    {
      var k := 0;
      while k < |elements| && elements[k].key != key
        invariant 0 <= k <= |elements|
        invariant forall i :: 0 <= i < k ==> elements[i].key != key
        invariant elements == old(elements)
      {
        k := k + 1;
      }
      elements := if k < |elements| then elements[k := Element(key, value)] else elements + [Element(key, value)];
    }
  }

  lemma {:induction false} NextElement(c: Codec, members: seq<Member>, i: nat)
    requires i < |members|
    ensures MembersToDoc(c, members[..i + 1]) == MembersToDoc(c, members[..i]) + [Element(members[i].key, MemberToBson(c, members[i].value))]
  {
    hide MemberToBson;
    if i == 0 {
      assert members[..1][1..] == [];
    } else {
      assert members[..i + 1][1..] == members[1..][..i] && members[..i][1..] == members[1..][..i - 1];
      NextElement(c, members[1..], i - 1);
    }
  }

  lemma {:induction false} KeysKept(c: Codec, members: seq<Member>, k: nat)
    requires k < |members|
    ensures MembersToDoc(c, members)[k].key == members[k].key
  {
    hide MemberToBson;
    if k > 0 {
      KeysKept(c, members[1..], k - 1);
    }
  }

  method JsonMapToDoc(c: Codec, members: seq<Member>) returns (doc: seq<Element>)
    requires DistinctKeys(members)
    ensures doc == MembersToDoc(c, members)
  {
    hide MemberToBson, ExtendedJsonToBson, JsonToBson;
    var builder := new DocumentBuilder();
    for i := 0 to |members|
      invariant builder.elements == MembersToDoc(c, members[..i])
    {
      var m := members[i];
      var value := ReadMember(c, m.value);
      NextElement(c, members, i);
      forall k | 0 <= k < i ensures builder.elements[k].key != m.key {
        KeysKept(c, members[..i], k);
      }
      builder.Insert(m.key, value);
    }
    assert members[..|members|] == members;
    doc := builder.elements;
  }

  /** A member's value: the extended form first, for objects only. */
  method ReadMember(c: Codec, v: Json) returns (b: Bson)
    ensures b == MemberToBson(c, v)
  {
    hide ExtendedJsonToBson, JsonToBson;
    if v.JObject? {
      var extended := ExtendedJsonToBson(c, v.members);
      b := if extended.Some? then extended.value else JsonToBson(c, v);
    } else {
      b := JsonToBson(c, v);
    }
  }
}

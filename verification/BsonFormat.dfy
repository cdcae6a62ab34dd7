/** The BSON format as a function: what a tree of elements looks like in bytes. */
module BsonFormat {
  import opened Bytes
  import opened Utf8

  /** A NUL-terminated C string, without its NUL. */
  type CString = s: bytes | 0 !in s witness []

  type Int32 = i: int | -0x8000_0000 <= i < 0x8000_0000
  type Int64 = i: int | -0x8000_0000_0000_0000 <= i < 0x8000_0000_0000_0000

  type Raw8 = s: bytes | |s| == 8 witness [0, 0, 0, 0, 0, 0, 0, 0]
  type Raw12 = s: bytes | |s| == 12 witness [0, 0, 0, 0, 0, 0, 0, 0, 0, 0, 0, 0]

  /** A finished document as bytes: it starts with its own length. */
  type Doc = s: bytes | 5 <= |s| && FromLe(s[..4]) == |s| witness SmallestDoc()

  function SmallestDoc(): (s: bytes)
    ensures |s| == 5 && FromLe(s[..4]) == 5
  {
    assert [5, 0, 0, 0, 0][..4] == [5] + [0, 0, 0];
    assert FromLe([0, 0, 0]) == 0;
    [5, 0, 0, 0, 0]
  }

  datatype Element = Element(key: CString, value: Value)

  /** `Double` keeps the eight bytes as they are. Binary data of the old subtype carries its
      length twice and is written and read through that extra length. Code with scope takes
      its scope as a document that has been finished before. */
  datatype Value =
    | Double(raw: Raw8)
    | Str(text: bytes)
    | Object(fields: seq<Element>)
    | Array(items: seq<Element>)
    | Binary(subtype: byte, data: bytes)
    | Undefined
    | Oid(id: Raw12)
    | Bool(b: bool)
    | Date(millis: Int64)
    | Null
    | Regex(pattern: CString, opts: CString)
    | Code(text: bytes)
    | Symbol(text: bytes)
    | ScopedCode(code: bytes, scope: Doc)
    | Int(i: Int32)
    | Timestamp(increment: Int32, time: Int32)
    | Long(l: Int64)
    | MaxKey
    | MinKey

  const BINARY_OLD: byte := 2

  /** bson_type */
  function TypeCode(v: Value): byte {
    match v
    case Double(_) => 1
    case Str(_) => 2
    case Object(_) => 3
    case Array(_) => 4
    case Binary(_, _) => 5
    case Undefined => 6
    case Oid(_) => 7
    case Bool(_) => 8
    case Date(_) => 9
    case Null => 10
    case Regex(_, _) => 11
    case Code(_) => 13
    case Symbol(_) => 14
    case ScopedCode(_, _) => 15
    case Int(_) => 16
    case Timestamp(_, _) => 17
    case Long(_) => 18
    case MaxKey => 127
    case MinKey => 255
  }

  /** Two's complement, little endian. */
  function Le32(i: Int32): (s: bytes)
    ensures |s| == 4
  {
    ToLe(if i < 0 then i + 0x1_0000_0000 else i, 4)
  }

  function Le64(i: Int64): (s: bytes)
    ensures |s| == 8
  {
    ToLe(if i < 0 then i + 0x1_0000_0000_0000_0000 else i, 8)
  }

  function AsInt32(s: bytes): Int32
    requires |s| == 4
  {
    var u := FromLe(s);
    FromLe4(s);
    if u >= 0x8000_0000 then u - 0x1_0000_0000 else u
  }

  function AsInt64(s: bytes): Int64
    requires |s| == 8
  {
    var u := FromLe(s);
    FromLe8(s);
    if u >= 0x8000_0000_0000_0000 then u - 0x1_0000_0000_0000_0000 else u
  }

  lemma {:induction false} FromLeBound(s: bytes)
    ensures FromLe(s) < Pow256(|s|)
  {
    if s != [] {
      FromLeBound(s[1..]);
    }
  }

  lemma FromLe4(s: bytes)
    requires |s| == 4
    ensures FromLe(s) < 0x1_0000_0000
  {
    FromLeBound(s);
    Powers();
  }

  lemma FromLe8(s: bytes)
    requires |s| == 8
    ensures FromLe(s) < 0x1_0000_0000_0000_0000
  {
    FromLeBound(s);
    Powers();
  }

  lemma Powers()
    ensures Pow256(4) == 0x1_0000_0000 && Pow256(8) == 0x1_0000_0000_0000_0000
  {
    assert Pow256(2) == 0x1_0000;
    assert Pow256(4) == 0x1_0000_0000;
    assert Pow256(6) == 0x1_0000_0000_0000;
  }

  lemma Int32RoundTrip(i: Int32)
    ensures AsInt32(Le32(i)) == i
  {
    Powers();
    LeRoundTrip(if i < 0 then i + 0x1_0000_0000 else i, 4);
  }

  lemma Int64RoundTrip(i: Int64)
    ensures AsInt64(Le64(i)) == i
  {
    Powers();
    LeRoundTrip(if i < 0 then i + 0x1_0000_0000_0000_0000 else i, 8);
  }

  /** A length field; the format has no room for lengths of 2^31 and more. */
  function Length(n: nat): (s: bytes)
    ensures |s| == 4
  {
    ToLe(n, 4)
  }

  function BinaryBytes(subtype: byte, data: bytes): bytes {
    if subtype == BINARY_OLD then Length(|data| + 4) + [subtype] + Length(|data|) + data
    else Length(|data|) + [subtype] + data
  }

  function Payload(v: Value): bytes
    decreases v, 0
  {
    match v
    case Double(raw) => raw
    case Str(text) => Length(|text| + 1) + text + [0]
    case Object(fields) => Document(fields)
    case Array(items) => Document(items)
    case Binary(subtype, data) => BinaryBytes(subtype, data)
    case Undefined => []
    case Oid(id) => id
    case Bool(b) => [if b then 1 else 0]
    case Date(millis) => Le64(millis)
    case Null => []
    case Regex(pattern, opts) => pattern + [0] + opts + [0]
    case Code(text) => Length(|text| + 1) + text + [0]
    case Symbol(text) => Length(|text| + 1) + text + [0]
    case ScopedCode(code, scope) =>
      Length(4 + 4 + |code| + 1 + |scope|) + (Length(|code| + 1) + (code + ([0] + scope)))
    case Int(i) => Le32(i)
    case Timestamp(increment, time) => Le32(increment) + Le32(time)
    case Long(l) => Le64(l)
    case MaxKey => []
    case MinKey => []
  }

  function Head(v: Value, key: bytes): bytes { [TypeCode(v)] + key + [0] }

  function Elements(es: seq<Element>): (s: bytes)
    ensures es == [] ==> s == []
    decreases es, 0
  {
    if es == [] then [] else Head(es[0].value, es[0].key) + Payload(es[0].value) + Elements(es[1..])
  }

  function Document(es: seq<Element>): bytes
    decreases es, 1
  {
    Length(|Elements(es)| + 5) + Elements(es) + [0]
  }

  /** The bytes of one element, type by type, as the format has them */
  lemma Layout(k: CString, v: Value)
    ensures var e, head := Elements([Element(k, v)]), k + [0];
      && (v.Double? ==> e == [1] + head + v.raw)
      && (v.Str? ==> e == [2] + head + (ToLe(|v.text| + 1, 4) + v.text + [0]))
      && (v.Object? ==> e == [3] + head + (ToLe(|Elements(v.fields)| + 5, 4) + Elements(v.fields) + [0]))
      && (v.Array? ==> e == [4] + head + (ToLe(|Elements(v.items)| + 5, 4) + Elements(v.items) + [0]))
      && (v.Undefined? ==> e == [6] + head)
      && (v.Oid? ==> e == [7] + head + v.id)
      && (v.Bool? ==> e == [8] + head + [if v.b then 1 else 0])
      && (v.Date? && v.millis >= 0 ==> e == [9] + head + ToLe(v.millis, 8))
      && (v.Date? && v.millis < 0 ==> e == [9] + head + ToLe(v.millis + 0x1_0000_0000_0000_0000, 8))
      && (v.Null? ==> e == [10] + head)
      && (v.Regex? ==> e == [11] + head + (v.pattern + [0] + v.opts + [0]))
      && (v.Code? ==> e == [13] + head + (ToLe(|v.text| + 1, 4) + v.text + [0]))
      && (v.Symbol? ==> e == [14] + head + (ToLe(|v.text| + 1, 4) + v.text + [0]))
      && (v.Int? && v.i >= 0 ==> e == [16] + head + ToLe(v.i, 4))
      && (v.Int? && v.i < 0 ==> e == [16] + head + ToLe(v.i + 0x1_0000_0000, 4))
      && (v.Timestamp? && v.increment >= 0 && v.time >= 0 ==> e == [17] + head + (ToLe(v.increment, 4) + ToLe(v.time, 4)))
      && (v.Long? && v.l >= 0 ==> e == [18] + head + ToLe(v.l, 8))
      && (v.Long? && v.l < 0 ==> e == [18] + head + ToLe(v.l + 0x1_0000_0000_0000_0000, 8))
      && (v.MinKey? ==> e == [255] + head)
      && (v.MaxKey? ==> e == [127] + head)
  {
    hide ToLe;
    OneElement(k, v);
    assert Elements([Element(k, v)]) == [TypeCode(v)] + (k + [0]) + Payload(v);
  }

  /** Binary data carries its length once; that of the old subtype 2 twice. */
  lemma LayoutOfBinary(k: CString, v: Value)
    requires v.Binary?
    ensures Elements([Element(k, v)]) == Head(v, k) + Payload(v)
    ensures v.subtype == 2 ==>
              Head(v, k) + Payload(v) == [5] + k + [0] + (ToLe(|v.data| + 4, 4) + [2] + ToLe(|v.data|, 4) + v.data)
    ensures v.subtype != 2 ==>
              Head(v, k) + Payload(v) == [5] + k + [0] + (ToLe(|v.data|, 4) + [v.subtype] + v.data)
  {
    hide ToLe, Elements;
    OneElement(k, v);
  }

  lemma LayoutOfScopedCode(k: CString, code: bytes, scope: Doc)
    ensures Elements([Element(k, ScopedCode(code, scope))])
         == [15] + k + [0] + ToLe(|code| + |scope| + 9, 4) + ToLe(|code| + 1, 4) + code + [0] + scope
  {
    hide ToLe;
    OneElement(k, ScopedCode(code, scope));
  }

  lemma OneElement(k: CString, v: Value)
    ensures Elements([Element(k, v)]) == [TypeCode(v)] + k + [0] + Payload(v)
  {
    hide Payload;
    var es := [Element(k, v)];
    assert es[1..] == [];
    assert Elements(es) == Head(v, k) + Payload(v) + [];
  }

  /** The examples of the BSON specification: a document that says hello to the world */
  lemma HelloWorld()
    ensures Document([Element([0x68, 0x65, 0x6c, 0x6c, 0x6f], Str([0x77, 0x6f, 0x72, 0x6c, 0x64]))])
         == [0x16, 0, 0, 0, 0x02, 0x68, 0x65, 0x6c, 0x6c, 0x6f, 0, 0x06, 0, 0, 0, 0x77, 0x6f, 0x72, 0x6c, 0x64, 0, 0]
  {
    hide Elements, ToLe;
    SmallLengths();
    OneElement([0x68, 0x65, 0x6c, 0x6c, 0x6f], Str([0x77, 0x6f, 0x72, 0x6c, 0x64]));
  }

  lemma InnerArray(items: seq<Element>)
    requires items == [Element([0x30], Int(1986))]
    ensures Document(items) == [0x0c, 0, 0, 0, 0x10, 0x30, 0, 0xc2, 0x07, 0, 0, 0]
  {
    hide Elements, ToLe, Document;
    SmallLengths();
    OneElement([0x30], items[0].value);
    assert Elements(items) == [0x10, 0x30, 0, 0xc2, 0x07, 0, 0];
    DocumentOf(items);
  }

  /** and an array in a document */
  lemma ArrayInDocument(items: seq<Element>, v: Value, es: seq<Element>)
    requires items == [Element([0x30], Int(1986))] && v == Array(items) && es == [Element([0x61], v)]
    ensures Document(es) == [0x14, 0, 0, 0, 0x04, 0x61, 0, 0x0c, 0, 0, 0, 0x10, 0x30, 0, 0xc2, 0x07, 0, 0, 0, 0]
  {
    hide Elements, ToLe, Document;
    SmallLengths();
    InnerArray(items);
    OneElement([0x61], v);
    assert Payload(v) == Document(items);
    assert Elements(es) == [0x04, 0x61, 0, 0x0c, 0, 0, 0, 0x10, 0x30, 0, 0xc2, 0x07, 0, 0, 0];
    DocumentOf(es);
  }

  lemma DocumentOf(es: seq<Element>)
    ensures Document(es) == Length(|Elements(es)| + 5) + Elements(es) + [0]
  {
    hide Elements;
  }

  lemma SmallLengths()
    ensures ToLe(22, 4) == [22, 0, 0, 0] && ToLe(6, 4) == [6, 0, 0, 0] && ToLe(20, 4) == [20, 0, 0, 0]
    ensures ToLe(12, 4) == [12, 0, 0, 0] && ToLe(1986, 4) == [0xc2, 0x07, 0, 0]
  {
  }

  /** Every key and string passes the UTF-8 check. */
  predicate Encodable(v: Value)
    decreases v, 0
  {
    match v
    case Str(text) => LooseText(text)
    case Code(text) => LooseText(text)
    case Symbol(text) => LooseText(text)
    case Regex(pattern, _) => LooseText(pattern)
    case Object(fields) => AllEncodable(fields)
    case Array(items) => AllEncodable(items)
    case _ => true
  }

  predicate AllEncodable(es: seq<Element>)
    decreases es, 1
  {
    es == [] || (LooseText(es[0].key) && Encodable(es[0].value) && AllEncodable(es[1..]))
  }
}

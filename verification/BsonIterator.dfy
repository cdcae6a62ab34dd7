/** The BSON iterator, and what a client reads back with it. */
module BsonReading {
  import opened Bytes
  import opened BsonFormat

  const INT_MAX: int := 0x7FFF_FFFF

  /** `s` stands in memory at offset `p`. */
  predicate At(doc: bytes, p: nat, s: bytes) {
    p + |s| <= |doc| && doc[p..p + |s|] == s
  }

  lemma AtSplit(doc: bytes, p: nat, a: bytes, b: bytes)
    ensures At(doc, p, a + b) <==> At(doc, p, a) && At(doc, p + |a|, b)
  {
    if At(doc, p, a + b) {
      assert doc[p..p + |a|] == (a + b)[..|a|] && doc[p + |a|..p + |a| + |b|] == (a + b)[|a|..];
    }
    if At(doc, p, a) && At(doc, p + |a|, b) {
      assert doc[p..p + |a| + |b|] == doc[p..p + |a|] + doc[p + |a|..p + |a| + |b|];
    }
  }

  /** strlen */
  function StrLen(doc: bytes, p: nat): nat
    decreases |doc| - p
  {
    if p >= |doc| || doc[p] == 0 then 0 else 1 + StrLen(doc, p + 1)
  }

  lemma {:induction false} StrLenAt(doc: bytes, p: nat, s: CString)
    requires At(doc, p, s + [0])
    ensures p + |s| < |doc| && StrLen(doc, p) == |s| && doc[p..p + |s|] == s
    decreases s
  {
    AtSplit(doc, p, s, [0]);
    if s != [] {
      assert doc[p] == s[0] && s == [s[0]] + s[1..];
      assert s + [0] == [s[0]] + (s[1..] + [0]);
      AtSplit(doc, p, [s[0]], s[1..] + [0]);
      StrLenAt(doc, p + 1, s[1..]);
    } else {
      assert doc[p] == 0;
    }
  }

  /** A little-endian int in memory. */
  function IntAt(doc: bytes, p: nat): Int32
    requires p + 4 <= |doc|
  {
    AsInt32(doc[p..p + 4])
  }

  lemma LengthAt(doc: bytes, p: nat, n: nat)
    requires At(doc, p, Length(n)) && n <= INT_MAX
    ensures IntAt(doc, p) == n
  {
    Powers();
    LeRoundTrip(n, 4);
  }

  /** The bytes between the value of an element and the next element, as the iterator
      computes them from the type and the value; none for an unknown type. */
  method ValueSize(doc: bytes, p: nat, code: byte, ghost v: Value) returns (size: int)
    requires |doc| <= INT_MAX
    requires code == TypeCode(v) && At(doc, p, Payload(v))
    ensures size == |Payload(v)|
  {
    match code {
      case 6 => size := 0;
      case 10 => size := 0;
      case 127 => size := 0;
      case 255 => size := 0;
      case 8 => size := 1;
      case 16 => size := 4;
      case 1 => size := 8;
      case 9 => size := 8;
      case 17 => size := 8;
      case 18 => size := 8;
      case 7 => size := 12;
      case 2 => TextAt(doc, p, v); size := 4 + IntAt(doc, p);
      case 13 => TextAt(doc, p, v); size := 4 + IntAt(doc, p);
      case 14 => TextAt(doc, p, v); size := 4 + IntAt(doc, p);
      case 5 => BinaryAt(doc, p, v); size := 5 + IntAt(doc, p);
      case 15 => ScopedCodeAt(doc, p, v); size := IntAt(doc, p);
      case 3 => DocumentAt(doc, p, v.fields); size := IntAt(doc, p);
      case 4 => DocumentAt(doc, p, v.items); size := IntAt(doc, p);
      case 11 =>
        RegexAt(doc, p, v);
        var q := p + StrLen(doc, p) + 1;
        q := q + StrLen(doc, q) + 1;
        size := q - p;
      case _ => size := 0;
    }
  }

  lemma TextAt(doc: bytes, p: nat, v: Value)
    requires |doc| <= INT_MAX
    requires (v.Str? || v.Code? || v.Symbol?) && At(doc, p, Payload(v))
    ensures IntAt(doc, p) == |v.text| + 1 && |Payload(v)| == 4 + |v.text| + 1
    ensures doc[p + 4..p + 4 + |v.text|] == v.text
  {
    AtSplit(doc, p, Length(|v.text| + 1) + v.text, [0]);
    AtSplit(doc, p, Length(|v.text| + 1), v.text);
    LengthAt(doc, p, |v.text| + 1);
  }

  lemma BinaryAt(doc: bytes, p: nat, v: Value)
    requires |doc| <= INT_MAX
    requires v.Binary? && At(doc, p, Payload(v))
    ensures doc[p + 4] == v.subtype && |Payload(v)| == 5 + IntAt(doc, p)
    ensures if v.subtype == BINARY_OLD
            then IntAt(doc, p) == |v.data| + 4 && doc[p + 9..p + 9 + |v.data|] == v.data
            else IntAt(doc, p) == |v.data| && doc[p + 5..p + 5 + |v.data|] == v.data
  {
    if v.subtype == BINARY_OLD {
      AtSplit(doc, p, Length(|v.data| + 4) + [v.subtype] + Length(|v.data|), v.data);
      AtSplit(doc, p, Length(|v.data| + 4) + [v.subtype], Length(|v.data|));
      AtSplit(doc, p, Length(|v.data| + 4), [v.subtype]);
      LengthAt(doc, p, |v.data| + 4);
    } else {
      AtSplit(doc, p, Length(|v.data|) + [v.subtype], v.data);
      AtSplit(doc, p, Length(|v.data|), [v.subtype]);
      LengthAt(doc, p, |v.data|);
    }
  }

  lemma RegexAt(doc: bytes, p: nat, v: Value)
    requires v.Regex? && At(doc, p, Payload(v))
    ensures StrLen(doc, p) == |v.pattern| && doc[p..p + |v.pattern|] == v.pattern
    ensures var q := p + |v.pattern| + 1;
      && StrLen(doc, q) == |v.opts| && q + |v.opts| + 1 == p + |Payload(v)|
      && doc[q..q + |v.opts|] == v.opts
  {
    assert Payload(v) == (v.pattern + [0]) + (v.opts + [0]);
    AtSplit(doc, p, v.pattern + [0], v.opts + [0]);
    StrLenAt(doc, p, v.pattern);
    StrLenAt(doc, p + |v.pattern| + 1, v.opts);
  }

  lemma ScopedCodeAt(doc: bytes, p: nat, v: Value)
    requires |doc| <= INT_MAX && v.ScopedCode? && At(doc, p, Payload(v))
    ensures p + 8 + |v.code| + 1 + |v.scope| == p + |Payload(v)| <= |doc|
    ensures IntAt(doc, p) == |Payload(v)| && IntAt(doc, p + 4) == |v.code| + 1
    ensures doc[p + 8..p + 8 + |v.code|] == v.code
    ensures var q := p + 8 + |v.code| + 1;
      IntAt(doc, q) == |v.scope| && doc[q..q + |v.scope|] == v.scope
  {
    hide At;
    var q := p + 8 + |v.code| + 1;
    AtSplit(doc, p, Length(|Payload(v)|), Length(|v.code| + 1) + (v.code + ([0] + v.scope)));
    AtSplit(doc, p + 4, Length(|v.code| + 1), v.code + ([0] + v.scope));
    AtSplit(doc, p + 8, v.code, [0] + v.scope);
    AtSplit(doc, p + 8 + |v.code|, [0], v.scope);
    AtMeans(doc, p, Length(|Payload(v)|));
    AtMeans(doc, p + 4, Length(|v.code| + 1));
    AtMeans(doc, p + 8, v.code);
    AtMeans(doc, q, v.scope);
    LengthAt(doc, p, |Payload(v)|);
    LengthAt(doc, p + 4, |v.code| + 1);
    assert doc[q..q + 4] == v.scope[..4];
  }

  lemma AtMeans(doc: bytes, p: nat, s: bytes)
    requires At(doc, p, s)
    ensures p + |s| <= |doc| && doc[p..p + |s|] == s
  {
  }

  /** A document starts with its own exact length. */
  lemma DocumentAt(doc: bytes, p: nat, es: seq<Element>)
    requires |doc| <= INT_MAX && At(doc, p, Document(es))
    ensures IntAt(doc, p) == |Document(es)|
    ensures At(doc, p + 4, Elements(es) + [0])
  {
    var n := |Elements(es)| + 5;
    assert Document(es) == Length(n) + (Elements(es) + [0]);
    AtSplit(doc, p, Length(n), Elements(es) + [0]);
    LengthAt(doc, p, n);
  }

  lemma ElementAt(doc: bytes, p: nat, es: seq<Element>)
    requires At(doc, p, Elements(es) + [0])
    ensures p + 1 + StrLen(doc, p + 1) <= |doc| || es == []
    ensures p < |doc| && doc[p] == if es == [] then 0 else TypeCode(es[0].value)
    ensures es != [] ==>
      var (v, key) := (es[0].value, es[0].key);
      && |Elements(es)| == 1 + |key| + 1 + |Payload(v)| + |Elements(es[1..])|
      && StrLen(doc, p + 1) == |key| && doc[p + 1..p + 1 + |key|] == key
      && At(doc, p + 1 + |key| + 1, Payload(v))
      && At(doc, p + 1 + |key| + 1 + |Payload(v)|, Elements(es[1..]) + [0])
  {
    hide At, Payload, Elements;
    if es == [] {
      assert Elements(es) + [0] == [0];
      ByteAt(doc, p, 0);
    } else {
      var (v, key) := (es[0].value, es[0].key);
      var rest := Elements(es[1..]) + [0];
      FirstElement(es);
      AtSplit(doc, p, [TypeCode(v)], (key + [0]) + (Payload(v) + rest));
      ByteAt(doc, p, TypeCode(v));
      AtSplit(doc, p + 1, key + [0], Payload(v) + rest);
      AtSplit(doc, p + 1 + |key| + 1, Payload(v), rest);
      StrLenAt(doc, p + 1, key);
    }
  }

  lemma ByteAt(doc: bytes, p: nat, b: byte)
    requires At(doc, p, [b])
    ensures p < |doc| && doc[p] == b
  {
  }

  lemma Regroup(a: bytes, b: bytes, c: bytes, d: bytes, z: bytes)
    ensures (((a + b) + z) + c + d) + z == a + ((b + z) + (c + (d + z)))
  {
  }

  lemma FirstElement(es: seq<Element>)
    requires es != []
    ensures var (v, key) := (es[0].value, es[0].key);
      && Elements(es) + [0] == [TypeCode(v)] + ((key + [0]) + (Payload(v) + (Elements(es[1..]) + [0])))
      && |Elements(es)| == 1 + |key| + 1 + |Payload(v)| + |Elements(es[1..])|
  {
    var (v, key) := (es[0].value, es[0].key);
    Regroup([TypeCode(v)], key, Payload(v), Elements(es[1..]), [0]);
  }

  /** A byte read through `char`, which is signed. */
  function SignedChar(b: byte): int { if b >= 128 then b - 256 else b }

  class BsonIterator {
    /** The memory the iterator points into. */
    const doc: bytes
    var cur: nat
    var first: bool

    /** bson_iterator_from_buffer, for the document at `at` */
    constructor (doc: bytes, at: nat)
      ensures this.doc == doc && cur == at + 4 && first
    {
      this.doc := doc;
      cur := at + 4;
      first := true;
    }

    /** A copy of an iterator, as by assignment. */
    constructor Copy(it: BsonIterator)
      ensures doc == it.doc && cur == it.cur && first == it.first
    {
      doc := it.doc;
      cur := it.cur;
      first := it.first;
    }

    /** What is left from the iterator's element on. */
    ghost predicate Ahead(es: seq<Element>)
      reads this
    {
      |doc| <= INT_MAX && At(doc, cur, Elements(es) + [0])
    }

    /** bson_iterator_type */
    function Type(): byte
      requires cur < |doc|
      reads this
    {
      doc[cur]
    }

    /** bson_iterator_key */
    function Key(): bytes
      requires cur + 1 + StrLen(doc, cur + 1) <= |doc|
      reads this
    {
      doc[cur + 1..cur + 1 + StrLen(doc, cur + 1)]
    }

    /** bson_iterator_value */
    function ValueOffset(): nat
      reads this
    {
      cur + 1 + StrLen(doc, cur + 1) + 1
    }

    /** bson_iterator_next: the first call stays, later calls step over one element, and the
        end of the document is never left. The result goes through `char`, so it is -1, not
        255, for a minimum key. */
    method Next(ghost es: seq<Element>) returns (t: int)
      requires Ahead(es)
      modifies this
      ensures !first
      ensures var left := if old(first) || es == [] then es else es[1..];
        && Ahead(left)
        && (t == if left == [] then 0 else SignedChar(TypeCode(left[0].value)))
      ensures old(first) || es == [] ==> cur == old(cur)
      ensures !old(first) ==> cur + |Elements(if es == [] then [] else es[1..])| == old(cur) + |Elements(es)|
    {
      hide Elements, At, Payload, StrLen;
      ElementAt(doc, cur, es);
      if first {
        first := false;
        return SignedChar(doc[cur]);
      }
      if Type() == 0 {
        return 0;
      }
      var size := ValueSize(doc, ValueOffset(), Type(), es[0].value);
      cur := cur + 1 + StrLen(doc, cur + 1) + 1 + size;
      ElementAt(doc, cur, es[1..]);
      t := SignedChar(doc[cur]);
    }
  }

  /** A client that reads one value with the accessor for its type. */
  method ReadValue(doc: bytes, p: nat, code: byte, ghost v: Value) returns (r: Value)
    requires |doc| <= INT_MAX && At(doc, p, Payload(v)) && code == TypeCode(v)
    ensures r == v
    decreases v, 0
  {
    match code {
      case 3 => var fields, end := Walk(doc, p, v.fields); r := Object(fields);
      case 4 => var items, end := Walk(doc, p, v.items); r := Array(items);
      case 2 => r := ReadText(doc, p, code, v);
      case 13 => r := ReadText(doc, p, code, v);
      case 14 => r := ReadText(doc, p, code, v);
      case 5 => r := ReadBinary(doc, p, v);
      case 11 => r := ReadRegex(doc, p, v);
      case 15 => r := ReadScopedCode(doc, p, v);
      case _ => r := ReadFixed(doc, p, code, v);
    }
  }

  /** bson_iterator_bin_type, bson_iterator_bin_len and bson_iterator_bin_data */
  method ReadBinary(doc: bytes, p: nat, ghost v: Value) returns (r: Value)
    requires |doc| <= INT_MAX && v.Binary? && At(doc, p, Payload(v))
    ensures r == v
  {
    BinaryAt(doc, p, v);
    if doc[p + 4] == BINARY_OLD {
      r := Binary(doc[p + 4], doc[p + 9..p + 9 + (IntAt(doc, p) - 4)]);
    } else {
      r := Binary(doc[p + 4], doc[p + 5..p + 5 + IntAt(doc, p)]);
    }
  }

  /** bson_iterator_regex and bson_iterator_regex_opts */
  method ReadRegex(doc: bytes, p: nat, ghost v: Value) returns (r: Value)
    requires v.Regex? && At(doc, p, Payload(v))
    ensures r == v
  {
    RegexAt(doc, p, v);
    var q := p + StrLen(doc, p) + 1;
    r := Regex(doc[p..q - 1], doc[q..q + StrLen(doc, q)]);
  }

  /** bson_iterator_code and bson_iterator_code_scope_init */
  method ReadScopedCode(doc: bytes, p: nat, ghost v: Value) returns (r: Value)
    requires |doc| <= INT_MAX && v.ScopedCode? && At(doc, p, Payload(v))
    ensures r == v
  {
    ScopedCodeAt(doc, p, v);
    var codeLen := IntAt(doc, p + 4);
    var scopeData := p + 8 + codeLen;
    r := ScopedCode(doc[p + 8..p + 8 + codeLen - 1], doc[scopeData..scopeData + IntAt(doc, scopeData)]);
  }

  method ReadText(doc: bytes, p: nat, code: byte, ghost v: Value) returns (r: Value)
    requires |doc| <= INT_MAX && At(doc, p, Payload(v)) && code == TypeCode(v)
    requires v.Str? || v.Code? || v.Symbol?
    ensures r == v
  {
    TextAt(doc, p, v);
    var text := doc[p + 4..p + 4 + IntAt(doc, p) - 1];
    r := if code == 2 then Str(text) else if code == 13 then Code(text) else Symbol(text);
  }

  method ReadFixed(doc: bytes, p: nat, code: byte, ghost v: Value) returns (r: Value)
    requires At(doc, p, Payload(v)) && code == TypeCode(v)
    requires code in {1, 6, 7, 8, 9, 10, 16, 17, 18, 127, 255}
    ensures r == v
  {
    match code {
      case 1 => r := Double(doc[p..p + 8]);
      case 7 => r := Oid(doc[p..p + 12]);
      case 8 => r := Bool(doc[p] != 0);
      case 16 => Int32RoundTrip(v.i); r := Int(IntAt(doc, p));
      case 9 => Int64RoundTrip(v.millis); r := Date(AsInt64(doc[p..p + 8]));
      case 18 => Int64RoundTrip(v.l); r := Long(AsInt64(doc[p..p + 8]));
      case 17 =>
        AtSplit(doc, p, Le32(v.increment), Le32(v.time));
        Int32RoundTrip(v.increment);
        Int32RoundTrip(v.time);
        r := Timestamp(IntAt(doc, p), IntAt(doc, p + 4));
      case 6 => r := Undefined;
      case 10 => r := Null;
      case 127 => r := MaxKey;
      case 255 => r := MinKey;
    }
  }

  /** One element as the iterator shows it. */
  method ReadElement(it: BsonIterator, ghost es: seq<Element>, ghost e: Element) returns (r: Element)
    requires it.Ahead(es) && es != [] && es[0] == e
    ensures r == e
    decreases e, 1
  {
    hide Payload, Elements, At;
    ElementAt(it.doc, it.cur, es);
    var value := ReadValue(it.doc, it.ValueOffset(), it.Type(), e.value);
    r := Element(it.Key(), value);
  }

  /** A client that walks a document with the iterator and recurses into sub-documents: it
      reads back the elements the document was made of, in order, and ends where the
      document's own length field says. */
  method Walk(doc: bytes, at: nat, ghost es: seq<Element>) returns (r: seq<Element>, end: nat)
    requires |doc| <= INT_MAX && At(doc, at, Document(es))
    ensures r == es
    ensures end == at + IntAt(doc, at)
    decreases es, 1
  {
    hide At, Elements;
    DocumentAt(doc, at, es);
    var it := new BsonIterator(doc, at);
    r := [];
    ghost var left := es;
    var t := it.Next(es);
    while t != 0
      invariant it.doc == doc && !it.first && it.Ahead(left)
      invariant |r| <= |es| && r == es[..|r|] && left == es[|r|..]
      invariant t == if left == [] then 0 else SignedChar(TypeCode(left[0].value))
      invariant it.cur + |Elements(left)| == at + 4 + |Elements(es)|
      decreases |left|
    {
      var e := ReadElement(it, left, es[|r|]);
      r := r + [e];
      t := it.Next(left);
      left := left[1..];
    }
    end := it.cur + 1;
  }

  /** The first element with a name, if any. */
  function FirstNamed(es: seq<Element>, name: bytes): (k: nat)
    ensures k <= |es|
    ensures k < |es| ==> es[k].key == name
    ensures forall i | 0 <= i < k :: es[i].key != name
  {
    if es == [] || es[0].key == name then 0 else 1 + FirstNamed(es[1..], name)
  }

  /** bson_find: the type of the first element with that name, zero if there is none, with the
      iterator left on it. */
  method Find(it: BsonIterator, name: CString, ghost es: seq<Element>) returns (code: byte)
    requires it.Ahead(es) && it.first
    modifies it
    ensures it.Ahead(es[FirstNamed(es, name)..])
    ensures code == if FirstNamed(es, name) == |es| then 0 else TypeCode(es[FirstNamed(es, name)].value)
  {
    hide Elements, At, StrLen, Payload, FirstNamed;
    ghost var k, left := 0, es;
    var t := it.Next(es);
    while t != 0
      invariant !it.first && it.Ahead(left)
      invariant k <= FirstNamed(es, name) && left == es[k..]
      invariant t == if left == [] then 0 else SignedChar(TypeCode(left[0].value))
      decreases |left|
    {
      ElementAt(it.doc, it.cur, left);
      if it.Key() == name {
        break;
      }
      t := it.Next(left);
      k, left := k + 1, left[1..];
    }
    ElementAt(it.doc, it.cur, left);
    code := it.Type();
  }
}

/** Builder and iterator together. */
module BsonRoundTrip {
  import opened Bytes
  import opened BsonFormat
  import opened BsonBuilder
  import opened BsonReading

  /** Whatever tree of elements a client builds, walking the finished document gives it back;
      and below the size limits every tree whose text passes the UTF-8 check can be built. */
  method BuildAndWalk(es: seq<Element>) returns (ok: bool, back: seq<Element>)
    ensures ok ==> back == es && AllEncodable(es)
    ensures |Document(es)| <= ROOMY ==> (ok <==> AllEncodable(es))
  {
    hide Elements, AllEncodable, At;
    var b;
    b, ok := Build(es);
    back := [];
    if ok {
      DocumentInBuffer(b.data[..b.cur], es);
      var end;
      back, end := Walk(b.data[..b.cur], 0, es);
    }
  }

  /** bson_append_element without a new name: the element the iterator is on is copied as it
      is, name and all, with nothing checked but the space. Of an iterator that has not been
      advanced yet nothing is copied. */
  method CopyElement(b: Bson, it: BsonIterator, ghost es: seq<Element>) returns (ok: bool)
    requires b.Valid() && it.Ahead(es) && es != []
    modifies b`data, b`err, b`cur, b`written, b.data
    ensures b.Valid() && b.open == old(b.open) && b.finished == old(b.finished)
    ensures var copied := if it.first then [] else Elements([es[0]]);
      && (ok ==> b.written == old(b.written) + copied && b.err == old(b.err))
      && (!ok ==> b.written == old(b.written) && b.err == OVERFLOWED)
      && (old(b.Roomy(|copied|)) ==> ok)
    ensures b.data == old(b.data) || fresh(b.data)
  {
    hide Elements, At, Payload, StrLen, Bson.Valid, SignedChar;
    var next := new BsonIterator.Copy(it);
    OneElement(it.doc, it.cur, es);
    var t := next.Next(es);
    var size := next.cur - it.cur;
    ok := b.EnsureSpace(size);
    if ok {
      b.Append(it.doc[it.cur..it.cur + size]);
    }
  }

  lemma OneElement(doc: bytes, p: nat, es: seq<Element>)
    requires es != [] && At(doc, p, Elements(es) + [0])
    ensures var e := Elements([es[0]]);
      && |Elements(es)| == |e| + |Elements(es[1..])|
      && p + |e| <= |doc| && doc[p..p + |e|] == e && doc[p..p] == []
  {
    hide At, Payload;
    var e, rest := Elements([es[0]]), Elements(es[1..]);
    OneAndRest(es);
    hide Elements;
    assert Elements(es) + [0] == e + (rest + [0]);
    AtSplit(doc, p, e, rest + [0]);
    AtMeans(doc, p, e);
  }

  lemma OneAndRest(es: seq<Element>)
    requires es != []
    ensures Elements(es) == Elements([es[0]]) + Elements(es[1..])
  {
    hide Payload;
    assert [es[0]][1..] == [];
    var a := Head(es[0].value, es[0].key) + Payload(es[0].value);
    assert Elements([es[0]]) == a;
  }

  lemma DocumentInBuffer(data: seq<int>, es: seq<Element>)
    requires data == Document(es)
    ensures At(data, 0, Document(es))
  {
    assert data[0..|data|] == data;
  }
}

/** The BSON builder: a growable buffer, and a stack of the sub-documents still open. */
module BsonBuilder {
  import opened Bytes
  import opened Utf8
  import opened BsonFormat

  const INT_MAX: int := 0x7FFF_FFFF

  /** Bits of `bson.err` beyond those validation sets. */
  datatype Errors = Errors(text: Flags, sizeOverflow: bool, alreadyFinished: bool, notInSubobject: bool)

  const NO_ERROR := Errors(Flags(false, false, false), false, false, false)

  /** What is left in `err` by the two failures that assign it: all earlier marks are lost. */
  const OVERFLOWED := NO_ERROR.(sizeOverflow := true)
  const NOT_NESTED := NO_ERROR.(notInSubobject := true)

  /** Documents up to this size are built without any danger of a size overflow. */
  const ROOMY: nat := 0x1000_0000

  lemma EndAdded(was: bytes, start: nat)
    requires start + 4 <= |was|
    ensures (was + [0])[..start] == was[..start] && (was + [0])[start + 4..] == was[start + 4..] + [0]
  {
  }

  class Bson {
    /** The buffer; its length is `dataSize`. */
    var data: array<byte>
    var cur: nat
    /** Offsets of the open sub-documents; its length is `stackSize`. */
    var stack: array<nat>
    var stackPos: nat
    var finished: bool
    var err: Errors

    /** What has been written so far, and where the sub-documents still open start. */
    ghost var written: bytes
    ghost var open: seq<nat>

    ghost predicate Valid()
      reads `data, `cur, `stack, `stackPos, `written, `open, data, stack
      ensures Valid() ==> |written| == cur >= 4
    {
      && 4 <= cur <= data.Length <= INT_MAX
      && stackPos <= stack.Length
      && data as object != stack as object
      && written == data[..cur]
      && open == stack[..stackPos]
      && forall i | 0 <= i < |open| :: 4 <= open[i] <= cur - 4
    }

    /** `n` more bytes fit without any danger of a size overflow. */
    predicate Roomy(n: nat)
      reads this
    {
      cur + n <= ROOMY && data.Length <= 4 * ROOMY
    }

    /** bson_init_size */
    constructor (size: nat)
      requires 4 <= size <= INT_MAX
      ensures Valid() && !finished && cur == 4 && open == []
      ensures !err.text.notUtf8 && data.Length == size
      ensures fresh(data) && fresh(stack)
    {
      data := new byte[size](_ => 0);
      cur := 4;
      stack := new nat[0];
      stackPos := 0;
      finished := false;
      err := NO_ERROR;
      new;
      written, open := data[..4], [];
    }

    /** The size bson_ensure_space asks realloc for: one and a half times what is needed,
        converted to int (out of range, the conversion yields INT_MIN). */
    static function NewSize(dataSize: nat, needed: nat): int {
      var size := 3 * (dataSize + needed) / 2;
      if size <= INT_MAX then size else -INT_MAX - 1
    }

    /** bson_ensure_space */
    method EnsureSpace(needed: nat) returns (ok: bool)
      requires Valid()
      modifies this`data, this`err
      ensures Valid()
      ensures ok ==> cur + needed <= data.Length && err == old(err)
      ensures !ok ==> data == old(data) && err == OVERFLOWED
      ensures data == old(data) || fresh(data)
      ensures old(Roomy(needed)) ==> ok && data.Length <= 4 * ROOMY
    {
      if cur + needed <= data.Length {
        return true;
      }
      var newSize := NewSize(data.Length, needed);
      if newSize < data.Length {
        if data.Length + needed < INT_MAX {
          newSize := INT_MAX;
        } else {
          err := OVERFLOWED;
          return false;
        }
      }
      var grown := new byte[newSize](_ => 0);
      CopyInto(grown, 0, data[..]);
      assert grown[..cur] == data[..cur];
      data := grown;
      ok := true;
    }

    /** _bson_append_grow_stack: 32 entries to start with, then doubling */
    method GrowStack()
      requires Valid() && stackPos == stack.Length
      modifies this`stack
      ensures Valid() && fresh(stack) && stackPos < stack.Length
    {
      var size := if stack.Length == 0 then 32 else 2 * stack.Length;
      var was := stack;
      var bigger := new nat[size](_ => 0);
      for i := 0 to was.Length
        invariant stack == was && bigger[..i] == was[..i]
      {
        bigger[i] := was[i];
      }
      assert bigger[..stackPos] == was[..stackPos];
      stack := bigger;
    }

    /** bson_append and its fixed-width variants: memcpy at `cur` */
    method Append(s: bytes)
      requires Valid() && cur + |s| <= data.Length
      modifies this`cur, this`written, data
      ensures Valid() && written == old(written) + s
    {
      CopyInto(data, cur, s);
      cur := cur + |s|;
      written := written + s;
    }

    /** What every append promises: on success exactly `added` has been appended, on failure
        nothing. It succeeds only for text that passes the UTF-8 check, and below the size
        limits it fails for no other reason on an unfinished document. */
    twostate predicate Outcome(ok: bool, validText: bool, added: bytes)
      reads this, data, stack
    {
      && Valid()
      && written == old(written) + (if ok then added else [])
      && open == old(open)
      && finished == old(finished)
      && (ok ==> validText && !finished && err.text.notUtf8 == old(err.text.notUtf8))
      && (old(err.text.notUtf8) ==> err.text.notUtf8 || err == OVERFLOWED)
      && (old(Roomy(|added|)) && !finished ==>
            && (ok <==> validText) && data.Length <= 4 * ROOMY
            && (!ok ==> err.text.notUtf8))
    }

    /** The second half of bson_append_estart: the name is checked, then type and name written. */
    method AppendHead(code: byte, name: CString) returns (ok: bool)
      requires Valid() && cur + 2 + |name| <= data.Length
      modifies this`err, this`cur, this`written, data
      ensures Valid() && written == old(written) + (if ok then [code] + name + [0] else [])
      ensures ok <==> LooseText(name)
      ensures err.text.notUtf8 == (old(err.text.notUtf8) || !ok)
    {
      hide LooseText, DotAtStart, IsDbRef;
      var valid, flags := ValidateString(name, true, err.text);
      err := err.(text := flags);
      if !valid {
        return false;
      }
      Append([code]);
      Append(name + [0]);
      assert [code] + (name + [0]) == [code] + name + [0];
      ok := true;
    }

    /** bson_append_estart: type byte and name of an element with `dataSize` bytes to come */
    method AppendStart(code: byte, name: CString, dataSize: nat) returns (ok: bool)
      requires Valid()
      modifies this`data, this`err, this`cur, this`written, data
      ensures Valid() && written == old(written) + (if ok then [code] + name + [0] else [])
      ensures data == old(data) || fresh(data)
      ensures ok ==> cur + dataSize <= data.Length && LooseText(name) && !finished
      ensures ok ==> err.text.notUtf8 == old(err.text.notUtf8)
      ensures old(err.text.notUtf8) ==> err.text.notUtf8 || err == OVERFLOWED
      ensures old(Roomy(2 + |name| + dataSize)) && !finished ==>
                && (ok <==> LooseText(name)) && data.Length <= 4 * ROOMY
                && (!ok ==> err.text.notUtf8)
    {
      hide LooseText, DotAtStart, IsDbRef, Valid;
      if finished {
        err := err.(alreadyFinished := true);
        return false;
      }
      ok := EnsureSpace(1 + |name| + 1 + dataSize);
      if !ok {
        return;
      }
      ok := AppendHead(code, name);
    }

    /** An element whose value is appended right after its head. */
    method AppendElement(code: byte, name: CString, value: bytes) returns (ok: bool)
      requires Valid()
      modifies this`data, this`err, this`cur, this`written, data
      ensures Outcome(ok, LooseText(name), [code] + name + [0] + value)
      ensures data == old(data) || fresh(data)
    {
      hide LooseText, Valid;
      ok := AppendStart(code, name, |value|);
      if ok {
        Append(value);
      }
    }

    /** bson_append_int, _long, _double, _bool, _null, _undefined, _minkey, _maxkey, _oid,
        _date and _timestamp: a value of fixed width */
    method AppendFixed(name: CString, v: Value) returns (ok: bool)
      requires Valid()
      requires v.Int? || v.Long? || v.Double? || v.Bool? || v.Null? || v.Undefined? || v.MinKey? || v.MaxKey?
            || v.Oid? || v.Date? || v.Timestamp?
      modifies this`data, this`err, this`cur, this`written, data
      ensures Outcome(ok, LooseText(name), Head(v, name) + Payload(v))
      ensures data == old(data) || fresh(data)
    {
      hide Outcome;
      match v {
        case Int(i) => ok := AppendElement(16, name, Le32(i));
        case Long(l) => ok := AppendElement(18, name, Le64(l));
        case Date(millis) => ok := AppendElement(9, name, Le64(millis));
        case Double(raw) => ok := AppendElement(1, name, raw);
        case Bool(b) => ok := AppendElement(8, name, [if b then 1 else 0]);
        case Oid(id) => ok := AppendElement(7, name, id);
        case Timestamp(increment, time) => ok := AppendElement(17, name, Le32(increment) + Le32(time));
        case Null => ok := AppendElement(10, name, []);
        case Undefined => ok := AppendElement(6, name, []);
        case MinKey => ok := AppendElement(255, name, []);
        case MaxKey => ok := AppendElement(127, name, []);
      }
    }

    /** bson_append_string_base, for a string, a symbol or code */
    method AppendText(name: CString, v: Value) returns (ok: bool)
      requires Valid() && (v.Str? || v.Symbol? || v.Code?)
      modifies this`data, this`err, this`cur, this`written, data
      ensures Outcome(ok, LooseText(v.text) && LooseText(name), Head(v, name) + Payload(v))
      ensures data == old(data) || fresh(data)
    {
      hide LooseText, DotAtStart, IsDbRef;
      var size := |v.text| + 1;
      if size > INT_MAX {
        err := OVERFLOWED;
        return false;
      }
      var valid, flags := ValidateString(v.text, false, err.text);
      err := err.(text := flags);
      if !valid {
        return false;
      }
      ok := AppendElement(if v.Str? then 2 else if v.Symbol? then 14 else 13, name, Length(size) + v.text + [0]);
    }

    /** bson_append_binary */
    method AppendBinary(name: CString, subtype: byte, bin: bytes) returns (ok: bool)
      requires Valid()
      modifies this`data, this`err, this`cur, this`written, data
      ensures Outcome(ok, LooseText(name), Head(Binary(subtype, bin), name) + Payload(Binary(subtype, bin)))
      ensures ok && subtype != 2 ==>
                written == old(written) + ([5] + name + [0] + (ToLe(|bin|, 4) + [subtype] + bin))
      ensures ok && subtype == 2 ==>
                written == old(written) + ([5] + name + [0] + (ToLe(|bin| + 4, 4) + [2] + ToLe(|bin|, 4) + bin))
      ensures data == old(data) || fresh(data)
    {
      hide LooseText, Valid, ToLe, Payload, Head, BinaryBytes;
      LayoutOfBinary(name, Binary(subtype, bin));
      if subtype == BINARY_OLD {
        ok := AppendElement(5, name, Length(|bin| + 4) + [subtype] + Length(|bin|) + bin);
      } else {
        ok := AppendElement(5, name, Length(|bin|) + [subtype] + bin);
      }
    }

    /** bson_append_code_w_scope_n, with a scope that is not null. The code is not checked. */
    method AppendScopedCode(name: CString, v: Value) returns (ok: bool)
      requires Valid() && v.ScopedCode?
      modifies this`data, this`err, this`cur, this`written, data
      ensures Outcome(ok, LooseText(name), Head(v, name) + Payload(v))
      ensures data == old(data) || fresh(data)
    {
      hide LooseText, DotAtStart, IsDbRef;
      var sl := |v.code| + 1;
      var size := 4 + 4 + sl + |v.scope|;
      if size > INT_MAX {
        err := OVERFLOWED;
        return false;
      }
      ok := AppendElement(15, name, Length(size) + (Length(sl) + (v.code + ([0] + v.scope))));
    }

    /** bson_append_bson: a finished document becomes a sub-document. */
    method AppendDocument(name: CString, doc: bytes, ghost fields: seq<Element>) returns (ok: bool)
      requires Valid() && doc == Document(fields)
      modifies this`data, this`err, this`cur, this`written, data
      ensures Outcome(ok, LooseText(name), Head(Object(fields), name) + Payload(Object(fields)))
      ensures data == old(data) || fresh(data)
    {
      hide Outcome, Document;
      ok := AppendElement(3, name, doc);
    }

    /** bson_append_regex. The pattern is checked after the head has been written, so a bad
        pattern leaves a head without a value behind. */
    method AppendRegex(name: CString, pattern: CString, opts: CString) returns (ok: bool)
      requires Valid()
      modifies this`data, this`err, this`cur, this`written, data
      ensures var added := Head(Regex(pattern, opts), name) + Payload(Regex(pattern, opts));
        && (LooseText(pattern) ==> Outcome(ok, LooseText(name), added))
        && (!LooseText(pattern) ==>
              && !ok && Valid() && open == old(open) && finished == old(finished)
              && old(written) <= written
              && (old(err.text.notUtf8) ==> err.text.notUtf8 || err == OVERFLOWED)
              && (old(Roomy(|added|)) && !finished ==> data.Length <= 4 * ROOMY && err.text.notUtf8))
      ensures data == old(data) || fresh(data)
    {
      hide LooseText, DotAtStart, IsDbRef;
      ok := AppendStart(11, name, |pattern| + 1 + |opts| + 1);
      if !ok {
        return;
      }
      var valid, flags := ValidateString(pattern, false, err.text);
      err := err.(text := flags);
      if !valid {
        return false;
      }
      Append(pattern + [0] + (opts + [0]));
    }

    /** The offset of a sub-document goes on the stack, and its length is left zero. */
    method PushStart()
      requires Valid() && cur + 4 <= data.Length
      modifies this`stack, this`stackPos, this`open, this`cur, this`written, data, stack
      ensures Valid() && written == old(written) + [0, 0, 0, 0] && open == old(open) + [old(cur)]
      ensures stack == old(stack) || fresh(stack)
    {
      if stackPos >= stack.Length {
        GrowStack();
      }
      stack[stackPos] := cur;
      stackPos := stackPos + 1;
      open := open + [cur];
      CopyInto(data, cur, [0, 0, 0, 0]);
      cur := cur + 4;
      written := written + [0, 0, 0, 0];
    }

    /** bson_append_start_object and bson_append_start_array */
    method StartSub(name: CString, v: Value) returns (ok: bool)
      requires Valid() && (v.Object? || v.Array?)
      modifies this, data, stack
      ensures Valid() && finished == old(finished)
      ensures written == old(written) + if ok then Head(v, name) + [0, 0, 0, 0] else []
      ensures open == old(open) + if ok then [old(cur) + |Head(v, name)|] else []
      ensures ok ==> LooseText(name) && !finished && err.text.notUtf8 == old(err.text.notUtf8)
      ensures old(err.text.notUtf8) ==> err.text.notUtf8 || err == OVERFLOWED
      ensures old(Roomy(|Head(v, name)| + 5)) && !finished ==>
                && (ok <==> LooseText(name)) && data.Length <= 4 * ROOMY
                && (!ok ==> err.text.notUtf8)
      ensures data == old(data) || fresh(data)
      ensures stack == old(stack) || fresh(stack)
    {
      hide LooseText, Valid;
      ok := AppendStart(if v.Object? then 3 else 4, name, 5);
      if ok {
        PushStart();
      }
    }

    /** The length of a sub-document is written into the place left for it. */
    method Patch(start: nat, length: nat)
      requires Valid() && start + 4 <= cur
      modifies this`written, data
      ensures Valid()
      ensures written == old(written)[..start] + Length(length) + old(written)[start + 4..]
    {
      CopyInto(data, start, Length(length));
      written := data[..cur];
    }

    method PopStart() returns (start: nat)
      requires Valid() && stackPos > 0
      modifies this`stackPos, this`open
      ensures Valid() && open == old(open)[..|old(open)| - 1]
      ensures old(open) != [] && start == old(open)[|old(open)| - 1]
    {
      stackPos := stackPos - 1;
      start := stack[stackPos];
      open := open[..stackPos];
    }

    /** The end of bson_append_finish_object, with room for the final zero. */
    method SealTop()
      requires Valid() && open != [] && cur < data.Length
      modifies this`cur, this`written, this`stackPos, this`open, data
      ensures Valid() && open == old(open)[..|old(open)| - 1]
      ensures var was, start := old(written), old(open)[|old(open)| - 1];
        && start + 4 <= |was|
        && written == was[..start] + Length(|was| + 1 - start) + was[start + 4..] + [0]
    {
      Append([0]);
      var start := PopStart();
      // The buffer is no longer than INT_MAX, so the source's test for a sub-document of
      // INT_MAX bytes or more never succeeds.
      assert cur - start < INT_MAX;
      EndAdded(old(written), start);
      Patch(start, cur - start);
    }

    /** bson_append_finish_object: closes the innermost sub-document and writes its length,
        the distance from its start to here, into the place left for it. */
    method FinishSub() returns (ok: bool)
      requires Valid()
      modifies this`data, this`err, this`cur, this`written, this`stackPos, this`open, data
      ensures Valid()
      ensures err == if old(open) == [] then NOT_NESTED else if ok then old(err) else OVERFLOWED
      ensures ok ==>
                && old(open) != []
                && var was, start := old(written), old(open)[|old(open)| - 1];
                && start + 4 <= |was|
                && open == old(open)[..|old(open)| - 1]
                && written == was[..start] + Length(|was| + 1 - start) + was[start + 4..] + [0]
      ensures old(open) == [] ==> !ok
      ensures !ok ==> written == old(written) && open == old(open) && data == old(data)
      ensures old(Roomy(1)) && old(open) != [] ==> ok && data.Length <= 4 * ROOMY
      ensures data == old(data) || fresh(data)
    {
      if stackPos == 0 {
        err := NOT_NESTED;
        return false;
      }
      ok := EnsureSpace(1);
      if !ok {
        return;
      }
      SealTop();
    }

    /** bson_finish. Calling it with a sub-document still open is fatal in the source. */
    method Finish() returns (ok: bool)
      requires Valid() && open == []
      modifies this`data, this`err, this`cur, this`written, this`finished, data
      ensures ok ==> Valid() && finished && !old(err.text.notUtf8)
      ensures ok ==> written == if old(finished) then old(written)
                                else Length(old(cur) + 1) + old(written)[4..] + [0]
      ensures old(err.text.notUtf8) ==> !ok && err == old(err)
      ensures old(Roomy(1)) && !old(err.text.notUtf8) ==> ok
      ensures data == old(data) || fresh(data)
    {
      if err.text.notUtf8 {
        return false;
      }
      if !finished {
        ok := EnsureSpace(1);
        if !ok {
          return;
        }
        Append([0]);
        if cur >= INT_MAX {
          err := OVERFLOWED;
          return false;
        }
        assert written[4..] == old(written)[4..] + [0] && written[..0] == [];
        Patch(0, cur);
        finished := true;
      }
      ok := true;
    }
  }

  /** What appending whole elements amounts to. */
  twostate predicate Emitted(b: Bson, ok: bool, encodable: bool, added: bytes)
    reads b, b.data, b.stack
  {
    && b.Valid() && !b.finished
    && (ok ==> b.written == old(b.written) + added && b.open == old(b.open))
    && (ok ==> encodable && b.err.text.notUtf8 == old(b.err.text.notUtf8))
    && (old(b.Roomy(|added| + 1)) ==>
          && (ok <==> encodable) && (ok ==> b.data.Length <= 4 * ROOMY)
          && (!ok ==> b.err.text.notUtf8))
  }

  /** A client that appends a tree of elements, sub-documents included. */
  method EmitAll(b: Bson, es: seq<Element>) returns (ok: bool)
    requires b.Valid() && !b.finished
    modifies b, b.data, b.stack
    ensures Emitted(b, ok, AllEncodable(es), Elements(es))
    ensures (b.data == old(b.data) || fresh(b.data)) && (b.stack == old(b.stack) || fresh(b.stack))
    decreases es, 0
  {
    hide LooseText, Bson.Valid, Head, Payload, Encodable;
    if es == [] {
      return true;
    }
    ok := Emit(b, es[0]);
    if ok {
      ok := EmitAll(b, es[1..]);
    }
  }

  method Emit(b: Bson, e: Element) returns (ok: bool)
    requires b.Valid() && !b.finished
    modifies b, b.data, b.stack
    ensures Emitted(b, ok, LooseText(e.key) && Encodable(e.value), Head(e.value, e.key) + Payload(e.value))
    ensures (b.data == old(b.data) || fresh(b.data)) && (b.stack == old(b.stack) || fresh(b.stack))
    decreases e, 1
  {
    hide LooseText, Bson.Valid, Head;
    match e.value {
      case Object(fields) => ok := EmitSub(b, e, fields);
      case Array(items) => ok := EmitSub(b, e, items);
      case Str(_) => ok := b.AppendText(e.key, e.value);
      case Symbol(_) => ok := b.AppendText(e.key, e.value);
      case Code(_) => ok := b.AppendText(e.key, e.value);
      case Binary(subtype, data) => ok := b.AppendBinary(e.key, subtype, data);
      case Regex(pattern, opts) => ok := b.AppendRegex(e.key, pattern, opts);
      case ScopedCode(_, _) => ok := b.AppendScopedCode(e.key, e.value);
      case _ => ok := b.AppendFixed(e.key, e.value);
    }
  }

  /** The bytes of a closed sub-document, given those of the open one. */
  lemma SealedSub(was: bytes, head: bytes, es: seq<Element>, body: bytes)
    requires body == was + head + [0, 0, 0, 0] + Elements(es)
    ensures var start := |was + head|;
      body[..start] + Length(|body| + 1 - start) + body[start + 4..] + [0] == was + (head + Document(es))
  {
    var start := |was + head|;
    assert body[..start] == was + head && body[start + 4..] == Elements(es);
  }

  method CloseSub(b: Bson, ghost was: bytes, ghost outer: seq<nat>, ghost head: bytes, es: seq<Element>)
    returns (ok: bool)
    requires b.Valid() && b.open == outer + [|was + head|]
    requires b.written == was + head + [0, 0, 0, 0] + Elements(es)
    modifies b`data, b`err, b`cur, b`written, b`stackPos, b`open, b.data
    ensures b.Valid() && (ok ==> b.err == old(b.err))
    ensures ok ==> b.written == was + (head + Document(es)) && b.open == outer
    ensures old(b.Roomy(1)) ==> ok && b.data.Length <= 4 * ROOMY
    ensures b.data == old(b.data) || fresh(b.data)
  {
    hide Bson.Valid, Elements, Document;
    SealedSub(was, head, es, b.written);
    ok := b.FinishSub();
  }

  method EmitSub(b: Bson, e: Element, es: seq<Element>) returns (ok: bool)
    requires b.Valid() && !b.finished
    requires e.value == Object(es) || e.value == Array(es)
    modifies b, b.data, b.stack
    ensures Emitted(b, ok, LooseText(e.key) && AllEncodable(es), Head(e.value, e.key) + Document(es))
    ensures (b.data == old(b.data) || fresh(b.data)) && (b.stack == old(b.stack) || fresh(b.stack))
    decreases es, 1
  {
    hide LooseText, Bson.Valid, Head, Payload, Elements, AllEncodable;
    ghost var was, open := b.written, b.open;
    ok := b.StartSub(e.key, e.value);
    if !ok {
      return;
    }
    ok := EmitAll(b, es);
    if !ok {
      return;
    }
    ok := CloseSub(b, was, open, Head(e.value, e.key), es);
  }

  /** Building a document from a tree: from the initial 128 bytes the buffer and the stack
      grow as often as they must. */
  method Build(es: seq<Element>) returns (b: Bson, ok: bool)
    ensures ok ==> b.finished && b.Valid() && b.written == Document(es)
    ensures ok ==> AllEncodable(es)
    ensures |Document(es)| <= ROOMY ==> (ok <==> AllEncodable(es))
    ensures fresh(b) && fresh(b.data)
  {
    hide Elements, AllEncodable, Bson.Valid;
    b := new Bson(128);
    ok := EmitAll(b, es);
    if ok {
      assert b.written[4..] == Elements(es);
      ok := b.Finish();
    }
  }

  lemma NotText()
    ensures !LooseText([0xFF])
  {
  }

  /** A string that is not UTF-8 is refused and marks the document, but a stray
      bson_append_finish_object clears the mark, and bson_finish then succeeds. */
  method MarkIsCleared() returns (b: Bson, ok: bool)
    ensures ok && b.Valid() && b.finished && b.written == Length(5) + [0]
  {
    hide Bson.Valid, LooseText, DotAtStart, IsDbRef;
    b := new Bson(128);
    NotText();
    var refused := b.AppendText([97], Str([0xFF]));
    assert !refused && b.err.text.notUtf8;
    var stray := b.FinishSub();
    assert b.Roomy(1) && b.cur == 4;
    ok := b.Finish();
    assert b.written == Length(5) + [] + [0];
  }
}

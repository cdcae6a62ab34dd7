/** WebSocket frames (section 5.2 of RFC 6455): the server's incremental parser and its
    encoder. */
module WsFrame {
  import opened Bits
  import opened Bytes

  /** WS_MAX_PAYLOAD_BYTES */
  const MAX_PAYLOAD: nat := 0x10_0000

  /** How the payload length is written: in 7, 16 or 64 bits */
  datatype Form = Short | Medium | Long

  /** A frame as it is on the wire: the byte with FIN and opcode, the form of the length, the
      masking key if there is one, and the payload unmasked. */
  datatype Frame = Frame(first: byte, form: Form, key: bytes, payload: bytes) {
    function Opcode(): nat { first % 16 }
    predicate Fin() { first >= 128 }
  }

  predicate Valid(f: Frame) {
    && |f.payload| <= MAX_PAYLOAD
    && (f.form.Short? ==> |f.payload| < 126)
    && (f.form.Medium? ==> |f.payload| < 0x1_0000)
    && |f.key| in {0, 4}
  }

  function Code(f: Frame): byte
    requires Valid(f)
  {
    match f.form
    case Short => |f.payload|
    case Medium => 126
    case Long => 127
  }

  function ExtLen(form: Form): nat {
    match form
    case Short => 0
    case Medium => 2
    case Long => 8
  }

  function Header(f: Frame): (h: bytes)
    requires Valid(f)
    ensures |h| == 2 + ExtLen(f.form) + |f.key|
  {
    [f.first, (if f.key == [] then 0 else 128) + Code(f)] + ToBe(|f.payload|, ExtLen(f.form)) + f.key
  }

  /** The bytes of a frame */
  function Wire(f: Frame): (w: bytes)
    requires Valid(f)
    ensures |w| == 2 + ExtLen(f.form) + |f.key| + |f.payload|
  {
    Header(f) + Mask(f.payload, f.key)
  }

  // ---------------------------------------------------- masking (section 5.3)

  /** Exclusive or of the low `k` bits */
  function XorBits(x: nat, y: nat, k: nat): (z: nat)
    ensures z < Pow2(k)
  {
    if k == 0 then 0 else (if x % 2 == y % 2 then 0 else 1) + 2 * XorBits(x / 2, y / 2, k - 1)
  }

  function Xor(x: byte, y: byte): byte {
    assert Pow2(8) == 256;
    XorBits(x, y, 8)
  }

  function Mask(data: bytes, key: bytes): (m: bytes)
    requires |key| in {0, 4}
    ensures |m| == |data|
  {
    if key == [] then data else seq(|data|, i requires 0 <= i < |data| => Xor(data[i], key[i % 4]))
  }

  lemma {:induction false} XorBitsTwice(x: nat, y: nat, k: nat)
    requires x < Pow2(k)
    ensures XorBits(XorBits(x, y, k), y, k) == x
  {
    if k > 0 {
      var low, high := if x % 2 == y % 2 then 0 else 1, XorBits(x / 2, y / 2, k - 1);
      DigitAndRest(low, high);
      assert XorBits(x, y, k) == low + 2 * high;
      XorBitsTwice(x / 2, y / 2, k - 1);
      assert XorBits(high, y / 2, k - 1) == x / 2;
    }
  }

  lemma {:induction false} XorBitsAt(x: nat, y: nat, k: nat, j: nat)
    requires j < k
    ensures Bit(XorBits(x, y, k), j) == if Bit(x, j) == Bit(y, j) then 0 else 1
  {
    hide Bit;
    var low, high := if x % 2 == y % 2 then 0 else 1, XorBits(x / 2, y / 2, k - 1);
    DigitAndRest(low, high);
    assert XorBits(x, y, k) == low + 2 * high;
    if j > 0 {
      BitOfHalf(x, j);
      BitOfHalf(y, j);
      BitOfHalf(low + 2 * high, j);
      XorBitsAt(x / 2, y / 2, k - 1, j - 1);
    } else {
      LowestBit(x);
      LowestBit(y);
      LowestBit(low + 2 * high);
    }
  }

  /** A bit of the exclusive or is set exactly where the two bytes differ. */
  lemma XorIsBitwise(x: byte, y: byte)
    ensures forall j: nat :: j < 8 ==> Bit(Xor(x, y), j) == if Bit(x, j) == Bit(y, j) then 0 else 1
  {
    assert Pow2(8) == 256;
    forall j: nat | j < 8 ensures Bit(Xor(x, y), j) == if Bit(x, j) == Bit(y, j) then 0 else 1 {
      XorBitsAt(x, y, 8, j);
    }
  }

  /** Unmasking is masking again. */
  lemma MaskTwice(data: bytes, key: bytes)
    requires |key| in {0, 4}
    ensures Mask(Mask(data, key), key) == data
  {
    if key != [] {
      forall i | 0 <= i < |data| ensures Mask(Mask(data, key), key)[i] == data[i] {
        assert Pow2(8) == 256;
        XorBitsTwice(data[i], key[i % 4], 8);
      }
    }
  }

  // ----------------------------------------------------------- the parser's verdict

  datatype Verdict = NeedMore | Error | Ok(frame: Frame, total: nat)

  function FormOf(code: nat): Form {
    if code < 126 then Short else if code == 126 then Medium else Long
  }

  /** The payload length the header announces */
  function Announced(buf: bytes): nat
    requires |buf| >= 2 && |buf| >= 2 + ExtLen(FormOf(buf[1] % 128))
  {
    var form := FormOf(buf[1] % 128);
    if form.Short? then buf[1] % 128 else FromBe(buf[2..2 + ExtLen(form)])
  }

  /** What the first bytes of a buffer amount to */
  function Parse(buf: bytes): (v: Verdict)
    ensures v.Ok? ==> Valid(v.frame) && 2 <= v.total <= |buf|
  {
    if |buf| < 2 then NeedMore
    else
      var form := FormOf(buf[1] % 128);
      var masked := buf[1] >= 128;
      var ext := 2 + ExtLen(form);
      var head := ext + if masked then 4 else 0;
      if |buf| < ext then NeedMore
      else if form.Long? && buf[2] >= 128 then Error
      else if |buf| < head then NeedMore
      else if Announced(buf) > MAX_PAYLOAD then Error
      else if |buf| < head + Announced(buf) then NeedMore
      else
        FromBeBound(buf[2..ext]);
        var payload := Mask(buf[head..head + Announced(buf)], buf[ext..head]);
        Ok(Frame(buf[0], form, buf[ext..head], payload), head + Announced(buf))
  }

  lemma {:induction false} FromBeBound(s: bytes)
    ensures FromBe(s) < Pow256(|s|)
  {
    if s != [] {
      FromBeBound(s[..|s| - 1]);
    }
  }

  lemma {:induction false} ToBeOfFromBe(s: bytes)
    ensures ToBe(FromBe(s), |s|) == s
  {
    hide ToBe;
    if s == [] {
      assert ToBe(0, 0) == [];
    } else {
      var q, r := FromBe(s[..|s| - 1]), s[|s| - 1];
      ToBeOfFromBe(s[..|s| - 1]);
      ToBeStep(q, r, |s| - 1);
      assert s == s[..|s| - 1] + [r];
    }
  }

  /** What the parser looks at in a header */
  lemma HeaderFields(f: Frame, buf: bytes)
    requires Valid(f) && Header(f) <= buf
    ensures var ext := 2 + ExtLen(f.form);
      && buf[0] == f.first && (buf[1] >= 128) == (f.key != []) && FormOf(buf[1] % 128) == f.form
      && (f.form.Short? ==> buf[1] % 128 == |f.payload|)
      && buf[2..ext] == ToBe(|f.payload|, ExtLen(f.form))
      && buf[ext..ext + |f.key|] == f.key
      && (f.form.Long? ==> buf[2] == 0)
  {
    hide ToBe;
    var ext := 2 + ExtLen(f.form);
    var h := Header(f);
    assert h[2..ext] == ToBe(|f.payload|, ExtLen(f.form));
    assert h[ext..ext + |f.key|] == f.key;
    assert buf[2..ext] == h[2..ext];
    assert buf[ext..ext + |f.key|] == h[ext..ext + |f.key|];
    if f.form.Long? {
      SmallTopByte(|f.payload|);
      assert buf[2] == h[2..ext][0];
    }
  }

  lemma AnnouncedIs(f: Frame, buf: bytes)
    requires Valid(f) && Header(f) <= buf
    ensures FormOf(buf[1] % 128) == f.form && Announced(buf) == |f.payload|
  {
    hide ToBe, FromBe, Header;
    HeaderFields(f, buf);
    assert Pow256(2) == 0x1_0000 && Pow256(8) == 0x1_0000_0000_0000_0000;
    if !f.form.Short? {
      BeRoundTrip(|f.payload|, ExtLen(f.form));
    }
  }

  /** The parser reads back every frame, whatever follows it: any opcode, any of the length
      forms that fit, masked or not. */
  lemma ParseWire(f: Frame, rest: bytes)
    requires Valid(f)
    ensures Parse(Wire(f) + rest) == Ok(f, |Wire(f)|)
  {
    hide ToBe, FromBe, Header, Announced, FormOf, Mask;
    var buf := Wire(f) + rest;
    HeaderFields(f, buf);
    AnnouncedIs(f, buf);
    var head := |Header(f)|;
    assert buf[head..head + |f.payload|] == Mask(f.payload, f.key);
    MaskTwice(f.payload, f.key);
  }

  lemma SmallTopByte(n: nat)
    requires n <= MAX_PAYLOAD
    ensures ToBe(n, 8)[0] == 0
  {
    ToBeOfSum(0, 4, n, 4);
    assert Pow256(4) == 0x1_0000_0000;
    assert ToBe(n, 8) == ToBe(0, 4) + ToBe(n, 4);
    assert ToBe(0, 4)[0] == 0 by {
      ToBeZero(4);
    }
  }

  lemma {:induction false} ToBeZero(k: nat)
    ensures ToBe(0, k) == Fill(k, 0)
  {
    if k > 0 {
      ToBeZero(k - 1);
    }
  }

  /** And it accepts nothing else: what it consumes is the wire form of what it reports. */
  lemma ParsedIsWire(buf: bytes)
    requires Parse(buf).Ok?
    ensures Wire(Parse(buf).frame) == buf[..Parse(buf).total]
  {
    hide ToBe, FromBe, Mask;
    var f := Parse(buf).frame;
    var ext := 2 + ExtLen(f.form);
    var head := ext + |f.key|;
    if !f.form.Short? {
      ToBeOfFromBe(buf[2..ext]);
    }
    assert ToBe(|f.payload|, ExtLen(f.form)) == buf[2..ext] by {
      if f.form.Short? {
        assert ToBe(|f.payload|, 0) == [];
      }
    }
    MaskTwice(buf[head..head + |f.payload|], f.key);
    assert Header(f) == buf[..head];
    assert buf[..head + |f.payload|] == buf[..head] + buf[head..head + |f.payload|];
  }

  /** More bytes never change an Ok or an Error. */
  lemma ParseIsStable(buf: bytes, more: bytes)
    requires !Parse(buf).NeedMore?
    ensures Parse(buf + more) == Parse(buf)
  {
    hide FromBe, Mask, Valid;
    var ext := 2 + ExtLen(FormOf(buf[1] % 128));
    var head := ext + if buf[1] >= 128 then 4 else 0;
    if |buf| >= head {
      assert (buf + more)[2..ext] == buf[2..ext];
      assert (buf + more)[ext..head] == buf[ext..head];
      var n := Announced(buf);
      if |buf| >= head + n {
        assert (buf + more)[head..head + n] == buf[head..head + n];
      }
    }
  }

  // ------------------------------------------------------------- streams of frames

  /** All complete frames at the front of a buffer, and what is left: the bytes of an
      incomplete frame, or a faulty header. */
  datatype Stream = Stream(frames: seq<Frame>, rest: bytes)

  function Split(buf: bytes): (s: Stream)
    ensures !Parse(s.rest).Ok?
    decreases |buf|
  {
    var v := Parse(buf);
    if !v.Ok? then Stream([], buf)
    else
      var s := Split(buf[v.total..]);
      Stream([v.frame] + s.frames, s.rest)
  }

  function Join(frames: seq<Frame>): bytes
    requires forall f :: f in frames ==> Valid(f)
  {
    if frames == [] then [] else Wire(frames[0]) + Join(frames[1..])
  }

  /** The frames found are exactly what was consumed. */
  lemma {:induction false} SplitIsExact(buf: bytes)
    ensures var s := Split(buf);
      && (forall f :: f in s.frames ==> Valid(f))
      && buf == Join(s.frames) + s.rest
    decreases |buf|
  {
    hide Parse, Wire, Valid;
    var v := Parse(buf);
    if v.Ok? {
      ParsedIsWire(buf);
      SplitIsExact(buf[v.total..]);
      var s := Split(buf[v.total..]);
      assert ([v.frame] + s.frames)[1..] == s.frames;
      assert buf == buf[..v.total] + buf[v.total..];
    }
  }

  /** Any sequence of frames is read back from its concatenation, so different sequences are
      different streams. */
  lemma {:induction false} SplitOfJoin(frames: seq<Frame>, rest: bytes)
    requires forall f :: f in frames ==> Valid(f)
    requires !Parse(rest).Ok?
    ensures Split(Join(frames) + rest) == Stream(frames, rest)
  {
    hide Parse, Wire, Valid;
    if frames == [] {
      assert Join(frames) + rest == rest;
    } else {
      var tail := Join(frames[1..]) + rest;
      assert Join(frames) + rest == Wire(frames[0]) + tail;
      ParseWire(frames[0], tail);
      assert (Wire(frames[0]) + tail)[|Wire(frames[0])|..] == tail;
      SplitOfJoin(frames[1..], rest);
    }
  }

  lemma StreamsAreUnique(fs: seq<Frame>, gs: seq<Frame>)
    requires forall f :: f in fs ==> Valid(f)
    requires forall g :: g in gs ==> Valid(g)
    requires Join(fs) == Join(gs)
    ensures fs == gs
  {
    SplitOfJoin(fs, []);
    SplitOfJoin(gs, []);
    assert Join(fs) + [] == Join(fs) && Join(gs) + [] == Join(gs);
  }

  /** However a stream is cut in two, the frames of the first part and then those of what was
      left over with the second part are the frames of the whole. */
  lemma {:induction false} SplitInPieces(a: bytes, b: bytes)
    requires !Parse(Split(a).rest).Error?
    ensures var s, t := Split(a), Split(Split(a).rest + b);
      Split(a + b) == Stream(s.frames + t.frames, t.rest)
    decreases |a|
  {
    hide Parse, Wire, Valid;
    var v := Parse(a);
    if v.Ok? {
      ParseIsStable(a, b);
      assert (a + b)[v.total..] == a[v.total..] + b;
      SplitInPieces(a[v.total..], b);
      var s, t := Split(a[v.total..]), Split(Split(a).rest + b);
      assert [v.frame] + (s.frames + t.frames) == [v.frame] + s.frames + t.frames;
    } else {
      assert forall t: seq<Frame> :: [] + t == t;
    }
  }

  // --------------------------------------------------------------- class Websocket_Request

  lemma {:induction false} FromBeFront(s: bytes)
    requires s != []
    ensures FromBe(s) == s[0] * Pow256(|s| - 1) + FromBe(s[1..])
  {
    if |s| > 1 {
      var front := s[..|s| - 1];
      FromBeFront(front);
      assert s[1..][..|s| - 2] == front[1..];
      OutOfProduct(s[0], Pow256(|s| - 2));
    }
  }

  lemma OutOfProduct(a: nat, p: nat)
    ensures 256 * (a * p) == a * (256 * p)
  {
  }

  lemma TopBit(s: bytes)
    requires |s| == 8
    ensures FromBe(s) >= 0x8000_0000_0000_0000 <==> s[0] >= 128
  {
    assert Pow256(7) == 0x100_0000_0000_0000;
    FromBeFront(s);
    FromBeBound(s[1..]);
  }

  datatype Status = NEED_MORE | PARSE_OK | PARSE_ERROR

  function StatusOf(v: Verdict): Status {
    match v
    case NeedMore => NEED_MORE
    case Error => PARSE_ERROR
    case Ok(_, _) => PARSE_OK
  }

  lemma MaskNone(data: bytes)
    ensures Mask(data, []) == data
  {
  }

  class Request {
    var fin: bool
    var opcode: nat
    var mask: bool
    var maskingKey: bytes
    var payload: bytes

    constructor ()
    {
      fin, opcode, mask, maskingKey, payload := false, 0, false, Fill(4, 0), [];
    }

    /** The fields hold the frame. */
    ghost predicate Holds(f: Frame)
      reads this
    {
      fin == f.Fin() && opcode == f.Opcode() && payload == f.payload
    }

    /** The 64-bit length, byte by byte */
    method LongLength(buf: bytes) returns (ext: nat)
      requires |buf| >= 10
      ensures ext == FromBe(buf[2..10])
    {
      ext := 0;
      for i := 0 to 8
        invariant ext == FromBe(buf[2..2 + i])
      {
        assert buf[2..3 + i] == buf[2..2 + i] + [buf[2 + i]];
        ext := ext * 256 + buf[2 + i];
      }
    }

    method Unmask(src: bytes, key: bytes) returns (data: bytes)
      requires |key| == 4
      ensures data == Mask(src, key)
      ensures |data| == |src|
      ensures forall i, j: nat :: 0 <= i < |src| && j < 8 ==>
                Bit(data[i], j) == if Bit(src[i], j) == Bit(key[i % 4], j) then 0 else 1
    {
      hide Xor, Bit;
      var out := new byte[|src|](_ => 0);
      for i := 0 to |src|
        invariant forall k :: 0 <= k < i ==> out[k] == Xor(src[k], key[k % 4])
      {
        out[i] := Xor(src[i], key[i % 4]);
      }
      data := out[..];
      forall i, j: nat | 0 <= i < |src| && j < 8
        ensures Bit(data[i], j) == if Bit(src[i], j) == Bit(key[i % 4], j) then 0 else 1
      {
        XorIsBitwise(src[i], key[i % 4]);
      }
    }

    /** try_consume_frame: the verdict is that of the specification, a complete frame ends up
        in the fields and leaves the buffer. */
    method TryConsumeFrame(buf: bytes) returns (status: Status, rest: bytes)
      modifies this
      ensures status == StatusOf(Parse(buf))
      ensures rest == if status == PARSE_OK then buf[Parse(buf).total..] else buf
      ensures status == PARSE_OK ==> Holds(Parse(buf).frame)
    {
      hide Mask, FromBe, Xor, Bit;
      rest := buf;
      if |buf| < 2 {
        return NEED_MORE, rest;
      }
      fin, opcode, mask := buf[0] >= 128, buf[0] % 16, buf[1] >= 128;
      var len7 := buf[1] % 128;
      var headerLen, payloadLen := 2, 0;
      if len7 < 126 {
        payloadLen := len7;
      } else if len7 == 126 {
        if |buf| < 4 {
          return NEED_MORE, rest;
        }
        payloadLen := FromBe(buf[2..4]);
        headerLen := 4;
      } else {
        if |buf| < 10 {
          return NEED_MORE, rest;
        }
        payloadLen := LongLength(buf);
        TopBit(buf[2..10]);
        if payloadLen >= 0x8000_0000_0000_0000 {
          return PARSE_ERROR, rest;
        }
        headerLen := 10;
      }
      if mask {
        if |buf| < headerLen + 4 {
          return NEED_MORE, rest;
        }
        maskingKey := buf[headerLen..headerLen + 4];
        headerLen := headerLen + 4;
      } else {
        maskingKey := Fill(4, 0);
      }
      if payloadLen > MAX_PAYLOAD {
        return PARSE_ERROR, rest;
      }
      var total := headerLen + payloadLen;
      if |buf| < total {
        return NEED_MORE, rest;
      }
      if mask {
        payload := Unmask(buf[headerLen..total], maskingKey);
      } else {
        payload := buf[headerLen..total];
        MaskNone(payload);
      }
      status, rest := PARSE_OK, buf[total..];
    }
  }

  // ---------------------------------------------------------------------- pack_data

  const FIN: byte := 128

  /** The shortest form of the length that fits */
  function FormFor(n: nat): Form { if n < 126 then Short else if n <= 0xFFFF then Medium else Long }

  /** The frame the server sends: final, unmasked, with the length as short as it can be */
  function Packed(opcode: byte, message: bytes): (f: Frame)
    requires |message| <= MAX_PAYLOAD
    ensures Valid(f)
  {
    Frame(FIN + opcode % 16, FormFor(|message|), [], message)
  }

  /** One more than the largest size_t */
  const SIZE_LIMIT: nat := 0x1_0000_0000_0000_0000

  /** The bytes pack_data writes. With the mask bit set there is still no key, and the payload
      is not masked. */
  function PackedBytes(first: byte, masked: bool, message: bytes): bytes {
    var form := FormFor(|message|);
    var code := match form case Short => |message| case Medium => 126 case Long => 127;
    [first, (if masked then 128 else 0) + code] + ToBe(|message|, ExtLen(form)) + message
  }

  /** The parser reads an unmasked packed frame back, with or without FIN; a message over the
      limit makes it give up; and a frame packed with the mask bit stays incomplete, because the
      key it announces is missing. */
  lemma PackedIsRead(first: byte, masked: bool, message: bytes, rest: bytes)
    requires |message| < SIZE_LIMIT
    ensures var w := PackedBytes(first, masked, message);
      && (|message| > 1024 * 1024 ==> Parse(w + rest).Error?)
      && (|message| <= 1024 * 1024 && !masked ==>
            Parse(w + rest) == Ok(Frame(first, FormFor(|message|), [], message), |w|))
      && (|message| <= 1024 * 1024 && masked ==> Parse(w).NeedMore?)
  {
    hide ToBe, FromBe, Mask;
    var w, n := PackedBytes(first, masked, message), |message|;
    if n > MAX_PAYLOAD {
      PackedHeader(first, masked, message, rest);
    } else if masked {
      PackedHeader(first, masked, message, []);
      assert w + [] == w;
    } else {
      var f := Frame(first, FormFor(n), [], message);
      MaskNone(message);
      assert w == Wire(f);
      ParseWire(f, rest);
    }
  }

  lemma PackedHeader(first: byte, masked: bool, message: bytes, rest: bytes)
    requires |message| < SIZE_LIMIT
    ensures var buf := PackedBytes(first, masked, message) + rest;
      && (buf[1] >= 128 <==> masked) && FormOf(buf[1] % 128) == FormFor(|message|)
      && Announced(buf) == |message|
      && (|message| <= MAX_PAYLOAD && FormFor(|message|).Long? ==> buf[2] == 0)
  {
    hide ToBe, FromBe;
    var buf, n, form := PackedBytes(first, masked, message) + rest, |message|, FormFor(|message|);
    assert buf[2..2 + ExtLen(form)] == ToBe(n, ExtLen(form));
    PowersOf256();
    if !form.Short? {
      BeRoundTrip(n, ExtLen(form));
    }
    if n <= MAX_PAYLOAD && form.Long? {
      SmallTopByte(n);
      assert buf[2] == buf[2..10][0];
    }
  }

  lemma PowersOf256()
    ensures Pow256(2) == 0x1_0000 && Pow256(8) == SIZE_LIMIT
  {
    assert Pow256(4) == 0x1_0000_0000;
  }

  lemma PackedIsWire(opcode: byte, message: bytes)
    requires |message| <= MAX_PAYLOAD
    ensures PackedBytes(FIN + opcode % 16, false, message) == Wire(Packed(opcode, message))
  {
    hide ToBe;
    MaskNone(message);
  }

  /** pack_data. `fin` and `mask` are shifted into the top bit of a byte, so their lowest bits
      count. */
  method PackData(message: bytes, fin: byte, opcode: byte, mask: byte) returns (out: bytes)
    ensures out == PackedBytes(fin % 2 * 128 + opcode % 16, mask % 2 == 1, message)
    ensures |message| <= MAX_PAYLOAD && fin == 1 && mask == 0 ==> out == Wire(Packed(opcode, message))
  {
    hide ToBe, Wire, Packed;
    var hdr := 2;
    if |message| < 126 {
    } else if |message| <= 0xFFFF {
      hdr := 4;
    } else {
      hdr := 10;
    }
    var buf := new byte[hdr + |message|](_ => 0);
    buf[0] := fin % 2 * 128 + opcode % 16;
    buf[1] := mask % 2 * 128;
    out := PackLength(buf, message);
    if |message| <= MAX_PAYLOAD {
      PackedIsWire(opcode, message);
    }
  }

  /** The second half of pack_data, given the first two bytes without the length */
  method PackLength(buf: array<byte>, message: bytes) returns (out: bytes)
    requires buf.Length == 2 + ExtLen(FormFor(|message|)) + |message| && buf[1] in {0, 128}
    modifies buf
    ensures out == PackedBytes(old(buf[0]), old(buf[1]) == 128, message)
  {
    hide ToBe;
    ghost var first, second := buf[0], buf[1];
    if |message| < 126 {
      buf[1] := buf[1] + |message|;
      CopyInto(buf, 2, message);
      NoBytes(|message|);
    } else if |message| <= 0xFFFF {
      buf[1] := buf[1] + 126;
      CopyInto(buf, 2, ToBe(|message|, 2));
      CopyInto(buf, 4, message);
    } else {
      buf[1] := buf[1] + 127;
      WriteLength(buf, |message|);
      CopyInto(buf, 10, message);
    }
    out := buf[..];
    assert out == PackedBytes(first, second == 128, message);
  }

  const HELLO: bytes := [0x48, 0x65, 0x6c, 0x6c, 0x6f]
  const EXAMPLE_KEY: bytes := [0x37, 0xfa, 0x21, 0x3d]

  lemma MaskedHello()
    ensures Mask(HELLO, EXAMPLE_KEY) == [0x7f, 0x9f, 0x4d, 0x51, 0x58]
  {
    hide Xor;
    FirstThree();
    Fourth();
    Fifth();
    var m := Mask(HELLO, EXAMPLE_KEY);
    assert m == [m[0], m[1], m[2], m[3], m[4]];
  }

  lemma FirstThree()
    ensures Xor(0x48, 0x37) == 0x7f && Xor(0x65, 0xfa) == 0x9f && Xor(0x6c, 0x21) == 0x4d
  {
  }

  lemma Fourth()
    ensures Xor(0x6c, 0x3d) == 0x51
  {
  }

  lemma Fifth()
    ensures Xor(0x6f, 0x37) == 0x58
  {
  }

  /** The examples of section 5.7 of RFC 6455: an unmasked and a masked text frame, a ping and
      its masked pong, and messages of 256 bytes and 64 KiB */
  lemma ExamplesOfTheRfc(kb: bytes, kb64: bytes)
    requires |kb| == 256 && |kb64| == 65536
    ensures Wire(Packed(1, HELLO)) == [0x81, 0x05, 0x48, 0x65, 0x6c, 0x6c, 0x6f]
    ensures Parse([0x81, 0x85, 0x37, 0xfa, 0x21, 0x3d, 0x7f, 0x9f, 0x4d, 0x51, 0x58])
         == Ok(Frame(0x81, Short, EXAMPLE_KEY, HELLO), 11)
    ensures Parse([0x89, 0x05, 0x48, 0x65, 0x6c, 0x6c, 0x6f]) == Ok(Frame(0x89, Short, [], HELLO), 7)
    ensures Parse([0x8a, 0x85, 0x37, 0xfa, 0x21, 0x3d, 0x7f, 0x9f, 0x4d, 0x51, 0x58])
         == Ok(Frame(0x8a, Short, EXAMPLE_KEY, HELLO), 11)
    ensures Wire(Packed(2, kb)) == [0x82, 0x7e, 0x01, 0x00] + kb
    ensures Wire(Packed(2, kb64)) == [0x82, 0x7f, 0, 0, 0, 0, 0, 1, 0, 0] + kb64
  {
    hide Mask, ToBe, Parse;
    MaskedHello();
    MaskNone(HELLO);
    MaskNone(kb);
    MaskNone(kb64);
    NoBytes(5);
    LengthsOfTheRfc();
    var f, g, h := Frame(0x81, Short, EXAMPLE_KEY, HELLO), Frame(0x89, Short, [], HELLO), Frame(0x8a, Short, EXAMPLE_KEY, HELLO);
    assert Wire(f) + [] == [0x81, 0x85, 0x37, 0xfa, 0x21, 0x3d, 0x7f, 0x9f, 0x4d, 0x51, 0x58];
    assert Wire(g) + [] == [0x89, 0x05, 0x48, 0x65, 0x6c, 0x6c, 0x6f];
    assert Wire(h) + [] == [0x8a, 0x85, 0x37, 0xfa, 0x21, 0x3d, 0x7f, 0x9f, 0x4d, 0x51, 0x58];
    ParseWire(f, []);
    ParseWire(g, []);
    ParseWire(h, []);
  }

  lemma LengthsOfTheRfc()
    ensures ToBe(256, 2) == [1, 0] && ToBe(65536, 8) == [0, 0, 0, 0, 0, 1, 0, 0]
  {
    hide ToBe;
    NoBytes(0);
    ToBeStep(0, 0, 0);
    ToBeStep(0, 0, 1);
    ToBeStep(0, 0, 2);
    ToBeStep(0, 0, 3);
    ToBeStep(0, 0, 4);
    ToBeStep(0, 1, 0);
    ToBeStep(1, 0, 1);
    ToBeStep(0, 1, 5);
    ToBeStep(1, 0, 6);
    ToBeStep(256, 0, 7);
  }

  lemma NoBytes(n: nat)
    ensures ToBe(n, 0) == []
  {
  }

  /** `buf[2 + i] = (v >> (56 - i * 8)) & 0xFF` */
  method WriteLength(buf: array<byte>, v: nat)
    requires buf.Length >= 10
    modifies buf
    ensures buf[..2] == old(buf[..2]) && buf[2..10] == ToBe(v, 8) && buf[10..] == old(buf[10..])
  {
    for i := 0 to 8
      invariant buf[..2] == old(buf[..2]) && buf[10..] == old(buf[10..])
      invariant buf[2..2 + i] == ToBe(v, 8)[..i]
    {
      ToBeAt(v, 8, i);
      buf[2 + i] := v / Pow256(7 - i) % 256;
    }
  }
}

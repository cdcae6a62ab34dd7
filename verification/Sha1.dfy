/** The SHA-1 digest of FIPS PUB 180-1, computed over a message that arrives in pieces. */
module Sha1 {
  import opened Bits
  import opened BlockHash
  import opened Bytes
  import opened Words

  // ------------------------------------------------- sections 5 to 7: one block

  datatype Regs = Regs(a: word, b: word, c: word, d: word, e: word)

  /** The function of step `t` */
  function F(t: nat, b: word, c: word, d: word): word {
    if t < 20 then Or(And(b, c), And(Not(b), d))
    else if t < 40 then Xor(Xor(b, c), d)
    else if t < 60 then Or(Or(And(b, c), And(b, d)), And(c, d))
    else Xor(Xor(b, c), d)
  }

  /** The functions of section 5 bit by bit: "if B then C else D", the parity of the three, their
      majority, and the parity again */
  lemma StepFunctionBitwise(t: nat, b: word, c: word, d: word, j: nat)
    requires j < 32
    ensures t < 20 ==> Bit(F(t, b, c, d), j) == if Bit(b, j) == 1 then Bit(c, j) else Bit(d, j)
    ensures 20 <= t < 40 || 60 <= t ==> Bit(F(t, b, c, d), j) == (Bit(b, j) + Bit(c, j) + Bit(d, j)) % 2
    ensures 40 <= t < 60 ==> Bit(F(t, b, c, d), j) == if Bit(b, j) + Bit(c, j) + Bit(d, j) >= 2 then 1 else 0
  {
    hide And, Or, Xor, Not;
    NotAt(b, j);
    AndAt(b, c, j);
    AndAt(Not(b), d, j);
    OrAt(And(b, c), And(Not(b), d), j);
    XorAt(b, c, j);
    XorAt(Xor(b, c), d, j);
    AndAt(b, d, j);
    AndAt(c, d, j);
    OrAt(And(b, c), And(b, d), j);
    OrAt(Or(And(b, c), And(b, d)), And(c, d), j);
  }

  /** The constant of step `t` */
  function K(t: nat): word {
    if t < 20 then 0x5A827999 else if t < 40 then 0x6ED9EBA1 else if t < 60 then 0x8F1BBCDC else 0xCA62C1D6
  }

  /** Word `t` of a block, most significant byte first */
  function Word(b: Block, t: nat): word
    requires t < 16
  {
    0x100_0000 * b[4 * t] as int + 0x1_0000 * b[4 * t + 1] as int + 0x100 * b[4 * t + 2] as int + b[4 * t + 3] as int
  }

  /** The message schedule */
  ghost function Schedule(b: Block, t: nat): word {
    if t < 16 then Word(b, t)
    else RotateLeft(Xor(Xor(Xor(Schedule(b, t - 3), Schedule(b, t - 8)), Schedule(b, t - 14)), Schedule(b, t - 16)), 1)
  }

  function Step(t: nat, w: word, r: Regs): Regs {
    Regs(Add(Add(Add(Add(RotateLeft(r.a, 5), F(t, r.b, r.c, r.d)), r.e), w), K(t)), r.a, RotateLeft(r.b, 30), r.c, r.d)
  }

  /** The registers after `t` steps */
  ghost function Steps(t: nat, b: Block, r: Regs): Regs {
    if t == 0 then r else Step(t - 1, Schedule(b, t - 1), Steps(t - 1, b, r))
  }

  lemma NoSteps(b: Block, r: Regs)
    ensures Steps(0, b, r) == r
  {
  }

  lemma OneStep(t: nat, b: Block, r: Regs)
    ensures Steps(t + 1, b, r) == Step(t, Schedule(b, t), Steps(t, b, r))
  {
  }

  function Sum(r: Regs, s: Regs): Regs {
    Regs(Add(r.a, s.a), Add(r.b, s.b), Add(r.c, s.c), Add(r.d, s.d), Add(r.e, s.e))
  }

  /** All 80 steps */
  ghost function Compress(r: Regs, b: Block): Regs { Sum(r, Steps(|b| + 16, b, r)) }

  /** The words of the schedule, each from those before it */
  method MakeSchedule(b: Block) returns (schedule: seq<word>)
    ensures |schedule| == 80
    ensures forall t :: 0 <= t < 80 ==> schedule[t] == Schedule(b, t)
  {
    hide Word, RotateLeft, Xor;
    var w := new word[80](_ => 0);
    for t := 0 to 16
      invariant forall i :: 0 <= i < t ==> w[i] == Schedule(b, i)
    {
      w[t] := Word(b, t);
    }
    for t := 16 to 80
      invariant forall i :: 0 <= i < t ==> w[i] == Schedule(b, i)
    {
      w[t] := RotateLeft(Xor(Xor(Xor(w[t - 3], w[t - 8]), w[t - 14]), w[t - 16]), 1);
    }
    schedule := w[..];
  }

  /** The four loops over A to E */
  method RunSteps(b: Block, h: Regs) returns (r: Regs)
    ensures r == Steps(80, b, h)
  {
    hide Steps, Schedule, RotateLeft, And, Or, Xor, Not, Add;
    NoSteps(b, h);
    var w := MakeSchedule(b);
    var A, B, C, D, E := h.a, h.b, h.c, h.d, h.e;
    for t := 0 to 20
      invariant Regs(A, B, C, D, E) == Steps(t, b, h)
    {
      OneStep(t, b, h);
      var temp := Add(Add(Add(Add(RotateLeft(A, 5), Or(And(B, C), And(Not(B), D))), E), w[t]), 0x5A827999);
      A, B, C, D, E := temp, A, RotateLeft(B, 30), C, D;
    }
    for t := 20 to 40
      invariant Regs(A, B, C, D, E) == Steps(t, b, h)
    {
      OneStep(t, b, h);
      var temp := Add(Add(Add(Add(RotateLeft(A, 5), Xor(Xor(B, C), D)), E), w[t]), 0x6ED9EBA1);
      A, B, C, D, E := temp, A, RotateLeft(B, 30), C, D;
    }
    for t := 40 to 60
      invariant Regs(A, B, C, D, E) == Steps(t, b, h)
    {
      OneStep(t, b, h);
      var temp := Add(Add(Add(Add(RotateLeft(A, 5), Or(Or(And(B, C), And(B, D)), And(C, D))), E), w[t]), 0x8F1BBCDC);
      A, B, C, D, E := temp, A, RotateLeft(B, 30), C, D;
    }
    for t := 60 to 80
      invariant Regs(A, B, C, D, E) == Steps(t, b, h)
    {
      OneStep(t, b, h);
      var temp := Add(Add(Add(Add(RotateLeft(A, 5), Xor(Xor(B, C), D)), E), w[t]), 0xCA62C1D6);
      A, B, C, D, E := temp, A, RotateLeft(B, 30), C, D;
    }
    r := Regs(A, B, C, D, E);
  }

  // ------------------------------------------------------------- the whole message

  const INITIAL: Regs := Regs(0x67452301, 0xEFCDAB89, 0x98BADCFE, 0x10325476, 0xC3D2E1F0)

  const TWO64: int := 0x1_0000_0000_0000_0000

  ghost function Hash(m: bytes): Regs
    requires Whole(m)
  {
    Fold(Compress, INITIAL, m)
  }

  lemma HashOne(m: bytes, b: Block)
    requires Whole(m)
    ensures Whole(m + b) && Hash(m + b) == Compress(Hash(m), b)
  {
    FoldOne(Compress, INITIAL, m, b);
  }

  /** The length in bits as two words, high-order word first */
  ghost function BitLength(m: bytes): (l: bytes)
    ensures |l| == 8
  {
    ToBe(8 * |m|, 8)
  }

  ghost function Digest(m: bytes): Regs { Hash(Padded(m, BitLength(m))) }

  lemma WordBytes(w: word)
    ensures ToBe(w, 4) == [w / 0x100_0000 % 256, w / 0x1_0000 % 256, w / 0x100 % 256, w % 256]
  {
    assert ToBe(w, 1 + 3) == ToBe(w / 0x100, 3) + [w % 256];
    assert ToBe(w / 0x100, 1 + 2) == ToBe(w / 0x100 / 0x100, 2) + [w / 0x100 % 256];
    assert ToBe(w / 0x100 / 0x100, 1 + 1) == ToBe(w / 0x100 / 0x100 / 0x100, 1) + [w / 0x100 / 0x100 % 256];
    assert ToBe(w / 0x100 / 0x100 / 0x100, 1) == [] + [w / 0x100 / 0x100 / 0x100 % 256];
  }

  lemma LengthWords(low: word, high: word)
    ensures ToBe(low + WORDS * high, 8) == ToBe(high, 4) + ToBe(low, 4)
  {
    assert Pow256(4) == WORDS;
    ToBeOfSum(high, 4, low, 4);
  }

  /** Where the padded message ends: in this block, or in one more. */
  lemma PaddedBlocks(m: bytes, length: bytes)
    requires |length| == 8
    ensures |Tail(m)| <= 55 ==>
              Padded(m, length) == Head(m) + (Tail(m) + [0x80] + Fill(55 - |Tail(m)|, 0) + length)
    ensures |Tail(m)| > 55 ==>
              Padded(m, length)
              == Head(m) + (Tail(m) + [0x80] + Fill(63 - |Tail(m)|, 0)) + (Fill(56, 0) + length)
  {
    assert m == Head(m) + Tail(m);
    SameZeros(|Tail(m)|, |m|);
    if |Tail(m)| > 55 {
      assert Fill(Zeros(|m|), 0) == Fill(63 - |Tail(m)|, 0) + Fill(56, 0);
    }
  }

  /** class SHA1, with the message it has been given. */
  class Sha1 {
    var h: Regs
    var lengthLow: word
    var lengthHigh: word
    const block: array<byte>
    var index: nat
    var computed: bool
    var corrupted: bool
    ghost var msg: bytes

    ghost predicate Valid()
      reads this, block
    {
      && block.Length == BLOCK && index < BLOCK
      && (!corrupted && !computed ==> Open())
      && (!corrupted && computed ==> h == Digest(msg))
    }

    /** More of the message may come. */
    ghost predicate Open()
      reads this, block
    {
      block.Length == BLOCK && lengthLow + WORDS * lengthHigh == 8 * |msg| && Absorbed(msg)
    }

    /** The whole blocks of `m` are in `h` and the rest of it in the block. */
    ghost predicate Absorbed(m: bytes)
      requires block.Length == BLOCK
      reads `h, `index, block
    {
      index == |Tail(m)| && block[..index] == Tail(m) && h == Hash(Head(m))
    }

    lemma Nothing()
      ensures Hash([]) == INITIAL && Head([]) == [] && Tail([]) == []
    {
    }

    constructor ()
      ensures Valid() && msg == [] && !computed && !corrupted && fresh(block)
    {
      hide Hash, Head, Digest;
      block := new byte[64](_ => 0);
      h := Regs(0x67452301, 0xEFCDAB89, 0x98BADCFE, 0x10325476, 0xC3D2E1F0);
      lengthLow, lengthHigh, index := 0, 0, 0;
      computed, corrupted := false, false;
      msg := [];
      new;
      Nothing();
    }

    method Reset()
      requires Valid()
      modifies this
      ensures Valid() && msg == [] && !computed && !corrupted
    {
      hide Hash, Head, Digest;
      Nothing();
      h := Regs(0x67452301, 0xEFCDAB89, 0x98BADCFE, 0x10325476, 0xC3D2E1F0);
      lengthLow, lengthHigh, index := 0, 0, 0;
      computed, corrupted := false, false;
      msg := [];
    }

    method ProcessMessageBlock()
      requires block.Length == BLOCK
      modifies this`h, this`index
      ensures h == Compress(old(h), block[..]) && index == 0
    {
      hide Step, Schedule;
      var r := RunSteps(block[..], h);
      h := Sum(h, r);
      index := 0;
    }

    /** Stores one byte and processes the block once it is full. */
    method PutByte(b: byte)
      requires block.Length == BLOCK && Absorbed(msg)
      modifies `h, `index, `msg, block
      ensures Absorbed(msg) && index < BLOCK && msg == old(msg) + [b]
    {
      hide Compress, Hash;
      ghost var whole, rest := Head(msg), Tail(msg) + [b];
      block[index] := b;
      index := index + 1;
      msg := msg + [b];
      assert msg == whole + rest && block[..index] == rest;
      if index == 64 {
        assert block[..index] == block[..];
        HashOne(whole, block[..]);
        ProcessMessageBlock();
        WholeMessage(msg);
      } else {
        HeadAndTail(whole, rest);
      }
    }

    /** Adds 8 to the two words of the length; wrapping around means the message is too long. */
    method CountByte(ghost n: nat)
      requires lengthLow + WORDS * lengthHigh == 8 * n && !corrupted
      modifies `lengthLow, `lengthHigh, `corrupted
      ensures corrupted == (8 * (n + 1) >= TWO64)
      ensures !corrupted ==> lengthLow + WORDS * lengthHigh == 8 * (n + 1)
    {
      assert lengthLow == 8 * (n - 0x2000_0000 * lengthHigh);
      lengthLow := (lengthLow + 8) % WORDS;
      if lengthLow == 0 {
        lengthHigh := (lengthHigh + 1) % WORDS;
        if lengthHigh == 0 {
          corrupted := true;
        }
      }
    }

    /** Input */
    method Input(data: bytes)
      requires Valid()
      modifies this, block
      ensures Valid() && computed == old(computed)
      ensures corrupted == (old(corrupted) || (data != [] && (computed || 8 * (|old(msg)| + |data|) >= TWO64)))
      ensures !corrupted ==> msg == old(msg) + data
    {
      hide Absorbed, Digest;
      if data == [] {
        return;
      }
      if computed || corrupted {
        corrupted := true;
        return;
      }
      var at := 0;
      while at < |data| && !corrupted
        invariant at <= |data| && Valid() && !computed
        invariant msg == old(msg) + data[..at]
        invariant corrupted ==> 8 * (|old(msg)| + |data|) >= TWO64
        invariant !corrupted ==> 8 * |msg| < TWO64
      {
        CountByte(|msg|);
        PutByte(data[at]);
        assert data[..at + 1] == data[..at] + [data[at]];
        at := at + 1;
      }
    }

    /** `while (Message_Block_Index < end) Message_Block[Message_Block_Index++] = 0` */
    method ZeroFill(end: nat)
      requires index <= end <= block.Length
      modifies `index, block
      ensures index == end && block[..end] == old(block[..index]) + Fill(end - old(index), 0)
    {
      while index < end
        invariant old(index) <= index <= end
        invariant block[..index] == old(block[..index]) + Fill(index - old(index), 0)
      {
        block[index] := 0;
        index := index + 1;
      }
    }

    /** The message length goes into the last 8 bytes of the block. */
    method StoreLength()
      requires block.Length == BLOCK && lengthLow + WORDS * lengthHigh == 8 * |msg|
      modifies block
      ensures block[..] == old(block[..56]) + BitLength(msg)
    {
      LengthWords(lengthLow, lengthHigh);
      WordBytes(lengthHigh);
      WordBytes(lengthLow);
      block[56] := lengthHigh / 0x100_0000 % 256;
      block[57] := lengthHigh / 0x1_0000 % 256;
      block[58] := lengthHigh / 0x100 % 256;
      block[59] := lengthHigh % 256;
      block[60] := lengthLow / 0x100_0000 % 256;
      block[61] := lengthLow / 0x1_0000 % 256;
      block[62] := lengthLow / 0x100 % 256;
      block[63] := lengthLow % 256;
      assert block[..] == block[..56] + block[56..60] + block[60..];
    }

    /** PadMessage */
    method PadMessage()
      requires Valid() && !computed && !corrupted
      modifies `h, `index, block
      ensures h == Digest(msg) && index == 0
    {
      hide Compress, Hash, BitLength, Padded;
      PaddedBlocks(msg, BitLength(msg));
      ghost var front := Head(msg);
      if index > 55 {
        block[index] := 0x80;
        index := index + 1;
        ZeroFill(64);
        assert block[..] == Tail(msg) + [0x80] + Fill(63 - |Tail(msg)|, 0);
        HashOne(front, block[..]);
        front := front + block[..];
        ProcessMessageBlock();
        ZeroFill(56);
        assert block[..56] == Fill(56, 0);
      } else {
        block[index] := 0x80;
        index := index + 1;
        ZeroFill(56);
        assert block[..56] == Tail(msg) + [0x80] + Fill(55 - |Tail(msg)|, 0);
      }
      StoreLength();
      HashOne(front, block[..]);
      ProcessMessageBlock();
    }

    /** Result. It can be asked for again: the message it stands for stays what it was. */
    method Result() returns (ok: bool, digest: Regs)
      requires Valid()
      modifies this, block
      ensures Valid() && msg == old(msg) && corrupted == old(corrupted)
      ensures ok == !corrupted
      ensures ok ==> computed && digest == Digest(msg)
    {
      hide Digest;
      ok, digest := false, INITIAL;
      if corrupted {
        return;
      }
      if !computed {
        PadMessage();
        computed := true;
      }
      ok, digest := true, h;
    }
  }

  /** However a message is split into calls of Input, the digest is that of the whole
      message; a message of 2^64 bits or more has none. */
  method DigestOfPieces(pieces: seq<bytes>) returns (ok: bool, digest: Regs)
    ensures ok == (8 * |Join(pieces)| < TWO64)
    ensures ok ==> digest == Digest(Join(pieces))
  {
    hide Digest, Sha1.Absorbed, Compress, Fold;
    var sha := new Sha1();
    for i := 0 to |pieces|
      invariant fresh(sha) && fresh(sha.block)
      invariant sha.Valid() && !sha.computed
      invariant sha.corrupted == (8 * |Join(pieces[..i])| >= TWO64)
      invariant !sha.corrupted ==> sha.msg == Join(pieces[..i])
    {
      assert pieces[..i + 1][..i] == pieces[..i];
      sha.Input(pieces[i]);
    }
    assert pieces[..|pieces|] == pieces;
    ok, digest := sha.Result();
  }
}

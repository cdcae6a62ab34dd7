/** 32-bit words, with the wrap-around of `unsigned`. */
module Words {
  import opened Bits
  import opened Bytes

  const WORDS: nat := 0x1_0000_0000

  type word = x: int | 0 <= x < 0x1_0000_0000

  lemma WordBits()
    ensures Pow2(32) == 0x1_0000_0000
  {
    assert Pow2(8) == 256 && Pow2(16) == 256 * Pow2(8) && Pow2(24) == 256 * Pow2(16) && Pow2(32) == 256 * Pow2(24);
  }

  function OnWords(op: (bool, bool) -> bool, x: word, y: word): word {
    WordBits();
    Bitwise(op, x, y, 32)
  }

  function And(x: word, y: word): word { OnWords((a, b) => a && b, x, y) }
  function Or(x: word, y: word): word { OnWords((a, b) => a || b, x, y) }
  function Xor(x: word, y: word): word { OnWords((a, b) => a != b, x, y) }
  function Not(x: word): word { WORDS - 1 - x }
  function Add(x: word, y: word): word { (x + y) % WORDS }

  /** `(x << s) | (x >> (32 - s))` */
  function RotateLeft(x: word, s: nat): word
    requires 0 < s < 32
  {
    Or(ShiftLeft(x, s), ShiftRight(x, 32 - s))
  }

  function ShiftLeft(x: word, s: nat): word { x * Pow2(s) % WORDS }

  function ShiftRight(x: word, s: nat): word {
    Pow2IsPositive(s);
    QuotientBound(x, Pow2(s));
    x / Pow2(s)
  }

  // --------------------------------------------------------------- what they mean

  /** Each operation works bit by bit. */
  lemma AndAt(x: word, y: word, j: nat)
    requires j < 32
    ensures Bit(And(x, y), j) == if Bit(x, j) == 1 && Bit(y, j) == 1 then 1 else 0
  {
    hide Bit, Bitwise;
    BitwiseAt((a, b) => a && b, x, y, 32, j);
  }

  lemma OrAt(x: word, y: word, j: nat)
    requires j < 32
    ensures Bit(Or(x, y), j) == if Bit(x, j) == 1 || Bit(y, j) == 1 then 1 else 0
  {
    hide Bit, Bitwise;
    BitwiseAt((a, b) => a || b, x, y, 32, j);
  }

  lemma XorAt(x: word, y: word, j: nat)
    requires j < 32
    ensures Bit(Xor(x, y), j) == if Bit(x, j) == Bit(y, j) then 0 else 1
  {
    hide Bitwise;
    BitwiseAt((a, b) => a != b, x, y, 32, j);
  }

  lemma NotAt(x: word, j: nat)
    requires j < 32
    ensures Bit(Not(x), j) == 1 - Bit(x, j)
  {
    hide Bit;
    WordBits();
    ComplementAt(x, 32, j);
  }

  /** Rotating, in integers: what is shifted out on the left comes in on the right. */
  lemma RotateInIntegers(x: word, s: nat)
    requires 0 < s < 32
    ensures Pow2(32 - s) > 0 && RotateLeft(x, s) == x * Pow2(s) % 0x1_0000_0000 + x / Pow2(32 - s)
  {
    hide Bitwise, Pow2;
    WordBits();
    Pow2OfSum(s, 32 - s);
    Pow2IsPositive(s);
    Pow2IsPositive(32 - s);
    var p, r := Pow2(s), Pow2(32 - s);
    ModOfProduct(x, p, r);
    DivBound(x, r, p);
    SumBound(x % r, r, x / r, p);
    OrOfParts(x % r, s, x / r, 32);
  }
}

/** What MD5 and SHA-1 have in common: a message is padded to whole 64-byte blocks and the
    blocks are folded into a state. */
module BlockHash {
  import opened Bytes

  const BLOCK: nat := 64

  type Block = b: bytes | |b| == 64 witness Fill(64, 0)

  ghost predicate Whole(m: bytes) { |m| % BLOCK == 0 }

  ghost function Fold<S>(step: (S, Block) -> S, s: S, m: bytes): S
    requires Whole(m)
    decreases |m|
  {
    if m == [] then s else Fold(step, step(s, m[..BLOCK]), m[BLOCK..])
  }

  /** Blocks can be folded in as they come. */
  lemma {:induction false} FoldSplit<S>(step: (S, Block) -> S, s: S, a: bytes, b: bytes)
    requires Whole(a) && Whole(b)
    ensures Fold(step, s, a + b) == Fold(step, Fold(step, s, a), b)
    decreases |a|
  {
    if a == [] {
      assert a + b == b;
    } else {
      assert (a + b)[..BLOCK] == a[..BLOCK];
      assert (a + b)[BLOCK..] == a[BLOCK..] + b;
      FoldSplit(step, step(s, a[..BLOCK]), a[BLOCK..], b);
    }
  }

  lemma FoldOne<S>(step: (S, Block) -> S, s: S, a: bytes, b: Block)
    requires Whole(a)
    ensures Whole(a + b) && Fold(step, s, a + b) == step(Fold(step, s, a), b)
  {
    FoldSplit(step, s, a, b);
    assert b[..BLOCK] == b && b[BLOCK..] == [];
  }

  /** The whole blocks of a message, and the rest of it. */
  ghost function Head(m: bytes): (h: bytes)
    ensures Whole(h) && |h| <= |m|
  {
    m[..|m| - |m| % BLOCK]
  }

  ghost function Tail(m: bytes): (t: bytes)
    ensures |t| == |m| % BLOCK && m == Head(m) + t
  {
    m[|m| - |m| % BLOCK..]
  }

  lemma HeadAndTail(whole: bytes, rest: bytes)
    requires Whole(whole) && |rest| < BLOCK
    ensures Head(whole + rest) == whole && Tail(whole + rest) == rest
  {
    assert |whole + rest| % BLOCK == |rest|;
  }

  lemma WholeMessage(m: bytes)
    requires Whole(m)
    ensures Head(m) == m && Tail(m) == []
  {
  }

  /** A 1 bit, then 0 bits up to 8 bytes short of a block, then the length. */
  ghost function Padded(m: bytes, length: bytes): (p: bytes)
    requires |length| == 8
    ensures Whole(p)
  {
    m + [0x80] + Fill(Zeros(|m|), 0) + length
  }

  function Zeros(n: nat): nat { (55 - n) % BLOCK }

  lemma SameZeros(a: nat, n: nat)
    requires a % BLOCK == n % BLOCK
    ensures Zeros(a) == Zeros(n)
  {
    assert a == BLOCK * (a / BLOCK) + n % BLOCK;
    assert n == BLOCK * (n / BLOCK) + n % BLOCK;
  }

  /** The padding is as short as can be. */
  lemma ZerosIsLeast(n: nat, k: nat)
    requires (n + 1 + k + 8) % BLOCK == 0
    ensures Zeros(n) <= k && (n + 1 + Zeros(n) + 8) % BLOCK == 0
  {
  }

  /** Padding loses nothing: the length comes back, and with it the message. */
  lemma PaddingIsInjective(m: bytes, length: bytes, m': bytes, length': bytes)
    requires |length| == |length'| == 8 && Padded(m, length) == Padded(m', length')
    ensures length == length'
    ensures |m| == |m'| ==> m == m'
  {
    var p, p' := Padded(m, length), Padded(m', length');
    assert p[|p| - 8..] == length && p'[|p'| - 8..] == length';
    assert p[..|m|] == m && p'[..|m'|] == m';
  }

  function Join(pieces: seq<bytes>): bytes {
    if pieces == [] then [] else Join(pieces[..|pieces| - 1]) + pieces[|pieces| - 1]
  }
}

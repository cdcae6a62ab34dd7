/** The MD5 digest of RFC 1321, computed over a message that arrives in pieces. */
module Md5 {
  import opened Bits
  import opened BlockHash
  import opened Bytes
  import opened Words

  // ------------------------------------------ section 3.4: one block, in four rounds

  datatype Regs = Regs(a: word, b: word, c: word, d: word)

  function F(x: word, y: word, z: word): word { Or(And(x, y), And(Not(x), z)) }
  function G(x: word, y: word, z: word): word { Or(And(x, z), And(y, Not(z))) }
  function H(x: word, y: word, z: word): word { Xor(Xor(x, y), z) }
  function I(x: word, y: word, z: word): word { Xor(y, Or(x, Not(z))) }

  /** One step in integers */
  lemma SetInIntegers(m: word, a: word, b: word, x: word, s: nat, t: word)
    requires 0 < s < 32
    ensures Set(m, a, b, x, s, t) == (b + RotateLeft((a + m + x + t) % 0x1_0000_0000, s)) % 0x1_0000_0000
  {
    hide RotateLeft, Add;
    Sum(a, m);
    SumOfSum(a + m, Add(a, m), x);
    SumOfSum(a + m + x, Add(Add(a, m), x), t);
    Sum(RotateLeft(Add(Add(Add(a, m), x), t), s), b);
  }

  lemma Sum(u: word, v: word)
    ensures Add(u, v) == (u + v) % WORDS
  {
  }

  lemma SumOfSum(u: nat, w: word, v: word)
    requires w == u % WORDS
    ensures Add(w, v) == (u + v) % WORDS
  {
  }

  /** The functions of section 3.4 bit by bit: "if X then Y else Z", "if Z then X else Y", the
      parity of the three, and Y xor (X or not Z) */
  lemma RoundFunctionsBitwise(x: word, y: word, z: word, j: nat)
    requires j < 32
    ensures Bit(F(x, y, z), j) == if Bit(x, j) == 1 then Bit(y, j) else Bit(z, j)
    ensures Bit(G(x, y, z), j) == if Bit(z, j) == 1 then Bit(x, j) else Bit(y, j)
    ensures Bit(H(x, y, z), j) == (Bit(x, j) + Bit(y, j) + Bit(z, j)) % 2
    ensures Bit(I(x, y, z), j) == if (Bit(x, j) == 1 || Bit(z, j) == 0) then 1 - Bit(y, j) else Bit(y, j)
  {
    hide And, Or, Xor, Not;
    NotAt(x, j);
    NotAt(z, j);
    AndAt(x, y, j);
    AndAt(Not(x), z, j);
    OrAt(And(x, y), And(Not(x), z), j);
    AndAt(x, z, j);
    AndAt(y, Not(z), j);
    OrAt(And(x, z), And(y, Not(z)), j);
    XorAt(x, y, j);
    XorAt(Xor(x, y), z, j);
    OrAt(x, Not(z), j);
    XorAt(y, Or(x, Not(z)), j);
  }

  function Among<A>(k: nat, w: A, x: A, y: A, z: A): A {
    if k == 0 then w else if k == 1 then x else if k == 2 then y else z
  }

  /** T[i + 1] of the RFC: the integer part of 4294967296 times abs(sin(i + 1)) */
  function T(i: nat): word
    requires i < 64
  {
    if i < 4 then Among(i % 4, 0xd76aa478, 0xe8c7b756, 0x242070db, 0xc1bdceee)
    else if i < 8 then Among(i % 4, 0xf57c0faf, 0x4787c62a, 0xa8304613, 0xfd469501)
    else if i < 12 then Among(i % 4, 0x698098d8, 0x8b44f7af, 0xffff5bb1, 0x895cd7be)
    else if i < 16 then Among(i % 4, 0x6b901122, 0xfd987193, 0xa679438e, 0x49b40821)
    else if i < 20 then Among(i % 4, 0xf61e2562, 0xc040b340, 0x265e5a51, 0xe9b6c7aa)
    else if i < 24 then Among(i % 4, 0xd62f105d, 0x02441453, 0xd8a1e681, 0xe7d3fbc8)
    else if i < 28 then Among(i % 4, 0x21e1cde6, 0xc33707d6, 0xf4d50d87, 0x455a14ed)
    else if i < 32 then Among(i % 4, 0xa9e3e905, 0xfcefa3f8, 0x676f02d9, 0x8d2a4c8a)
    else if i < 36 then Among(i % 4, 0xfffa3942, 0x8771f681, 0x6d9d6122, 0xfde5380c)
    else if i < 40 then Among(i % 4, 0xa4beea44, 0x4bdecfa9, 0xf6bb4b60, 0xbebfbc70)
    else if i < 44 then Among(i % 4, 0x289b7ec6, 0xeaa127fa, 0xd4ef3085, 0x04881d05)
    else if i < 48 then Among(i % 4, 0xd9d4d039, 0xe6db99e5, 0x1fa27cf8, 0xc4ac5665)
    else if i < 52 then Among(i % 4, 0xf4292244, 0x432aff97, 0xab9423a7, 0xfc93a039)
    else if i < 56 then Among(i % 4, 0x655b59c3, 0x8f0ccc92, 0xffeff47d, 0x85845dd1)
    else if i < 60 then Among(i % 4, 0x6fa87e4f, 0xfe2ce6e0, 0xa3014314, 0x4e0811a1)
    else Among(i % 4, 0xf7537e82, 0xbd3af235, 0x2ad7d2bb, 0xeb86d391)
  }

  /** a = b + ((a + m + x + t) <<< s) */
  function Set(m: word, a: word, b: word, x: word, s: nat, t: word): word
    requires 0 < s < 32
  {
    Add(RotateLeft(Add(Add(Add(a, m), x), t), s), b)
  }

  function Mix(i: nat, r: Regs): word {
    if i < 16 then F(r.b, r.c, r.d) else if i < 32 then G(r.b, r.c, r.d)
    else if i < 48 then H(r.b, r.c, r.d) else I(r.b, r.c, r.d)
  }

  /** Which word of the block step `i` takes */
  function Index(i: nat): (k: nat)
    ensures k < 16
  {
    (if i < 16 then i else if i < 32 then 5 * i + 1 else if i < 48 then 3 * i + 5 else 7 * i) % 16
  }

  /** How far step `i` rotates */
  function Shift(i: nat): (s: nat)
    requires i < 64
    ensures 0 < s < 32
  {
    if i < 16 then Among(i % 4, 7, 12, 17, 22) else if i < 32 then Among(i % 4, 5, 9, 14, 20)
    else if i < 48 then Among(i % 4, 4, 11, 16, 23) else Among(i % 4, 6, 10, 15, 21)
  }

  /** Step `i`, with the registers renamed for the next one */
  ghost function Step(i: nat, x: seq<word>, r: Regs): Regs
    requires i < 64 && |x| == 16
  {
    Regs(r.d, Set(Mix(i, r), r.a, r.b, x[Index(i)], Shift(i), T(i)), r.b, r.c)
  }

  ghost function Steps(n: nat, x: seq<word>, r: Regs): Regs
    requires n <= 64 && |x| == 16
  {
    if n == 0 then r else Step(n - 1, x, Steps(n - 1, x, r))
  }

  lemma NoSteps(x: seq<word>, r: Regs)
    requires |x| == 16
    ensures Steps(0, x, r) == r
  {
  }

  lemma FourSteps(n: nat, x: seq<word>, r: Regs)
    requires n + 4 <= 64 && |x| == 16
    ensures Steps(n + 4, x, r) == Step(n + 3, x, Step(n + 2, x, Step(n + 1, x, Step(n, x, Steps(n, x, r)))))
  {
    hide F, G, H, I, T, Set, Step;
    assert Steps(n + 2, x, r) == Step(n + 1, x, Steps(n + 1, x, r));
    assert Steps(n + 3, x, r) == Step(n + 2, x, Steps(n + 2, x, r));
  }

  /** Word `k` of a block, least significant byte first */
  function Word(b: Block, k: nat): word
    requires k < 16
  {
    b[4 * k] as int + 0x100 * b[4 * k + 1] as int + 0x1_0000 * b[4 * k + 2] as int + 0x100_0000 * b[4 * k + 3] as int
  }

  ghost function WordsOf(b: Block): (x: seq<word>)
    ensures |x| == 16
  {
    seq(16, k requires 0 <= k < 16 => Word(b, k))
  }

  /** All 64 steps */
  ghost function Block64(x: seq<word>, r: Regs): Regs
    requires |x| == 16
  {
    Steps(4 * |x|, x, r)
  }

  ghost function Compress(r: Regs, b: Block): Regs {
    var s := Block64(WordsOf(b), r);
    Regs(Add(r.a, s.a), Add(r.b, s.b), Add(r.c, s.c), Add(r.d, s.d))
  }

  // The constants as the source writes them, those above 2^31 - 1 as complements

  lemma Constants1()
    ensures T(0) == Not(0x28955b87) && T(1) == Not(0x173848a9) && T(2) == 0x242070db && T(3) == Not(0x3e423111)
    ensures T(4) == Not(0x0a83f050) && T(5) == 0x4787c62a && T(6) == Not(0x57cfb9ec) && T(7) == Not(0x02b96afe)
    ensures T(8) == 0x698098d8 && T(9) == Not(0x74bb0850) && T(10) == Not(0x0000a44e) && T(11) == Not(0x76a32841)
    ensures T(12) == 0x6b901122 && T(13) == Not(0x02678e6c) && T(14) == Not(0x5986bc71) && T(15) == 0x49b40821
  {
  }

  lemma Constants2()
    ensures T(16) == Not(0x09e1da9d) && T(17) == Not(0x3fbf4cbf) && T(18) == 0x265e5a51 && T(19) == Not(0x16493855)
    ensures T(20) == Not(0x29d0efa2) && T(21) == 0x02441453 && T(22) == Not(0x275e197e) && T(23) == Not(0x182c0437)
    ensures T(24) == 0x21e1cde6 && T(25) == Not(0x3cc8f829) && T(26) == Not(0x0b2af278) && T(27) == 0x455a14ed
    ensures T(28) == Not(0x561c16fa) && T(29) == Not(0x03105c07) && T(30) == 0x676f02d9 && T(31) == Not(0x72d5b375)
  {
  }

  lemma Constants3()
    ensures T(32) == Not(0x0005c6bd) && T(33) == Not(0x788e097e) && T(34) == 0x6d9d6122 && T(35) == Not(0x021ac7f3)
    ensures T(36) == Not(0x5b4115bb) && T(37) == 0x4bdecfa9 && T(38) == Not(0x0944b49f) && T(39) == Not(0x4140438f)
    ensures T(40) == 0x289b7ec6 && T(41) == Not(0x155ed805) && T(42) == Not(0x2b10cf7a) && T(43) == 0x04881d05
    ensures T(44) == Not(0x262b2fc6) && T(45) == Not(0x1924661a) && T(46) == 0x1fa27cf8 && T(47) == Not(0x3b53a99a)
  {
  }

  lemma Constants4()
    ensures T(48) == Not(0x0bd6ddbb) && T(49) == 0x432aff97 && T(50) == Not(0x546bdc58) && T(51) == Not(0x036c5fc6)
    ensures T(52) == 0x655b59c3 && T(53) == Not(0x70f3336d) && T(54) == Not(0x00100b82) && T(55) == Not(0x7a7ba22e)
    ensures T(56) == 0x6fa87e4f && T(57) == Not(0x01d3191f) && T(58) == Not(0x5cfebceb) && T(59) == 0x4e0811a1
    ensures T(60) == Not(0x08ac817d) && T(61) == Not(0x42c50dca) && T(62) == 0x2ad7d2bb && T(63) == Not(0x14792c6e)
  {
  }

  /** Steps 1 to 16, as the source writes them out. */
  method Round1(x: seq<word>, r0: Regs, r: Regs) returns (r': Regs)
    requires |x| == 16 && r == Steps(0, x, r0)
    ensures r' == Steps(16, x, r0)
  {
    hide F, G, H, I, T, Set, Steps, Not;
    Constants1();
    var a, b, c, d := r.a, r.b, r.c, r.d;
    a := Set(F(b, c, d), a, b, x[0], 7, Not(0x28955b87));
    d := Set(F(a, b, c), d, a, x[1], 12, Not(0x173848a9));
    c := Set(F(d, a, b), c, d, x[2], 17, 0x242070db);
    b := Set(F(c, d, a), b, c, x[3], 22, Not(0x3e423111));
    FourSteps(0, x, r0);
    assert Regs(a, b, c, d) == Steps(4, x, r0);
    a := Set(F(b, c, d), a, b, x[4], 7, Not(0x0a83f050));
    d := Set(F(a, b, c), d, a, x[5], 12, 0x4787c62a);
    c := Set(F(d, a, b), c, d, x[6], 17, Not(0x57cfb9ec));
    b := Set(F(c, d, a), b, c, x[7], 22, Not(0x02b96afe));
    FourSteps(4, x, r0);
    assert Regs(a, b, c, d) == Steps(8, x, r0);
    a := Set(F(b, c, d), a, b, x[8], 7, 0x698098d8);
    d := Set(F(a, b, c), d, a, x[9], 12, Not(0x74bb0850));
    c := Set(F(d, a, b), c, d, x[10], 17, Not(0x0000a44e));
    b := Set(F(c, d, a), b, c, x[11], 22, Not(0x76a32841));
    FourSteps(8, x, r0);
    assert Regs(a, b, c, d) == Steps(12, x, r0);
    a := Set(F(b, c, d), a, b, x[12], 7, 0x6b901122);
    d := Set(F(a, b, c), d, a, x[13], 12, Not(0x02678e6c));
    c := Set(F(d, a, b), c, d, x[14], 17, Not(0x5986bc71));
    b := Set(F(c, d, a), b, c, x[15], 22, 0x49b40821);
    FourSteps(12, x, r0);
    assert Regs(a, b, c, d) == Steps(16, x, r0);
    r' := Regs(a, b, c, d);
  }

  /** Steps 17 to 32, as the source writes them out. */
  method Round2(x: seq<word>, r0: Regs, r: Regs) returns (r': Regs)
    requires |x| == 16 && r == Steps(16, x, r0)
    ensures r' == Steps(32, x, r0)
  {
    hide F, G, H, I, T, Set, Steps, Not;
    Constants2();
    var a, b, c, d := r.a, r.b, r.c, r.d;
    a := Set(G(b, c, d), a, b, x[1], 5, Not(0x09e1da9d));
    d := Set(G(a, b, c), d, a, x[6], 9, Not(0x3fbf4cbf));
    c := Set(G(d, a, b), c, d, x[11], 14, 0x265e5a51);
    b := Set(G(c, d, a), b, c, x[0], 20, Not(0x16493855));
    FourSteps(16, x, r0);
    assert Regs(a, b, c, d) == Steps(20, x, r0);
    a := Set(G(b, c, d), a, b, x[5], 5, Not(0x29d0efa2));
    d := Set(G(a, b, c), d, a, x[10], 9, 0x02441453);
    c := Set(G(d, a, b), c, d, x[15], 14, Not(0x275e197e));
    b := Set(G(c, d, a), b, c, x[4], 20, Not(0x182c0437));
    FourSteps(20, x, r0);
    assert Regs(a, b, c, d) == Steps(24, x, r0);
    a := Set(G(b, c, d), a, b, x[9], 5, 0x21e1cde6);
    d := Set(G(a, b, c), d, a, x[14], 9, Not(0x3cc8f829));
    c := Set(G(d, a, b), c, d, x[3], 14, Not(0x0b2af278));
    b := Set(G(c, d, a), b, c, x[8], 20, 0x455a14ed);
    FourSteps(24, x, r0);
    assert Regs(a, b, c, d) == Steps(28, x, r0);
    a := Set(G(b, c, d), a, b, x[13], 5, Not(0x561c16fa));
    d := Set(G(a, b, c), d, a, x[2], 9, Not(0x03105c07));
    c := Set(G(d, a, b), c, d, x[7], 14, 0x676f02d9);
    b := Set(G(c, d, a), b, c, x[12], 20, Not(0x72d5b375));
    FourSteps(28, x, r0);
    assert Regs(a, b, c, d) == Steps(32, x, r0);
    r' := Regs(a, b, c, d);
  }

  /** Steps 33 to 48, as the source writes them out. */
  method Round3(x: seq<word>, r0: Regs, r: Regs) returns (r': Regs)
    requires |x| == 16 && r == Steps(32, x, r0)
    ensures r' == Steps(48, x, r0)
  {
    hide F, G, H, I, T, Set, Steps, Not;
    Constants3();
    var a, b, c, d := r.a, r.b, r.c, r.d;
    a := Set(H(b, c, d), a, b, x[5], 4, Not(0x0005c6bd));
    d := Set(H(a, b, c), d, a, x[8], 11, Not(0x788e097e));
    c := Set(H(d, a, b), c, d, x[11], 16, 0x6d9d6122);
    b := Set(H(c, d, a), b, c, x[14], 23, Not(0x021ac7f3));
    FourSteps(32, x, r0);
    assert Regs(a, b, c, d) == Steps(36, x, r0);
    a := Set(H(b, c, d), a, b, x[1], 4, Not(0x5b4115bb));
    d := Set(H(a, b, c), d, a, x[4], 11, 0x4bdecfa9);
    c := Set(H(d, a, b), c, d, x[7], 16, Not(0x0944b49f));
    b := Set(H(c, d, a), b, c, x[10], 23, Not(0x4140438f));
    FourSteps(36, x, r0);
    assert Regs(a, b, c, d) == Steps(40, x, r0);
    a := Set(H(b, c, d), a, b, x[13], 4, 0x289b7ec6);
    d := Set(H(a, b, c), d, a, x[0], 11, Not(0x155ed805));
    c := Set(H(d, a, b), c, d, x[3], 16, Not(0x2b10cf7a));
    b := Set(H(c, d, a), b, c, x[6], 23, 0x04881d05);
    FourSteps(40, x, r0);
    assert Regs(a, b, c, d) == Steps(44, x, r0);
    a := Set(H(b, c, d), a, b, x[9], 4, Not(0x262b2fc6));
    d := Set(H(a, b, c), d, a, x[12], 11, Not(0x1924661a));
    c := Set(H(d, a, b), c, d, x[15], 16, 0x1fa27cf8);
    b := Set(H(c, d, a), b, c, x[2], 23, Not(0x3b53a99a));
    FourSteps(44, x, r0);
    assert Regs(a, b, c, d) == Steps(48, x, r0);
    r' := Regs(a, b, c, d);
  }

  /** Steps 49 to 64, as the source writes them out. */
  method Round4(x: seq<word>, r0: Regs, r: Regs) returns (r': Regs)
    requires |x| == 16 && r == Steps(48, x, r0)
    ensures r' == Steps(64, x, r0)
  {
    hide F, G, H, I, T, Set, Steps, Not;
    Constants4();
    var a, b, c, d := r.a, r.b, r.c, r.d;
    a := Set(I(b, c, d), a, b, x[0], 6, Not(0x0bd6ddbb));
    d := Set(I(a, b, c), d, a, x[7], 10, 0x432aff97);
    c := Set(I(d, a, b), c, d, x[14], 15, Not(0x546bdc58));
    b := Set(I(c, d, a), b, c, x[5], 21, Not(0x036c5fc6));
    FourSteps(48, x, r0);
    assert Regs(a, b, c, d) == Steps(52, x, r0);
    a := Set(I(b, c, d), a, b, x[12], 6, 0x655b59c3);
    d := Set(I(a, b, c), d, a, x[3], 10, Not(0x70f3336d));
    c := Set(I(d, a, b), c, d, x[10], 15, Not(0x00100b82));
    b := Set(I(c, d, a), b, c, x[1], 21, Not(0x7a7ba22e));
    FourSteps(52, x, r0);
    assert Regs(a, b, c, d) == Steps(56, x, r0);
    a := Set(I(b, c, d), a, b, x[8], 6, 0x6fa87e4f);
    d := Set(I(a, b, c), d, a, x[15], 10, Not(0x01d3191f));
    c := Set(I(d, a, b), c, d, x[6], 15, Not(0x5cfebceb));
    b := Set(I(c, d, a), b, c, x[13], 21, 0x4e0811a1);
    FourSteps(56, x, r0);
    assert Regs(a, b, c, d) == Steps(60, x, r0);
    a := Set(I(b, c, d), a, b, x[4], 6, Not(0x08ac817d));
    d := Set(I(a, b, c), d, a, x[11], 10, Not(0x42c50dca));
    c := Set(I(d, a, b), c, d, x[2], 15, 0x2ad7d2bb);
    b := Set(I(c, d, a), b, c, x[9], 21, Not(0x14792c6e));
    FourSteps(60, x, r0);
    assert Regs(a, b, c, d) == Steps(64, x, r0);
    r' := Regs(a, b, c, d);
  }

  /** The words of a block, on a big-endian machine */
  method Decode(data: Block) returns (x: seq<word>)
    ensures x == WordsOf(data)
  {
    var xbuf := new word[16](_ => 0);
    for i := 0 to 16
      invariant forall k :: 0 <= k < i ==> xbuf[k] == Word(data, k)
    {
      xbuf[i] := Word(data, i);
    }
    x := xbuf[..];
  }

  method AllRounds(x: seq<word>, r0: Regs) returns (r: Regs)
    requires |x| == 16
    ensures r == Block64(x, r0)
  {
    hide Steps;
    NoSteps(x, r0);
    r := Round1(x, r0, r0);
    r := Round2(x, r0, r);
    r := Round3(x, r0, r);
    r := Round4(x, r0, r);
  }

  // ----------------------------------------------- sections 3.1 to 3.5: the whole message

  const INITIAL: Regs := Regs(0x67452301, 0xefcdab89, 0x98badcfe, 0x10325476)

  const INT_MAX: int := 0x7fff_ffff
  const TWO64: int := 0x1_0000_0000_0000_0000

  /** The length in bits, modulo 2^64, low-order byte first */
  ghost function BitLength(m: bytes): (l: bytes)
    ensures |l| == 8
  {
    ToLe(8 * |m|, 8)
  }

  ghost function Hash(m: bytes): Regs
    requires Whole(m)
  {
    Fold(Compress, INITIAL, m)
  }

  lemma HashOne(m: bytes, b: Block)
    requires Whole(m)
    ensures Whole(m + b) && Hash(m + b) == Compress(Hash(m), b)
  {
    FoldOne(Compress, INITIAL, m, b);
  }

  /** The bytes of some words, low-order byte of the first word first */
  ghost function LeBytes(words: seq<word>): (d: bytes)
    ensures |d| == 4 * |words|
  {
    if words == [] then [] else ToLe(words[0], 4) + LeBytes(words[1..])
  }

  lemma {:induction false} LeBytesAt(words: seq<word>, i: nat)
    requires i < 4 * |words|
    ensures Pow256(i % 4) > 0 && LeBytes(words)[i] == words[i / 4] / Pow256(i % 4) % 256
  {
    if i < 4 {
      ToLeAt(words[0], 4, i);
    } else {
      LeBytesAt(words[1..], i - 4);
    }
  }

  /** Writes each word out by shifting it right 0, 8, 16 and 24 bits. */
  method WordsOut(words: seq<word>) returns (data: bytes)
    ensures data == LeBytes(words)
  {
    data := [];
    for i := 0 to 4 * |words|
      invariant data == LeBytes(words)[..i]
    {
      LeBytesAt(words, i);
      data := data + [words[i / 4] / Pow256(i % 4) % 256];
    }
  }

  lemma TwoWords(low: word, high: word, laps: nat, bits: nat)
    requires low + WORDS * high + TWO64 * laps == bits
    ensures LeBytes([low, high]) == ToLe(bits, 8)
  {
    assert Pow256(4) == WORDS && Pow256(8) == TWO64;
    assert LeBytes([low, high]) == ToLe(low, 4) + ToLe(high, 4);
    ToLeOfSum(low, 4, high, 4);
    ToLeOfSum(low + WORDS * high, 8, laps, 0);
  }

  ghost function Output(r: Regs): (d: bytes) { LeBytes([r.a, r.b, r.c, r.d]) }

  lemma LowByteFirst(w: word)
    ensures ToLe(w, 4) == [w % 256, w / 256 % 256, w / 0x1_0000 % 256, w / 0x100_0000 % 256]
  {
    forall j | 0 <= j < 4 ensures Pow256(j) > 0 && ToLe(w, 4)[j] == w / Pow256(j) % 256 {
      ToLeAt(w, 4, j);
    }
    assert Pow256(1) == 256 && Pow256(2) == 0x1_0000 && Pow256(3) == 0x100_0000;
  }

  /** The initial registers, as section 3.3 prints them */
  lemma InitialBytes()
    ensures Output(INITIAL)
         == [0x01, 0x23, 0x45, 0x67, 0x89, 0xab, 0xcd, 0xef, 0xfe, 0xdc, 0xba, 0x98, 0x76, 0x54, 0x32, 0x10]
  {
    hide ToLe;
    LowByteFirst(0x67452301);
    LowByteFirst(0xefcdab89);
    LowByteFirst(0x98badcfe);
    LowByteFirst(0x10325476);
  }

  /** The digest the RFC defines */
  ghost function Digest(m: bytes): bytes { Output(Hash(Padded(m, BitLength(m)))) }

  const PAD: bytes := [0x80] + Fill(63, 0)

  lemma PadAndLength(m: bytes, length: bytes)
    requires |length| == 8
    ensures |PAD| == 64 && Zeros(|m|) < 64
    ensures m + PAD[..Zeros(|m|) + 1] + length[..8] == Padded(m, length)
  {
    assert PAD[..Zeros(|m|) + 1] == [0x80] + Fill(Zeros(|m|), 0);
  }

  /** mongo_md5_state_t, with the message it has been given. */
  class State {
    var count0: word
    var count1: word
    var abcd: Regs
    const buf: array<byte>
    ghost var msg: bytes
    ghost var laps: nat // how often the count has wrapped around

    ghost predicate Valid()
      reads this, buf
    {
      Counts(8 * |msg|) && Absorbed(msg)
    }

    ghost predicate Counts(bits: nat)
      reads `count0, `count1, `laps
    {
      count0 + WORDS * count1 + TWO64 * laps == bits
    }

    /** The whole blocks of `m` are in the registers and the rest of it in the buffer. */
    ghost predicate Absorbed(m: bytes)
      reads `abcd, buf
    {
      buf.Length == BLOCK && abcd == Hash(Head(m)) && buf[..|Tail(m)|] == Tail(m)
    }

    constructor ()
      ensures Valid() && msg == [] && fresh(buf)
    {
      count0, count1, laps := 0, 0, 0;
      abcd := Regs(0x67452301, Not(0x10325476), Not(0x67452301), 0x10325476);
      buf := new byte[64](_ => 0);
      msg := [];
    }

    /** mongo_md5_process */
    method Process(data: Block)
      modifies this`abcd
      ensures abcd == Compress(old(abcd), data)
    {
      var words := Decode(data);
      var r := AllRounds(words, abcd);
      abcd := Regs(Add(abcd.a, r.a), Add(abcd.b, r.b), Add(abcd.c, r.c), Add(abcd.d, r.d));
    }

    /** Adds the bits of `n` bytes to the two words of the count. */
    method Count(n: nat, ghost bits: nat)
      requires Counts(bits) && n <= INT_MAX
      modifies this`count0, this`count1, this`laps
      ensures Counts(bits + 8 * n)
    {
      var nbits: word := 8 * n % WORDS;
      var high := count1 + n / 0x2000_0000;
      count0 := (count0 + nbits) % WORDS;
      if count0 < nbits {
        high := high + 1;
      }
      count1 := high % WORDS;
      laps := laps + high / WORDS;
    }

    /** An initial partial block: the buffer, `offset` bytes full, takes `data` and is
        processed once it is full. */
    method FillBlock(offset: nat, data: bytes)
      requires Absorbed(msg) && offset == |Tail(msg)| && offset + |data| <= BLOCK
      modifies this`abcd, this`msg, buf
      ensures Absorbed(msg) && msg == old(msg) + data
    {
      hide Hash, Compress;
      CopyInto(buf, offset, data);
      msg := msg + data;
      assert buf[..offset + |data|] == old(Tail(msg)) + data;
      assert msg == old(Head(msg)) + (old(Tail(msg)) + data);
      if offset + |data| < BLOCK {
        HeadAndTail(old(Head(msg)), old(Tail(msg)) + data);
      } else {
        WholeMessage(msg);
        assert buf[..] == buf[..offset + |data|];
        HashOne(old(Head(msg)), buf[..]);
        Process(buf[..]);
      }
    }

    /** The full blocks of `data` from `p` on, and then a final partial block */
    method TakeBlocks(data: bytes, p0: nat)
      requires Absorbed(msg) && Tail(msg) == [] && p0 <= |data|
      modifies this`abcd, this`msg, buf
      ensures Absorbed(msg) && msg == old(msg) + data[p0..]
    {
      hide Hash, Compress;
      var p := p0;
      while |data| - p >= 64
        invariant p0 <= p <= |data|
        invariant Absorbed(msg) && Tail(msg) == [] && msg == old(msg) + data[p0..p]
      {
        assert data[p0..p + 64] == data[p0..p] + data[p..p + 64];
        WholeMessage(msg);
        HashOne(msg, data[p..p + 64]);
        Process(data[p..p + 64]);
        msg := msg + data[p..p + 64];
        WholeMessage(msg);
        p := p + 64;
      }
      if p < |data| {
        assert data[p0..] == data[p0..p] + data[p..];
        FillBlock(0, data[p..]);
      }
    }

    /** The buffer has `offset` bytes of a block when `data` arrives. */
    method Take(offset: nat, data: bytes)
      requires Absorbed(msg) && offset == |Tail(msg)|
      modifies this`abcd, this`msg, buf
      ensures Absorbed(msg) && msg == old(msg) + data
    {
      hide Absorbed, Head;
      var p := 0;
      if offset != 0 {
        p := if offset + |data| > 64 then 64 - offset else |data|;
        FillBlock(offset, data[..p]);
      }
      if offset + p < 64 && offset != 0 {
        return;
      }
      TakeBlocks(data, p);
    }

    /** mongo_md5_append of the first `nbytes` bytes of `data` */
    method Append(data: bytes, nbytes: int)
      requires Valid() && nbytes <= |data| && nbytes <= INT_MAX - 63
      modifies this, buf
      ensures Valid() && msg == old(msg) + data[..if nbytes > 0 then nbytes else 0]
    {
      hide Absorbed, Counts, Head;
      if nbytes <= 0 {
        return;
      }
      OffsetOfCount();
      var offset := count0 / 8 % 64;
      Count(nbytes, 8 * |msg|);
      Take(offset, data[..nbytes]);
    }

    /** The low word of the count tells how full the last block is. */
    lemma OffsetOfCount()
      requires Counts(8 * |msg|)
      ensures count0 / 8 % 64 == |Tail(msg)|
    {
      assert |msg| == count0 / 8 + 0x2000_0000 * count1 + 0x2000_0000_0000_0000 * laps;
    }

    /** mongo_md5_finish */
    method Finish() returns (digest: bytes)
      requires Valid()
      modifies this, buf
      ensures digest == Digest(old(msg))
    {
      hide Absorbed, Counts, Head, Hash, BitLength, Padded, Zeros;
      var data := CountBytes();
      var zeros := (55 - count0 / 8) % 64;
      ZerosOfCount();
      PadAndLength(msg, data);
      Append(PAD, zeros + 1);
      Append(data, 8);
      Registers();
      digest := WordsOut([abcd.a, abcd.b, abcd.c, abcd.d]);
    }

    /** The length of the padding is taken from the low word of the count. */
    lemma ZerosOfCount()
      requires Counts(8 * |msg|)
      ensures (55 - count0 / 8) % 64 == Zeros(|msg|)
    {
      OffsetOfCount();
      SameZeros(count0 / 8, |msg|);
    }

    lemma Registers()
      requires Absorbed(msg) && Whole(msg)
      ensures abcd == Hash(msg)
    {
      WholeMessage(msg);
    }

    /** The count before padding, low-order byte first */
    method CountBytes() returns (data: bytes)
      requires Valid()
      ensures data == BitLength(msg)
    {
      TwoWords(count0, count1, laps, 8 * |msg|);
      data := WordsOut([count0, count1]);
    }
  }

  /** However a message is split into calls of mongo_md5_append, the digest is that of the
      whole message. */
  method DigestOfPieces(pieces: seq<bytes>) returns (digest: bytes)
    requires forall p :: p in pieces ==> |p| <= INT_MAX - 63
    ensures digest == Digest(Join(pieces))
  {
    hide Digest, State.Absorbed, State.Counts;
    var state := new State();
    for i := 0 to |pieces|
      invariant fresh(state) && fresh(state.buf)
      invariant state.Valid() && state.msg == Join(pieces[..i])
    {
      assert pieces[..i + 1][..i] == pieces[..i];
      state.Append(pieces[i], |pieces[i]|);
      assert pieces[i][..|pieces[i]|] == pieces[i];
    }
    assert pieces[..|pieces|] == pieces;
    digest := state.Finish();
  }

  /** Different messages are different block sequences, up to 2^64 bits. */
  lemma PaddedBlocksDetermineTheMessage(m: bytes, n: bytes)
    requires 8 * |m| < TWO64 && 8 * |n| < TWO64
    requires Padded(m, BitLength(m)) == Padded(n, BitLength(n))
    ensures m == n
  {
    PaddingIsInjective(m, BitLength(m), n, BitLength(n));
    assert Pow256(8) == TWO64;
    LeRoundTrip(8 * |m|, 8);
    LeRoundTrip(8 * |n|, 8);
  }
}

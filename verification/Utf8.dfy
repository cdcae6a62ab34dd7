/**
  The UTF-8 validator of the BSON library and the UTF-8 encoder of the JSON library,
  against the grammar of section 4 of RFC 3629.
 */
module Utf8 {
  import opened Bytes

  // ---------------------------------------------------------------- the standard

  predicate Tail(b: byte) { 0x80 <= b <= 0xBF }

  /** UTF8-char of RFC 3629 */
  predicate RfcChar(s: bytes) {
    || (|s| == 1 && s[0] <= 0x7F)
    || (|s| == 2 && 0xC2 <= s[0] <= 0xDF && Tail(s[1]))
    || (|s| == 3 && Tail(s[2]) &&
        (|| (s[0] == 0xE0 && 0xA0 <= s[1] <= 0xBF)
         || (0xE1 <= s[0] <= 0xEC && Tail(s[1]))
         || (s[0] == 0xED && 0x80 <= s[1] <= 0x9F)
         || (0xEE <= s[0] <= 0xEF && Tail(s[1]))))
    || (|s| == 4 && Tail(s[2]) && Tail(s[3]) &&
        (|| (s[0] == 0xF0 && 0x90 <= s[1] <= 0xBF)
         || (0xF1 <= s[0] <= 0xF3 && Tail(s[1]))
         || (s[0] == 0xF4 && 0x80 <= s[1] <= 0x8F)))
  }

  /** UTF8-octets of RFC 3629 */
  ghost predicate RfcText(s: bytes) {
    s == [] || exists k: nat :: 1 <= k <= |s| && RfcChar(s[..k]) && RfcText(s[k..])
  }

  // ---------------------------------------------------------------- the validator

  /** trailingBytesForUTF8 */
  function TrailingBytes(b: byte): nat {
    if b < 0xC0 then 0
    else if b < 0xE0 then 1
    else if b < 0xF0 then 2
    else if b < 0xF8 then 3
    else if b < 0xFC then 4
    else 5
  }

  /** What isLegalUTF8 accepts as one sequence of the length its first byte announces. */
  predicate LooseChar(s: bytes) {
    && 1 <= |s| <= 4
    && (|s| >= 3 ==> Tail(s[2]))
    && (|s| == 4 ==> Tail(s[3]))
    && (|s| >= 2 ==> s[1] <= 0xBF &&
                     if s[0] == 0xE0 then s[1] >= 0xA0
                     else if s[0] == 0xF0 then s[1] >= 0x90
                     else if s[0] == 0xF4 then s[1] <= 0x8F
                     else s[1] >= 0x80)
    && !(0x80 <= s[0] < 0xC2)
    && s[0] <= 0xF4
  }

  /** isLegalUTF8: a pointer steps back over the sequence; the cases fall through. */
  method IsLegalUtf8(s: bytes) returns (legal: bool)
    requires s != []
    ensures legal == LooseChar(s)
  {
    if |s| > 4 {
      return false;
    }
    var src := |s|;
    if |s| == 4 {
      src := src - 1;
      if s[src] < 0x80 || s[src] > 0xBF { return false; }
    }
    if |s| >= 3 {
      src := src - 1;
      if s[src] < 0x80 || s[src] > 0xBF { return false; }
    }
    if |s| >= 2 {
      src := src - 1;
      var a := s[src];
      if a > 0xBF { return false; }
      match s[0] {
        case 0xE0 => if a < 0xA0 { return false; }
        case 0xF0 => if a < 0x90 { return false; }
        case 0xF4 => if a > 0x8F { return false; }
        case _ => if a < 0x80 { return false; }
      }
    }
    if s[0] >= 0x80 && s[0] < 0xC2 { return false; }
    if s[0] > 0xF4 { return false; }
    return true;
  }

  /** The texts the validator accepts. */
  predicate LooseText(s: bytes) {
    s == [] ||
    var n := TrailingBytes(s[0]) + 1;
    n <= |s| && LooseChar(s[..n]) && LooseText(s[n..])
  }

  /** A sequence the validator reaches starts with a dot. */
  predicate DotAtStart(s: bytes) {
    s != [] &&
    var n := TrailingBytes(s[0]) + 1;
    s[0] == '.' as int || (n <= |s| && LooseChar(s[..n]) && DotAtStart(s[n..]))
  }

  /** Bits of `bson.err` that validation can set. */
  datatype Flags = Flags(notUtf8: bool, hasDot: bool, initDollar: bool)

  /** bson_string_is_db_ref; bytes 1 to 3 of the name decide */
  predicate IsDbRef(s: bytes) {
    if |s| >= 4 then s[1] == 'r' as int && s[2] == 'e' as int && s[3] == 'f' as int
    else |s| == 3 && ((s[1] == 'i' as int && s[2] == 'd' as int) || (s[1] == 'd' as int && s[2] == 'b' as int))
  }

  /** Of the names with a dollar sign in front these are "$id", "$db" and all that begin with "$ref". */
  lemma DollarNames(s: bytes)
    requires s != [] && s[0] == 0x24
    ensures IsDbRef(s) <==> s == [0x24, 0x69, 0x64] || s == [0x24, 0x64, 0x62] || [0x24, 0x72, 0x65, 0x66] <= s
  {
    if |s| >= 4 {
      assert s[..4] == [s[0], s[1], s[2], s[3]];
    }
  }

  /** bson_validate_string with check_utf8 set, as all its callers do. `asName` stands for
      check_dot and check_dollar, which are set together. */
  method ValidateString(s: bytes, asName: bool, err: Flags) returns (ok: bool, flags: Flags)
    ensures ok <==> LooseText(s)
    ensures flags.notUtf8 == (err.notUtf8 || !ok)
    ensures flags.hasDot == (err.hasDot || (asName && DotAtStart(s)))
    ensures flags.initDollar == (err.initDollar || (asName && s != [] && s[0] == '$' as int && !IsDbRef(s)))
  {
    hide LooseChar, IsDbRef, TrailingBytes;
    flags := err;
    var position := 0;
    if asName && s != [] && s[0] == '$' as int && !IsDbRef(s) {
      flags := flags.(initDollar := true);
    }
    while position < |s|
      invariant position <= |s|
      invariant LooseText(s) <==> LooseText(s[position..])
      invariant flags.notUtf8 == err.notUtf8
      invariant flags.hasDot ==> err.hasDot || (asName && DotAtStart(s))
      invariant err.hasDot ==> flags.hasDot
      invariant !flags.hasDot && asName ==> (DotAtStart(s) <==> DotAtStart(s[position..]))
      invariant flags.initDollar == (err.initDollar || (asName && s != [] && s[0] == '$' as int && !IsDbRef(s)))
    {
      if asName && s[position] == '.' as int {
        flags := flags.(hasDot := true);
      }
      var sequenceLength := TrailingBytes(s[position]) + 1;
      if position + sequenceLength > |s| {
        return false, flags.(notUtf8 := true);
      }
      var sequence := s[position..position + sequenceLength];
      assert s[position..][..sequenceLength] == sequence;
      assert s[position..][sequenceLength..] == s[position + sequenceLength..];
      var legal := IsLegalUtf8(sequence);
      if !legal {
        return false, flags.(notUtf8 := true);
      }
      position := position + sequenceLength;
    }
    ok := true;
  }

  // ------------------------------------------------- validator against the standard

  /** Two neighbours the validator lets through and the standard does not: the start of a
      surrogate, and an F4 lead byte followed by ASCII. */
  predicate BadPair(a: byte, b: byte) {
    (a == 0xED && b >= 0xA0) || (a == 0xF4 && b < 0x80)
  }

  predicate HasBadPair(s: bytes) {
    exists i :: 0 <= i < |s| - 1 && BadPair(s[i], s[i + 1])
  }

  lemma LooseAgainstRfcChar(s: bytes)
    ensures RfcChar(s) ==> LooseChar(s) && |s| == TrailingBytes(s[0]) + 1
    ensures LooseChar(s) && |s| == TrailingBytes(s[0]) + 1 ==>
              (RfcChar(s) <==> !HasBadPair(s))
  {
    if LooseChar(s) && |s| == TrailingBytes(s[0]) + 1 {
      if |s| > 1 && BadPair(s[0], s[1]) {
        assert HasBadPair(s);
      }
    }
  }

  /** Bad pairs do not straddle two sequences. */
  lemma PairsSplit(s: bytes, n: nat)
    requires 1 <= n <= |s| && LooseChar(s[..n]) && n == TrailingBytes(s[0]) + 1
    ensures HasBadPair(s) <==> HasBadPair(s[..n]) || HasBadPair(s[n..])
  {
    var l, r := s[..n], s[n..];
    if HasBadPair(s) {
      var i :| 0 <= i < |s| - 1 && BadPair(s[i], s[i + 1]);
      if i + 1 < n {
        assert BadPair(l[i], l[i + 1]);
      } else if i >= n {
        assert BadPair(r[i - n], r[i - n + 1]);
      }
    }
    if HasBadPair(l) {
      var i :| 0 <= i < |l| - 1 && BadPair(l[i], l[i + 1]);
      assert BadPair(s[i], s[i + 1]);
    }
    if HasBadPair(r) {
      var i :| 0 <= i < |r| - 1 && BadPair(r[i], r[i + 1]);
      assert BadPair(s[n + i], s[n + i + 1]);
    }
  }

  /** The validator accepts everything the standard does, and what it accepts beyond that
      is exactly the texts with a bad pair. */
  lemma {:induction false} ValidatorAgainstRfc(s: bytes)
    ensures RfcText(s) <==> LooseText(s) && !HasBadPair(s)
  {
    if s != [] {
      var n := TrailingBytes(s[0]) + 1;
      if RfcText(s) {
        var k: nat :| 1 <= k <= |s| && RfcChar(s[..k]) && RfcText(s[k..]);
        LooseAgainstRfcChar(s[..k]);
        ValidatorAgainstRfc(s[k..]);
        PairsSplit(s, k);
      } else if LooseText(s) {
        LooseAgainstRfcChar(s[..n]);
        ValidatorAgainstRfc(s[n..]);
        PairsSplit(s, n);
      }
    }
  }

  /** The converse of "every valid text is accepted" fails: a surrogate and a broken F4
      sequence are let through. */
  lemma LooserThanRfc()
    ensures LooseText([0xED, 0xA0, 0x80]) && !RfcText([0xED, 0xA0, 0x80])
    ensures LooseText([0xF4, 0x41, 0x80, 0x80]) && !RfcText([0xF4, 0x41, 0x80, 0x80])
  {
    var a, b: bytes := [0xED, 0xA0, 0x80], [0xF4, 0x41, 0x80, 0x80];
    assert BadPair(a[0], a[1]) && BadPair(b[0], b[1]);
    assert a[..3] == a && a[3..] == [] && b[..4] == b && b[4..] == [];
    ValidatorAgainstRfc(a);
    ValidatorAgainstRfc(b);
  }

  // ---------------------------------------------------------------- the encoder

  /** codePointToUTF8: empty for values beyond the Unicode range */
  function Encode(cp: nat): bytes {
    var high := cp / 64;
    if cp <= 0x7F then [cp]
    else if cp <= 0x7FF then [0xC0 + high, 0x80 + cp % 64]
    else if cp <= 0xFFFF then [0xE0 + high / 64, 0x80 + high % 64, 0x80 + cp % 64]
    else if cp <= 0x10FFFF then [0xF0 + high / 64 / 64, 0x80 + high / 64 % 64, 0x80 + high % 64, 0x80 + cp % 64]
    else []
  }

  type CodePoint = cp: nat | cp <= 0x10FFFF

  predicate IsSurrogate(cp: nat) { 0xD800 <= cp <= 0xDFFF }

  lemma EncodeOne(cp: CodePoint)
    ensures |Encode(cp)| == TrailingBytes(Encode(cp)[0]) + 1
    ensures LooseChar(Encode(cp))
    ensures RfcChar(Encode(cp)) <==> !IsSurrogate(cp)
    ensures HasBadPair(Encode(cp)) <==> IsSurrogate(cp)
  {
    LooseAgainstRfcChar(Encode(cp));
  }

  function EncodeAll(cps: seq<CodePoint>): bytes {
    if cps == [] then [] else Encode(cps[0]) + EncodeAll(cps[1..])
  }

  predicate AnySurrogate(cps: seq<CodePoint>) {
    exists i :: 0 <= i < |cps| && IsSurrogate(cps[i])
  }

  lemma {:induction false} BadPairsAreSurrogates(cps: seq<CodePoint>)
    ensures LooseText(EncodeAll(cps))
    ensures HasBadPair(EncodeAll(cps)) <==> AnySurrogate(cps)
  {
    if cps != [] {
      hide Encode, RfcChar, LooseChar, HasBadPair, AnySurrogate, IsSurrogate;
      var e, rest, s := Encode(cps[0]), EncodeAll(cps[1..]), EncodeAll(cps);
      EncodeOne(cps[0]);
      BadPairsAreSurrogates(cps[1..]);
      assert s[..|e|] == e && s[|e|..] == rest;
      PairsSplit(s, |e|);
      FirstOrLaterSurrogate(cps);
    }
  }

  lemma FirstOrLaterSurrogate(cps: seq<CodePoint>)
    requires cps != []
    ensures AnySurrogate(cps) <==> IsSurrogate(cps[0]) || AnySurrogate(cps[1..])
  {
    if AnySurrogate(cps[1..]) {
      var i :| 0 <= i < |cps[1..]| && IsSurrogate(cps[1..][i]);
      assert IsSurrogate(cps[i + 1]);
    }
  }

  /** Whatever code points are encoded, the validator accepts the result; it is well-formed
      in the sense of the standard exactly when none of them is a surrogate. */
  lemma EncodedTextIsAccepted(cps: seq<CodePoint>)
    ensures LooseText(EncodeAll(cps))
    ensures RfcText(EncodeAll(cps)) <==> !AnySurrogate(cps)
  {
    BadPairsAreSurrogates(cps);
    ValidatorAgainstRfc(EncodeAll(cps));
  }

  /** The code point and length of the first sequence. */
  function DecodeFirst(s: bytes): (nat, nat)
    requires s != [] && TrailingBytes(s[0]) < |s|
  {
    match TrailingBytes(s[0])
    case 0 => (s[0], 1)
    case 1 => (Abs64(s[0] - 0xC0, s[1]), 2)
    case 2 => (Abs64(Abs64(s[0] - 0xE0, s[1]), s[2]), 3)
    case 3 => (Abs64(Abs64(Abs64(s[0] - 0xF0, s[1]), s[2]), s[3]), 4)
    case _ => (0, 1)
  }

  function Abs64(high: nat, low: byte): nat {
    high * 64 + low % 64
  }

  lemma DecodeUndoesEncode(cp: CodePoint, rest: bytes)
    ensures var s := Encode(cp) + rest;
      TrailingBytes(s[0]) < |s| && DecodeFirst(s) == (cp, |Encode(cp)|)
  {
    EncodeOne(cp);
    var e := Encode(cp);
    SameFirst(e, rest);
    DecodeAlone(cp);
  }

  lemma SameFirst(e: bytes, rest: bytes)
    requires e != [] && |e| == TrailingBytes(e[0]) + 1
    ensures DecodeFirst(e + rest) == DecodeFirst(e)
  {
    hide Abs64;
  }

  lemma DecodeAlone(cp: CodePoint)
    requires |Encode(cp)| == TrailingBytes(Encode(cp)[0]) + 1
    ensures DecodeFirst(Encode(cp)) == (cp, |Encode(cp)|)
  {
    hide Abs64, TrailingBytes;
    SixBits(cp);
    if cp > 0x7FF {
      SixBits(cp / 64);
    }
    if cp > 0xFFFF {
      SixBits(cp / 64 / 64);
    }
  }

  lemma SixBits(x: nat)
    ensures Abs64(x / 64, 0x80 + x % 64) == x
  {
    assert (0x80 + x % 64) % 64 == x % 64;
  }

  /** No encoding is a prefix of another one: the start of a text determines its first code
      point and where the next one begins. */
  lemma EncodingIsPrefixFree(a: CodePoint, b: CodePoint, x: bytes, y: bytes)
    requires Encode(a) + x == Encode(b) + y
    ensures a == b && x == y
  {
    DecodeUndoesEncode(a, x);
    DecodeUndoesEncode(b, y);
    var n := |Encode(a)|;
    assert (Encode(a) + x)[n..] == x && (Encode(b) + y)[n..] == y;
  }

  /** A text is the encoding of at most one sequence of code points. */
  lemma {:induction false} EncodingIsInjective(a: seq<CodePoint>, b: seq<CodePoint>)
    requires EncodeAll(a) == EncodeAll(b)
    ensures a == b
  {
    if a == [] || b == [] {
      if a != [] { EncodeOne(a[0]); }
      if b != [] { EncodeOne(b[0]); }
    } else {
      EncodingIsPrefixFree(a[0], b[0], EncodeAll(a[1..]), EncodeAll(b[1..]));
      EncodingIsInjective(a[1..], b[1..]);
      assert a == [a[0]] + a[1..] && b == [b[0]] + b[1..];
    }
  }
}

/** Strings between quotes: what the writers escape and the reader decodes. */
module JsonStrings {
  import opened Bytes
  import opened JsonText
  import opened JsonValue
  import Utf8

  const BACKSPACE: char := 8 as char
  const FORMFEED: char := 12 as char

  predicate IsControl(c: char) { 0 < c as int <= 0x1F }

  function HexDigit(n: nat): char
    requires n < 16
  {
    if n < 10 then '0' + n as char else 'A' + (n - 10) as char
  }

  /** How one character is written inside quotes */
  function EscapeChar(c: char): (e: string)
    ensures e != "" && (c != '\0' ==> NoNul(e))
  {
    if c == '"' then "\\\""
    else if c == '\\' then "\\\\"
    else if c == BACKSPACE then "\\b"
    else if c == FORMFEED then "\\f"
    else if c == '\n' then "\\n"
    else if c == '\r' then "\\r"
    else if c == '\t' then "\\t"
    else if IsControl(c) then "\\u00" + [HexDigit(c as int / 16), HexDigit(c as int % 16)]
    else [c]
  }

  function EscapeFrom(s: string, i: nat): string
    requires i <= |s|
    decreases |s| - i
  {
    if i == |s| then "" else EscapeChar(s[i]) + EscapeFrom(s, i + 1)
  }

  function Quoted(s: string): string { "\"" + EscapeFrom(s, 0) + "\"" }

  predicate IsSpecial(c: char) {
    c == '"' || c == '\\' || c == BACKSPACE || c == FORMFEED || c == '\n' || c == '\r' || c == '\t' || IsControl(c)
  }

  lemma {:induction false} NothingToEscape(s: string, i: nat)
    requires i <= |s| && forall k :: i <= k < |s| ==> !IsSpecial(s[k])
    ensures EscapeFrom(s, i) == s[i..]
    decreases |s| - i
  {
    if i < |s| {
      NothingToEscape(s, i + 1);
    }
  }

  lemma {:induction false} EscapedIsClean(s: string, i: nat)
    requires i <= |s| && NoNul(s)
    ensures NoNul(EscapeFrom(s, i))
    decreases |s| - i
  {
    if i < |s| {
      assert s[i] in s;
      EscapedIsClean(s, i + 1);
    }
  }

  /** valueToQuotedString, for a C string */
  method ValueToQuotedString(value: string) returns (result: string)
    requires NoNul(value)
    ensures result == Quoted(value)
  {
    var special := false;
    for i := 0 to |value|
      invariant special <==> exists k :: 0 <= k < i && IsSpecial(value[k])
    {
      special := special || IsSpecial(value[i]);
    }
    if !special {
      NothingToEscape(value, 0);
      return "\"" + value + "\"";
    }
    result := "\"";
    for i := 0 to |value|
      invariant result + EscapeFrom(value, i) == "\"" + EscapeFrom(value, 0)
    {
      assert (result + EscapeChar(value[i])) + EscapeFrom(value, i + 1) == result + EscapeFrom(value, i);
      result := result + EscapeChar(value[i]);
    }
    result := result + "\"";
  }

  // --------------------------------------------------------------------- decoding

  /** The value of a hexadecimal digit; 16 for anything else */
  function HexValue(c: char): (n: nat)
    ensures n <= 16
  {
    if '0' <= c <= '9' then c as int - '0' as int
    else if 'a' <= c <= 'f' then c as int - 'a' as int + 10
    else if 'A' <= c <= 'F' then c as int - 'A' as int + 10
    else 16
  }

  datatype CodePoint = BadCodePoint | CodePoint(cp: nat, next: nat)

  /** Four hexadecimal digits at `at`, as decodeUnicodeEscapeSequence reads them */
  function Hex4(d: string, at: nat, end: nat): (r: CodePoint)
    requires at <= end <= |d|
    ensures r.CodePoint? ==> r.cp < 0x1_0000 && r.next == at + 4 <= end
  {
    if end - at < 4 then BadCodePoint
    else
      var a, b, c, e := HexValue(d[at]), HexValue(d[at + 1]), HexValue(d[at + 2]), HexValue(d[at + 3]);
      if a == 16 || b == 16 || c == 16 || e == 16 then BadCodePoint
      else CodePoint(((a * 16 + b) * 16 + c) * 16 + e, at + 4)
  }

  /** The code point of a surrogate pair */
  function Pair(high: nat, low: nat): (cp: nat)
    ensures 0x1_0000 <= cp <= 0x10FFFF
  {
    0x1_0000 + high % 0x400 * 0x400 + low % 0x400
  }

  /** decodeUnicodeCodePoint: a high surrogate needs a second escape behind it. */
  function CodePointAt(d: string, at: nat, end: nat): (r: CodePoint)
    requires at <= end <= |d|
    ensures r.CodePoint? ==> r.cp <= 0x10FFFF && at < r.next <= end
  {
    var h := Hex4(d, at, end);
    if h.BadCodePoint? || !(0xD800 <= h.cp <= 0xDBFF) then h
    else if end - h.next < 6 || d[h.next] != '\\' || d[h.next + 1] != 'u' then BadCodePoint
    else
      var l := Hex4(d, h.next + 2, end);
      if l.BadCodePoint? then BadCodePoint
      else CodePoint(Pair(h.cp, l.cp), l.next)
  }

  function Text(b: bytes): string { seq(|b|, k requires 0 <= k < |b| => b[k] as char) }

  datatype Decoded = Bad | Good(s: string)

  function Prepend(s: string, d: Decoded): Decoded {
    if d.Bad? then Bad else Good(s + d.s)
  }

  /** What a one-letter escape stands for; nothing if it is not one */
  function Plain(e: char): string {
    match e
    case '"' => "\""
    case '/' => "/"
    case '\\' => "\\"
    case 'b' => [BACKSPACE]
    case 'f' => [FORMFEED]
    case 'n' => "\n"
    case 'r' => "\r"
    case 't' => "\t"
    case _ => ""
  }

  /** decodeString, for the text from `at` up to the closing quote at `end` */
  function DecodeFrom(d: string, at: nat, end: nat): Decoded
    requires at <= end <= |d|
    decreases end - at
  {
    if at == end || d[at] == '"' then Good("")
    else if d[at] != '\\' then Prepend([d[at]], DecodeFrom(d, at + 1, end))
    else if at + 1 == end then Bad
    else if Plain(d[at + 1]) != "" then Prepend(Plain(d[at + 1]), DecodeFrom(d, at + 2, end))
    else if d[at + 1] != 'u' then Bad
    else
      var c := CodePointAt(d, at + 2, end);
      if c.BadCodePoint? then Bad else Prepend(Text(Utf8.Encode(c.cp)), DecodeFrom(d, c.next, end))
  }

  /** The string a token stands for; `d[start]` and `d[end - 1]` are its quotes. */
  function DecodeToken(d: string, start: nat, end: nat): Decoded
    requires start + 2 <= end <= |d|
  {
    DecodeFrom(d, start + 1, end - 1)
  }

  // ------------------------------------------------------------------- round trips

  /** The three shapes of an escape */
  lemma EscapeShape(c: char)
    ensures var e := EscapeChar(c);
      || (e == [c] && c != '"' && c != '\\')
      || (|e| == 2 && e[0] == '\\' && Plain(e[1]) == [c])
      || (IsControl(c) && e == "\\u00" + [HexDigit(c as int / 16), HexDigit(c as int % 16)])
  {
  }

  lemma DecodePlain(d: string, at: nat, end: nat)
    requires at + 2 <= end <= |d| && d[at] == '\\' && Plain(d[at + 1]) != ""
    ensures DecodeFrom(d, at, end) == Prepend(Plain(d[at + 1]), DecodeFrom(d, at + 2, end))
  {
  }

  lemma DecodeItself(d: string, at: nat, end: nat)
    requires at < end <= |d| && d[at] != '\\' && d[at] != '"'
    ensures DecodeFrom(d, at, end) == Prepend([d[at]], DecodeFrom(d, at + 1, end))
  {
  }

  lemma SliceAt(d: string, at: nat, e: string)
    requires at + |e| <= |d| && d[at..at + |e|] == e
    ensures forall k :: 0 <= k < |e| ==> d[at + k] == e[k]
  {
    forall k | 0 <= k < |e| ensures d[at + k] == e[k] {
      assert d[at..at + |e|][k] == d[at + k];
    }
  }

  /** Decoding undoes one escape. */
  lemma DecodeOne(c: char, d: string, at: nat, end: nat)
    requires at + |EscapeChar(c)| <= end <= |d| && d[at..at + |EscapeChar(c)|] == EscapeChar(c)
    ensures DecodeFrom(d, at, end) == Prepend([c], DecodeFrom(d, at + |EscapeChar(c)|, end))
  {
    hide DecodeFrom, EscapeChar, Plain, Prepend, HexDigit;
    var e := EscapeChar(c);
    SliceAt(d, at, e);
    EscapeShape(c);
    if |e| == 1 {
      DecodeItself(d, at, end);
    } else if |e| == 2 {
      DecodePlain(d, at, end);
    } else {
      DecodeControl(c, d, at, end);
    }
  }

  lemma DecodeControl(c: char, d: string, at: nat, end: nat)
    requires IsControl(c) && at + 6 <= end <= |d|
    requires d[at] == '\\' && d[at + 1] == 'u' && d[at + 2] == '0' && d[at + 3] == '0'
    requires d[at + 4] == HexDigit(c as int / 16) && d[at + 5] == HexDigit(c as int % 16)
    ensures DecodeFrom(d, at, end) == Prepend([c], DecodeFrom(d, at + 6, end))
  {
    var n := c as int;
    assert HexValue(d[at + 2]) == 0 && HexValue(d[at + 3]) == 0;
    assert HexValue(d[at + 4]) == n / 16 && HexValue(d[at + 5]) == n % 16;
    assert CodePointAt(d, at + 2, end) == CodePoint(n, at + 6);
    assert Text(Utf8.Encode(n)) == [c];
  }

  lemma {:induction false} DecodeEscaped(s: string, i: nat, d: string, at: nat, end: nat)
    requires NoNul(s) && i <= |s| && at <= end <= |d| && d[at..end] == EscapeFrom(s, i)
    ensures DecodeFrom(d, at, end) == Good(s[i..])
    decreases |s| - i
  {
    hide EscapeChar, DecodeFrom;
    if i == |s| {
      NothingToDecode(d, at);
    } else {
      var n := |EscapeChar(s[i])|;
      assert d[at..at + n] == d[at..end][..n] == EscapeChar(s[i]);
      assert d[at + n..end] == d[at..end][n..] == EscapeFrom(s, i + 1);
      DecodeOne(s[i], d, at, end);
      DecodeEscaped(s, i + 1, d, at + n, end);
      assert [s[i]] + s[i + 1..] == s[i..];
    }
  }

  lemma NothingToDecode(d: string, at: nat)
    requires at <= |d|
    ensures DecodeFrom(d, at, at) == Good("")
  {
  }

  lemma Inside(e: string, d: string, start: nat, end: nat)
    requires start <= end <= |d| && d[start..end] == "\"" + e + "\""
    ensures start + 2 <= end && d[start + 1..end - 1] == e
  {
    assert |d[start..end]| == |e| + 2;
    forall k | 0 <= k < |e| ensures d[start + 1 + k] == e[k] {
      assert d[start..end][k + 1] == ("\"" + e + "\"")[k + 1];
    }
  }

  /** decodeString undoes valueToQuotedString, wherever in a document the token stands. */
  lemma DecodeQuoted(s: string, d: string, start: nat, end: nat)
    requires NoNul(s) && start <= end <= |d| && d[start..end] == Quoted(s)
    ensures start + 2 <= end && DecodeToken(d, start, end) == Good(s)
  {
    hide EscapeFrom, DecodeFrom;
    Inside(EscapeFrom(s, 0), d, start, end);
    DecodeEscaped(s, 0, d, start + 1, end - 1);
  }

  /** The tokenizer finds the closing quote behind an escape, and not inside it. */
  lemma StringEndOne(c: char, d: string, at: nat)
    requires at + |EscapeChar(c)| <= |d| && d[at..at + |EscapeChar(c)|] == EscapeChar(c)
    ensures StringEnd(d, at) == StringEnd(d, at + |EscapeChar(c)|)
  {
    hide EscapeChar, Plain;
    var e := EscapeChar(c);
    SliceAt(d, at, e);
    EscapeShape(c);
    if |e| == 6 {
      StringEndControl(d, at);
    }
  }

  lemma StringEndControl(d: string, at: nat)
    requires at + 6 <= |d| && d[at] == '\\'
    requires forall k :: at + 2 <= k < at + 6 ==> d[k] != '\\' && d[k] != '"'
    ensures StringEnd(d, at) == StringEnd(d, at + 6)
  {
    assert d[at + 2] != '"' && d[at + 3] != '"' && d[at + 4] != '"' && d[at + 5] != '"';
    assert StringEnd(d, at + 2) == StringEnd(d, at + 3);
    assert StringEnd(d, at + 3) == StringEnd(d, at + 4);
    assert StringEnd(d, at + 4) == StringEnd(d, at + 5);
  }

  lemma {:induction false} StringEndEscaped(s: string, i: nat, d: string, at: nat)
    requires i <= |s| && at + |EscapeFrom(s, i)| < |d|
    requires d[at..at + |EscapeFrom(s, i)|] == EscapeFrom(s, i) && d[at + |EscapeFrom(s, i)|] == '"'
    ensures StringEnd(d, at) == (at + |EscapeFrom(s, i)| + 1, true)
    decreases |s| - i
  {
    hide EscapeChar;
    var e := EscapeFrom(s, i);
    if i < |s| {
      var n := |EscapeChar(s[i])|;
      assert d[at..at + n] == d[at..at + |e|][..n] == EscapeChar(s[i]);
      assert d[at + n..at + |e|] == d[at..at + |e|][n..] == EscapeFrom(s, i + 1);
      StringEndOne(s[i], d, at);
      StringEndEscaped(s, i + 1, d, at + n);
    }
  }

  /** A quoted string is one token. */
  lemma LexQuoted(s: string)
    ensures Lex(Quoted(s), 0) == [Lexeme(QString, Quoted(s))]
    ensures NoNul(s) ==> NoNul(Quoted(s))
  {
    var q := Quoted(s);
    var e := EscapeFrom(s, 0);
    assert q[1..1 + |e|] == e && q[1 + |e|] == '"';
    StringEndEscaped(s, 0, q, 1);
    assert SkipSpaces(q, 0) == 0;
    assert ReadToken(q, 0) == Token(QString, 0, |q|);
    LexStep(q, 0);
    LexStep(q, |q|);
    assert q[0..|q|] == q;
    if NoNul(s) {
      EscapedIsClean(s, 0);
    }
  }

  // ------------------------------------------------------- section 7 of RFC 8259

  /** The two-character escapes */
  lemma ShortEscapes()
    ensures EscapeChar('"') == "\\\"" && EscapeChar('\\') == "\\\\"
    ensures EscapeChar(8 as char) == "\\b" && EscapeChar(12 as char) == "\\f"
    ensures EscapeChar(10 as char) == "\\n" && EscapeChar(13 as char) == "\\r" && EscapeChar(9 as char) == "\\t"
    ensures Plain('"') == "\"" && Plain('\\') == "\\" && Plain('/') == "/" && Plain('b') == [8 as char]
    ensures Plain('f') == [12 as char] && Plain('n') == [10 as char] && Plain('r') == [13 as char] && Plain('t') == [9 as char]
  {
  }

  predicate IsHex(c: char) { '0' <= c <= '9' || 'A' <= c <= 'F' || 'a' <= c <= 'f' }

  predicate IsShort(c: char) {
    c == '"' || c == '\\' || c == '/' || c == 'b' || c == 'f' || c == 'n' || c == 'r' || c == 't'
  }

  /** From `i` on, up to a closing quote at the end: characters that may stand unescaped, and
      escapes */
  predicate JsonChars(x: string, i: nat)
    requires i <= |x|
    decreases |x| - i
  {
    if i == |x| then false
    else if x[i] == '"' then i + 1 == |x|
    else if x[i] != '\\' then x[i] as int >= 0x20 && JsonChars(x, i + 1)
    else
      i + 1 < |x| &&
      if x[i + 1] == 'u' then i + 6 <= |x| && (forall k :: i + 2 <= k < i + 6 ==> IsHex(x[k])) && JsonChars(x, i + 6)
      else IsShort(x[i + 1]) && JsonChars(x, i + 2)
  }

  /** A hexadecimal digit in either case */
  function HexChar(n: nat, upper: bool): char
    requires n < 16
  {
    (if upper then "0123456789ABCDEF" else "0123456789abcdef")[n]
  }

  lemma HexDigitIsHex(n: nat)
    requires n < 16
    ensures HexDigit(n) == HexChar(n, true) && IsHex(HexDigit(n))
  {
  }

  lemma {:induction false} EscapedIsJson(s: string, i: nat, x: string, at: nat)
    requires NoNul(s) && i <= |s| && at <= |x| && x[at..] == EscapeFrom(s, i) + "\""
    ensures JsonChars(x, at)
    decreases |s| - i
  {
    hide EscapeChar, Plain, IsHex, HexDigit;
    if i == |s| {
      assert x[at] == x[at..][0];
    } else {
      var e := EscapeChar(s[i]);
      assert x[at..] == e + (EscapeFrom(s, i + 1) + "\"");
      assert x[at..at + |e|] == e && x[at + |e|..] == EscapeFrom(s, i + 1) + "\"";
      SliceAt(x, at, e);
      EscapedIsJson(s, i + 1, x, at + |e|);
      EscapeIsLegal(s[i]);
      assert s[i] in s;
    }
  }

  /** One escape is what the grammar allows. */
  lemma EscapeIsLegal(c: char)
    ensures var e := EscapeChar(c);
      || (e == [c] && c != '"' && c != '\\' && (c == '\0' || c as int >= 0x20))
      || (|e| == 2 && e[0] == '\\' && IsShort(e[1]))
      || (|e| == 6 && e[0] == '\\' && e[1] == 'u' && forall k :: 2 <= k < 6 ==> IsHex(e[k]))
  {
    hide HexDigit;
    if IsControl(c) {
      HexDigitIsHex(c as int / 16);
      HexDigitIsHex(c as int % 16);
    }
  }

  /** What is written is a JSON string. */
  lemma QuotedIsJson(s: string)
    requires NoNul(s)
    ensures Quoted(s)[0] == '"' && JsonChars(Quoted(s), 1)
  {
    hide EscapeFrom, JsonChars;
    assert Quoted(s)[1..] == EscapeFrom(s, 0) + "\"";
    EscapedIsJson(s, 0, Quoted(s), 1);
  }

  function Four(n: nat, upper: bool): (f: string)
    requires n < 0x1_0000
    ensures |f| == 4
  {
    [HexChar(n / 0x1000, upper), HexChar(n / 0x100 % 0x10, upper), HexChar(n / 0x10 % 0x10, upper), HexChar(n % 0x10, upper)]
  }

  /** A code point as an escape: above FFFF as its UTF-16 surrogate pair */
  function UnicodeEscape(cp: nat, upper: bool): string
    requires cp <= 0x10FFFF
  {
    if cp < 0x1_0000 then "\\u" + Four(cp, upper)
    else "\\u" + Four(0xD800 + (cp - 0x1_0000) / 0x400, upper) + "\\u" + Four(0xDC00 + (cp - 0x1_0000) % 0x400, upper)
  }

  lemma HexOfDigit(n: nat, upper: bool)
    requires n < 16
    ensures HexValue(HexChar(n, upper)) == n
  {
  }

  lemma FourDigits(n: nat)
    ensures ((n / 0x1000 * 16 + n / 0x100 % 0x10) * 16 + n / 0x10 % 0x10) * 16 + n % 0x10 == n
  {
    LastOf(n, 0x10);
    LastOf(n, 0x100);
  }

  /** Dividing by 16 once more */
  lemma LastOf(n: nat, d: nat)
    requires d in {0x10, 0x100}
    ensures n / d == n / (16 * d) * 16 + n / d % 0x10
  {
    var q := n / d;
    if d == 0x10 {
      assert q / 16 == n / 0x100;
    } else {
      assert q / 16 == n / 0x1000;
    }
  }

  lemma ReadFour(n: nat, upper: bool, d: string, at: nat, end: nat)
    requires n < 0x1_0000 && at + 4 <= end <= |d| && d[at..at + 4] == Four(n, upper)
    ensures Hex4(d, at, end) == CodePoint(n, at + 4)
  {
    hide HexValue, HexChar;
    SliceAt(d, at, Four(n, upper));
    assert n / 0x1000 < 16;
    HexOfDigit(n / 0x1000, upper);
    HexOfDigit(n / 0x100 % 0x10, upper);
    HexOfDigit(n / 0x10 % 0x10, upper);
    HexOfDigit(n % 0x10, upper);
    FourDigits(n);
  }

  lemma DecodeU(d: string, at: nat, end: nat, cp: nat, next: nat)
    requires at + 2 <= end <= |d| && d[at] == '\\' && d[at + 1] == 'u' && cp <= 0x10FFFF
    requires at + 2 < next <= end && CodePointAt(d, at + 2, end) == CodePoint(cp, next)
    ensures DecodeFrom(d, at, end) == Prepend(Text(Utf8.Encode(cp)), DecodeFrom(d, next, end))
  {
    hide CodePointAt, Utf8.Encode, Text, Prepend;
  }

  lemma OneEscape(n: nat, upper: bool, d: string, at: nat, end: nat)
    requires n < 0x1_0000 && at + 6 <= end <= |d| && d[at..at + 6] == "\\u" + Four(n, upper)
    ensures d[at] == '\\' && d[at + 1] == 'u' && Hex4(d, at + 2, end) == CodePoint(n, at + 6)
  {
    hide Four, Hex4;
    var e := "\\u" + Four(n, upper);
    SliceAt(d, at, e);
    assert e[0] == '\\' && e[1] == 'u' && e[2..6] == Four(n, upper);
    assert d[at + 2..at + 6] == d[at..at + 6][2..6];
    ReadFour(n, upper, d, at + 2, end);
  }

  lemma PairIsCodePoint(cp: nat)
    requires 0x1_0000 <= cp <= 0x10FFFF
    ensures Pair(0xD800 + (cp - 0x1_0000) / 0x400, 0xDC00 + (cp - 0x1_0000) % 0x400) == cp
  {
  }

  /** Every code point written as an escape is decoded to its UTF-8 encoding. */
  lemma DecodeUnicodeEscape(cp: nat, upper: bool, d: string, at: nat, end: nat)
    requires cp <= 0x10FFFF && !(0xD800 <= cp <= 0xDBFF)
    requires at + |UnicodeEscape(cp, upper)| <= end <= |d|
    requires d[at..at + |UnicodeEscape(cp, upper)|] == UnicodeEscape(cp, upper)
    ensures DecodeFrom(d, at, end) == Prepend(Text(Utf8.Encode(cp)), DecodeFrom(d, at + |UnicodeEscape(cp, upper)|, end))
  {
    hide Four, Hex4, Pair, Utf8.Encode, Prepend, Text, DecodeFrom;
    var e := UnicodeEscape(cp, upper);
    if cp < 0x1_0000 {
      OneEscape(cp, upper, d, at, end);
    } else {
      var first, second := 0xD800 + (cp - 0x1_0000) / 0x400, 0xDC00 + (cp - 0x1_0000) % 0x400;
      var a, b := "\\u" + Four(first, upper), "\\u" + Four(second, upper);
      assert e == a + b;
      assert d[at..at + 6] == d[at..at + 12][..6] == a && d[at + 6..at + 12] == d[at..at + 12][6..] == b;
      OneEscape(first, upper, d, at, end);
      OneEscape(second, upper, d, at + 6, end);
      PairIsCodePoint(cp);
    }
    assert CodePointAt(d, at + 2, end) == CodePoint(cp, at + |e|);
    DecodeU(d, at, end, cp, at + |e|);
  }
}

/** Integers in decimal, and how the reader decides what a number is. */
module JsonNumbers {
  import opened Decimals
  import opened JsonText

  const TWO63: int := 0x8000_0000_0000_0000
  const TWO64: int := 0x1_0000_0000_0000_0000
  const MAX_INT: nat := 0x7FFF_FFFF

  function Pow10(k: nat): nat { if k == 0 then 1 else 10 * Pow10(k - 1) }

  lemma Pow10Of20()
    ensures Pow10(20) == 100_000_000_000_000_000_000
  {
    assert Pow10(5) == 10 * Pow10(4) && Pow10(4) == 10 * Pow10(3) == 10_000;
    assert Pow10(9) == 10 * Pow10(8) && Pow10(8) == 10 * Pow10(7) && Pow10(7) == 10 * Pow10(6) == 100 * Pow10(5);
    assert Pow10(13) == 10 * Pow10(12) && Pow10(12) == 10 * Pow10(11) && Pow10(11) == 10 * Pow10(10) == 100 * Pow10(9);
    assert Pow10(17) == 10 * Pow10(16) && Pow10(16) == 10 * Pow10(15) && Pow10(15) == 10 * Pow10(14) == 100 * Pow10(13);
    assert Pow10(20) == 10 * Pow10(19) && Pow10(19) == 10 * Pow10(18) == 100 * Pow10(17);
  }

  lemma {:induction false} DecimalIsShort(n: nat, k: nat)
    requires n < Pow10(k) && k > 0
    ensures |Decimal(n)| <= k
  {
    if n >= 10 {
      DecimalIsShort(n / 10, k - 1);
    }
  }

  lemma LastDigit(n: nat)
    ensures Decimal(n) == (if n / 10 == 0 then "" else Decimal(n / 10)) + [DigitChar(n % 10)]
  {
  }

  /** uintToString, in a buffer of 25 characters with the terminating NUL: the digits are
      written backwards and fit. */
  method UintToString(value0: nat) returns (s: string)
    requires value0 < TWO64
    ensures s == Decimal(value0)
  {
    hide Decimal, Pow10;
    Pow10Of20();
    DecimalIsShort(value0, 20);
    var buffer := new char[25](_ => '\0');
    var current, value := 24, value0;
    ghost var tail := "";
    while true
      invariant |tail| == 24 - current && current <= 24 && buffer[current..24] == tail
      invariant Decimal(value0) == Decimal(value) + tail
      decreases value
    {
      LastDigit(value);
      assert |Decimal(value)| + |tail| <= 20 && |Decimal(value)| > 0;
      current := current - 1;
      buffer[current] := DigitChar(value % 10);
      assert buffer[current..24] == [DigitChar(value % 10)] + tail;
      tail := [DigitChar(value % 10)] + tail;
      value := value / 10;
      if value == 0 {
        break;
      }
    }
    s := buffer[current..24];
  }

  /** The text of an integer */
  function IntText(i: int): string { if i < 0 then "-" + Decimal(-i) else Decimal(i) }

  /** valueToString of a signed integer. The smallest one has no positive counterpart: negating it
      wraps around to itself, which as an unsigned number is its magnitude. */
  method ValueToString(value: int) returns (s: string)
    requires -TWO63 <= value < TWO63
    ensures s == IntText(value)
  {
    var negated := if value == -TWO63 then value else if value < 0 then -value else value;
    var digits := UintToString(if negated < 0 then negated + TWO64 else negated);
    s := if value < 0 then "-" + digits else digits;
  }

  // ------------------------------------------------------------------ decodeNumber

  /** What the reader makes of a number: a signed integer, an unsigned one, or something left to
      sscanf */
  datatype Outcome = Signed(i: int) | Unsigned(u: nat) | Double

  predicate AllDigits(s: string) { forall k :: 0 <= k < |s| ==> IsDigit(s[k]) }

  predicate AllNumberChars(s: string) { forall k :: 0 <= k < |s| ==> IsNumberChar(s[k]) }

  function Max(negative: bool): nat { if negative then TWO63 else TWO64 - 1 }

  /** Where the check against the largest integer is too weak: the number without its last digit
      is above the threshold, it was below without the last two, and the last digit is small. */
  predicate SlipsThrough(n: nat, negative: bool) {
    n / 100 < Max(negative) / 10 < n / 10 && n % 10 <= Max(negative) % 10
  }

  function AsSigned(u: nat): int { if u < TWO63 then u else u - TWO64 }

  /** The value given to an integer of magnitude `n` modulo 2^64 */
  function Stored(n: nat, negative: bool): Outcome {
    var m := n % TWO64;
    if negative then Signed(if m == TWO63 then -TWO63 else -AsSigned(m))
    else if m <= MAX_INT then Signed(m)
    else Unsigned(m)
  }

  /** The outcome for a sign and digits of value `n`, by the value alone */
  function Classify(n: nat, negative: bool): Outcome {
    if n > Max(negative) && !SlipsThrough(n, negative) then Double else Stored(n, negative)
  }

  predicate LooksDouble(s: string) {
    exists k :: 0 <= k < |s| && (s[k] in {'.', 'e', 'E', '+'} || (s[k] == '-' && k > 0))
  }

  /** The outcome for a number token */
  function OutcomeOf(s: string): Outcome
    requires AllNumberChars(s)
  {
    if LooksDouble(s) then Double
    else
      var negative := s != "" && s[0] == '-';
      var digits := if negative then s[1..] else s;
      assert AllDigits(digits);
      Classify(Numeral(digits), negative)
  }

  lemma {:induction false} PrefixIsSmaller(s: string, j: nat, k: nat)
    requires AllDigits(s) && j <= k <= |s|
    ensures Numeral(s[..j]) <= Numeral(s[..k])
    decreases k
  {
    if j < k {
      assert s[..k][..k - 1] == s[..k - 1];
      PrefixIsSmaller(s, j, k - 1);
    }
  }

  lemma NumeralStep(s: string, k: nat)
    requires AllDigits(s) && k < |s|
    ensures Numeral(s[..k + 1]) == 10 * Numeral(s[..k]) + (s[k] as int - '0' as int)
    ensures 0 <= s[k] as int - '0' as int <= 9
  {
    assert s[..k + 1][..k] == s[..k];
  }

  /** Too large a prefix with more than one digit to come: too large a number. */
  lemma StopsEarly(s: string, k: nat, negative: bool)
    requires AllDigits(s) && k + 1 < |s| && Numeral(s[..k]) >= Max(negative) / 10
    ensures Classify(Numeral(s), negative) == Double
  {
    hide Numeral;
    assert s[..|s|] == s;
    NumeralStep(s, |s| - 1);
    NumeralStep(s, |s| - 2);
    PrefixIsSmaller(s, k, |s| - 2);
    TwoDigitsMore(Numeral(s[..|s| - 2]), s[|s| - 2] as int - '0' as int, s[|s| - 1] as int - '0' as int, negative);
  }

  lemma TwoDigitsMore(q: nat, d: nat, e: nat, negative: bool)
    requires q >= Max(negative) / 10 && d < 10 && e < 10
    ensures Classify(10 * (10 * q + d) + e, negative) == Double
  {
    var n := 10 * (10 * q + d) + e;
    assert n / 10 == 10 * q + d && n / 100 == q;
  }

  /** The last digit decides. */
  lemma StopsLate(s: string, k: nat, digit: nat, negative: bool)
    requires AllDigits(s) && k + 1 == |s| && digit == s[k] as int - '0' as int
    requires Numeral(s[..k]) / 10 < Max(negative) / 10
    ensures var p := Numeral(s[..k]);
      Classify(Numeral(s), negative) ==
        if p >= Max(negative) / 10 && digit > Max(negative) % 10 then Double else Stored(p * 10 + digit, negative)
  {
    hide Numeral;
    assert s[..k + 1] == s;
    NumeralStep(s, k);
    OneDigitMore(Numeral(s[..k]), digit, negative);
  }

  lemma OneDigitMore(p: nat, digit: nat, negative: bool)
    requires p / 10 < Max(negative) / 10 && digit < 10
    ensures Classify(10 * p + digit, negative) ==
      if p >= Max(negative) / 10 && digit > Max(negative) % 10 then Double else Stored(p * 10 + digit, negative)
  {
    var n := 10 * p + digit;
    assert n / 10 == p && n / 100 == p / 10 && n % 10 == digit;
  }

  lemma TooLarge(s: string, k: nat, negative: bool)
    requires AllDigits(s) && k < |s| && Numeral(s[..k]) >= Max(negative) / 10
    requires Numeral(s[..k]) / 10 < Max(negative) / 10
    requires k + 1 != |s| || s[k] as int - '0' as int > Max(negative) % 10
    ensures Classify(Numeral(s), negative) == Double
  {
    hide Classify, Numeral;
    if k + 1 != |s| {
      StopsEarly(s, k, negative);
    } else {
      StopsLate(s, k, s[k] as int - '0' as int, negative);
    }
  }

  /** decodeNumber, from the digits on: `digits` has no sign and no character of a double. */
  method DecodeDigits(digits: string, negative: bool) returns (r: Outcome)
    requires AllDigits(digits)
    ensures r == Classify(Numeral(digits), negative)
  {
    hide Classify, Numeral, Stored;
    var maxIntegerValue := Max(negative);
    var threshold, lastDigitThreshold := maxIntegerValue / 10, maxIntegerValue % 10;
    var value: nat, current: nat := 0, 0;
    NothingYet(digits, negative);
    while current < |digits|
      invariant current <= |digits| && value < TWO64
      invariant current < |digits| ==> value == Numeral(digits[..current]) && value / 10 < threshold
      invariant current == |digits| ==> Classify(Numeral(digits), negative) == Stored(value, negative)
    {
      var digit := digits[current] as int - '0' as int;
      NumeralStep(digits, current);
      current := current + 1;
      if value >= threshold {
        if current != |digits| || digit > lastDigitThreshold {
          TooLarge(digits, current - 1, negative);
          return Double;
        }
      }
      if current == |digits| {
        StopsLate(digits, current - 1, digit, negative);
        StoredModulo(value * 10 + digit, negative);
      }
      value := (value * 10 + digit) % TWO64;
    }
    r := Store(value, negative);
  }

  lemma NothingYet(s: string, negative: bool)
    ensures Numeral("") == 0
    ensures s == "" ==> Classify(Numeral(s), negative) == Stored(0, negative)
  {
  }

  lemma StoredModulo(n: nat, negative: bool)
    ensures Stored(n % TWO64, negative) == Stored(n, negative)
  {
  }

  /** The conversions at the end of decodeNumber */
  method Store(value: nat, negative: bool) returns (r: Outcome)
    requires value < TWO64
    ensures r == Stored(value, negative)
  {
    r := if negative then Signed(if value == TWO63 then -TWO63 else -AsSigned(value))
         else if value <= MAX_INT then Signed(value) else Unsigned(value);
  }

  /** decodeNumber, for the text of a number token */
  method DecodeNumber(token: string) returns (r: Outcome)
    requires token != "" && AllNumberChars(token)
    ensures r == OutcomeOf(token)
  {
    hide Classify, Numeral;
    var isDouble := false;
    for k := 0 to |token|
      invariant isDouble <==> exists j :: 0 <= j < k && (token[j] in {'.', 'e', 'E', '+'} || (token[j] == '-' && j > 0))
    {
      isDouble := isDouble || token[k] in {'.', 'e', 'E', '+'} || (token[k] == '-' && k > 0);
    }
    if isDouble {
      return Double;
    }
    if token[0] == '-' {
      r := DecodeDigits(token[1..], true);
    } else {
      r := DecodeDigits(token, false);
    }
  }

  function ValueOf(r: Outcome): int
    requires !r.Double?
  {
    if r.Signed? then r.i else r.u
  }

  /** An integer in range comes out exactly; beyond the range it is left to sscanf, or, exactly
      where the check against the largest integer is too weak, it comes out wrong. */
  lemma WhenNumbersAreRight(n: int, negative: bool)
    requires n >= 0
    ensures n <= Max(negative) ==>
      Classify(n, negative) == (if negative then Signed(-n) else if n <= MAX_INT then Signed(n) else Unsigned(n))
    ensures (Classify(n, negative) != Double && ValueOf(Classify(n, negative)) != if negative then -n else n)
        <==> SlipsThrough(n, negative)
    ensures Classify(n, negative) == Double ==> n > Max(negative)
  {
  }

  /** A number of twenty digits that comes out wrong */
  lemma WrongNumber()
    ensures SlipsThrough(99999999999999999993, false)
    ensures Classify(99999999999999999993, false) == Unsigned(7766279631452241913)
  {
  }

  lemma DigitsAreNumberChars(s: string)
    requires AllDigits(s)
    ensures AllNumberChars(s) && AllNumberChars("-" + s) && !LooksDouble(s) && !LooksDouble("-" + s)
  {
  }

  /** The reader gets back every 64-bit integer the writers print. */
  lemma DecodeIntText(i: int)
    requires -0x8000_0000_0000_0000 <= i <= 0xFFFF_FFFF_FFFF_FFFF
    ensures AllNumberChars(IntText(i))
    ensures OutcomeOf(IntText(i)) == if i <= 0x7FFF_FFFF then Signed(i) else Unsigned(i)
  {
    hide Classify, Numeral, Decimal;
    var digits := Decimal(if i < 0 then -i else i);
    DigitsAreNumberChars(digits);
    NumeralOfDecimal(if i < 0 then -i else i);
    assert ("-" + digits)[1..] == digits;
    WhenNumbersAreRight(if i < 0 then -i else i, i < 0);
  }

  lemma {:induction false} NumberToTheEnd(s: string, i: nat)
    requires i <= |s| && AllNumberChars(s)
    ensures NumberEnd(s, i) == |s|
    decreases |s| - i
  {
    if i < |s| {
      NumberToTheEnd(s, i + 1);
    }
  }

  /** An integer is one token. */
  lemma LexInt(i: int)
    ensures Lex(IntText(i), 0) == [Lexeme(Number, IntText(i))] && NoNul(IntText(i))
  {
    hide Decimal;
    var t := IntText(i);
    DigitsAreNumberChars(Decimal(if i < 0 then -i else i));
    NumberToTheEnd(t, 1);
    assert SkipSpaces(t, 0) == 0;
    assert ReadToken(t, 0) == Token(Number, 0, |t|);
    LexStep(t, 0);
    LexStep(t, |t|);
    assert t[0..|t|] == t;
    assert forall k :: 0 <= k < |t| ==> IsNumberChar(t[k]);
  }
}

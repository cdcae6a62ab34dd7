/** JSON text as the reader's tokenizer sees it, and the text of strings and integers. */
module JsonText {
  import opened Decimals
  import opened JsonValue

  datatype Kind =
    | EndOfStream | ObjectBegin | ObjectEnd | ArrayBegin | ArrayEnd | QString | Number
    | True | False | NullWord | ArraySeparator | MemberSeparator | Comment | Error

  /** A token of a document, from `start` up to `end` */
  datatype Token = Token(kind: Kind, start: nat, end: nat)

  predicate IsSpace(c: char) { c == ' ' || c == '\t' || c == '\r' || c == '\n' }

  predicate IsNumberChar(c: char) { IsDigit(c) || c == '.' || c == 'e' || c == 'E' || c == '+' || c == '-' }

  // --------------------------------------------------------------- the tokenizer

  function SkipSpaces(d: string, i: nat): (r: nat)
    requires i <= |d|
    ensures i <= r <= |d|
    ensures r < |d| ==> !IsSpace(d[r])
    decreases |d| - i
  {
    if i < |d| && IsSpace(d[i]) then SkipSpaces(d, i + 1) else i
  }

  function NumberEnd(d: string, i: nat): (r: nat)
    requires i <= |d|
    ensures i <= r <= |d|
    ensures forall k :: i <= k < r ==> IsNumberChar(d[k])
    decreases |d| - i
  {
    if i < |d| && IsNumberChar(d[i]) then NumberEnd(d, i + 1) else i
  }

  /** Where a string ends whose opening quote has been read, and whether it is closed */
  function StringEnd(d: string, i: nat): (r: (nat, bool))
    requires i <= |d|
    ensures i <= r.0 <= |d| && (r.1 ==> i < r.0)
    decreases |d| - i
  {
    if i == |d| then (i, false)
    else if d[i] == '\\' then (if i + 1 == |d| then (i + 1, false) else StringEnd(d, i + 2))
    else if d[i] == '"' then (i + 1, true)
    else StringEnd(d, i + 1)
  }

  function CStyleEnd(d: string, i: nat): (r: (nat, bool))
    requires i <= |d|
    ensures i <= r.0 <= |d|
    decreases |d| - i
  {
    if i == |d| then (i, false)
    else if d[i] == '*' && At(d, i + 1) == '/' then (i + 2, true)
    else CStyleEnd(d, i + 1)
  }

  function CppStyleEnd(d: string, i: nat): (r: nat)
    requires i <= |d|
    ensures i <= r <= |d|
    decreases |d| - i
  {
    if i == |d| then i
    else if d[i] == '\r' || d[i] == '\n' then i + 1
    else CppStyleEnd(d, i + 1)
  }

  /** Where a comment ends whose first slash has been read, and whether it is one */
  function CommentEnd(d: string, i: nat): (r: (nat, bool))
    requires i <= |d|
    ensures i <= r.0 <= |d|
  {
    if i == |d| then (i, false)
    else if d[i] == '*' then CStyleEnd(d, i + 1)
    else if d[i] == '/' then (CppStyleEnd(d, i + 1), true)
    else (i + 1, false)
  }

  predicate Matches(d: string, i: nat, word: string) { i + |word| <= |d| && d[i..i + |word|] == word }

  function Word(kind: Kind, d: string, s: nat, word: string): (t: Token)
    requires s < |d|
    ensures t.start == s < t.end <= |d|
  {
    if Matches(d, s + 1, word) then Token(kind, s, s + 1 + |word|) else Token(Error, s, s + 1)
  }

  /** readToken */
  function ReadToken(d: string, i: nat): (t: Token)
    requires i <= |d|
    ensures i <= t.start <= t.end <= |d|
    ensures t.start == SkipSpaces(d, i)
    ensures t.start < |d| ==> t.start < t.end
    ensures t.start == |d| ==> t.kind == EndOfStream
    ensures t.kind == EndOfStream <==> At(d, t.start) == '\0'
    ensures t.kind == ArrayEnd <==> At(d, t.start) == ']'
    ensures t.kind == QString ==> t.start + 2 <= t.end
    ensures t.kind == Number ==> forall k :: t.start <= k < t.end ==> IsNumberChar(d[k])
  {
    var s := SkipSpaces(d, i);
    if s == |d| then Token(EndOfStream, s, s)
    else
      match d[s]
      case '{' => Token(ObjectBegin, s, s + 1)
      case '}' => Token(ObjectEnd, s, s + 1)
      case '[' => Token(ArrayBegin, s, s + 1)
      case ']' => Token(ArrayEnd, s, s + 1)
      case '"' =>
        var r := StringEnd(d, s + 1);
        Token(if r.1 then QString else Error, s, r.0)
      case '/' =>
        var r := CommentEnd(d, s + 1);
        Token(if r.1 then Comment else Error, s, r.0)
      case 't' => Word(True, d, s, "rue")
      case 'f' => Word(False, d, s, "alse")
      case 'n' => Word(NullWord, d, s, "ull")
      case ',' => Token(ArraySeparator, s, s + 1)
      case ':' => Token(MemberSeparator, s, s + 1)
      case '\0' => Token(EndOfStream, s, s + 1)
      case c => if IsDigit(c) || c == '-' then Token(Number, s, NumberEnd(d, s + 1)) else Token(Error, s, s + 1)
  }

  // --------------------------------------------------------------- sequences of tokens

  datatype Lexeme = Lexeme(kind: Kind, text: string)

  function LexemeOf(d: string, t: Token): Lexeme
    requires t.start <= t.end <= |d|
  {
    Lexeme(t.kind, d[t.start..t.end])
  }

  /** The tokens of a document from position `i` on */
  function Lex(d: string, i: nat): seq<Lexeme>
    requires i <= |d|
    decreases |d| - i
  {
    var t := ReadToken(d, i);
    if t.kind == EndOfStream then [] else [LexemeOf(d, t)] + Lex(d, t.end)
  }

  /** A token that stands for something in the tree */
  predicate Solid(kind: Kind) { kind !in {EndOfStream, Comment, Error} }

  predicate AllSolid(toks: seq<Lexeme>) { forall k :: 0 <= k < |toks| ==> Solid(toks[k].kind) }

  predicate NoNul(s: string) { '\0' !in s }

  /** Putting `y` behind `x` cannot make a number at the end of `x` longer. */
  predicate Apart(x: string, y: string) {
    x == "" || y == "" || !IsNumberChar(x[|x| - 1]) || !IsNumberChar(y[0])
  }

  lemma {:induction false} SpacesShift(x: string, y: string, i: nat)
    requires i <= |y|
    ensures SkipSpaces(x + y, |x| + i) == |x| + SkipSpaces(y, i)
    decreases |y| - i
  {
    if i < |y| && IsSpace(y[i]) {
      SpacesShift(x, y, i + 1);
    }
  }

  lemma {:induction false} NumberShift(x: string, y: string, i: nat)
    requires i <= |y|
    ensures NumberEnd(x + y, |x| + i) == |x| + NumberEnd(y, i)
    decreases |y| - i
  {
    if i < |y| && IsNumberChar(y[i]) {
      NumberShift(x, y, i + 1);
    }
  }

  lemma {:induction false} StringShift(x: string, y: string, i: nat)
    requires i <= |y|
    ensures StringEnd(x + y, |x| + i) == (|x| + StringEnd(y, i).0, StringEnd(y, i).1)
    decreases |y| - i
  {
    if i < |y| && y[i] == '\\' && i + 1 < |y| {
      StringShift(x, y, i + 2);
    } else if i < |y| && y[i] != '\\' && y[i] != '"' {
      StringShift(x, y, i + 1);
    }
  }

  lemma {:induction false} CommentShift(x: string, y: string, i: nat)
    requires i <= |y|
    ensures CommentEnd(x + y, |x| + i) == (|x| + CommentEnd(y, i).0, CommentEnd(y, i).1)
  {
    if i < |y| && y[i] == '*' {
      CStyleShift(x, y, i + 1);
    } else if i < |y| && y[i] == '/' {
      CppStyleShift(x, y, i + 1);
    }
  }

  lemma {:induction false} CStyleShift(x: string, y: string, i: nat)
    requires i <= |y|
    ensures CStyleEnd(x + y, |x| + i) == (|x| + CStyleEnd(y, i).0, CStyleEnd(y, i).1)
    decreases |y| - i
  {
    if i < |y| && !(y[i] == '*' && At(y, i + 1) == '/') {
      CStyleShift(x, y, i + 1);
    }
  }

  lemma {:induction false} CppStyleShift(x: string, y: string, i: nat)
    requires i <= |y|
    ensures CppStyleEnd(x + y, |x| + i) == |x| + CppStyleEnd(y, i)
    decreases |y| - i
  {
    if i < |y| && !(y[i] == '\r' || y[i] == '\n') {
      CppStyleShift(x, y, i + 1);
    }
  }

  lemma MatchesShift(x: string, y: string, i: nat, word: string)
    ensures Matches(x + y, |x| + i, word) == Matches(y, i, word)
  {
    if i + |word| <= |y| {
      assert (x + y)[|x| + i..|x| + i + |word|] == y[i..i + |word|];
    }
  }

  function Moved(t: Token, n: nat): Token { Token(t.kind, t.start + n, t.end + n) }

  /** What is before a position does not matter for the tokens from there on. */
  lemma TokenShift(x: string, y: string, i: nat)
    requires i <= |y|
    ensures ReadToken(x + y, |x| + i) == Moved(ReadToken(y, i), |x|)
  {
    hide SkipSpaces, NumberEnd, StringEnd, CommentEnd, Matches;
    SpacesShift(x, y, i);
    var s := SkipSpaces(y, i);
    if s < |y| {
      assert (x + y)[|x| + s] == y[s];
      NumberShift(x, y, s + 1);
      StringShift(x, y, s + 1);
      CommentShift(x, y, s + 1);
      MatchesShift(x, y, s + 1, "rue");
      MatchesShift(x, y, s + 1, "alse");
      MatchesShift(x, y, s + 1, "ull");
    }
  }

  lemma LexStep(d: string, i: nat)
    requires i <= |d|
    ensures var t := ReadToken(d, i);
      Lex(d, i) == if t.kind == EndOfStream then [] else [LexemeOf(d, t)] + Lex(d, t.end)
  {
    hide ReadToken;
  }

  lemma SliceShift(x: string, y: string, i: nat, j: nat)
    requires i <= j <= |y|
    ensures (x + y)[|x| + i..|x| + j] == y[i..j]
  {
  }

  lemma {:induction false} LexShift(x: string, y: string, i: nat)
    requires i <= |y|
    ensures Lex(x + y, |x| + i) == Lex(y, i)
    decreases |y| - i
  {
    hide ReadToken, Lex;
    TokenShift(x, y, i);
    var t := ReadToken(y, i);
    LexStep(y, i);
    LexStep(x + y, |x| + i);
    if t.kind != EndOfStream {
      SliceShift(x, y, t.start, t.end);
      LexShift(x, y, t.end);
    }
  }

  lemma {:induction false} SpacesPrefix(x: string, y: string, i: nat)
    requires i <= |x|
    ensures SkipSpaces(x + y, i) == if SkipSpaces(x, i) < |x| then SkipSpaces(x, i) else SkipSpaces(x + y, |x|)
    decreases |x| - i
  {
    if i < |x| && IsSpace(x[i]) {
      SpacesPrefix(x, y, i + 1);
    }
  }

  lemma {:induction false} NumberPrefix(x: string, y: string, i: nat)
    requires i <= |x| && (NumberEnd(x, i) < |x| || y == "" || !IsNumberChar(y[0]))
    ensures NumberEnd(x + y, i) == NumberEnd(x, i)
    decreases |x| - i
  {
    if i < |x| && IsNumberChar(x[i]) {
      NumberPrefix(x, y, i + 1);
    }
  }

  lemma {:induction false} StringPrefix(x: string, y: string, i: nat)
    requires i <= |x| && StringEnd(x, i).1
    ensures StringEnd(x + y, i) == StringEnd(x, i)
    decreases |x| - i
  {
    if x[i] == '\\' {
      StringPrefix(x, y, i + 2);
    } else if x[i] != '"' {
      StringPrefix(x, y, i + 1);
    }
  }

  lemma MatchesPrefix(x: string, y: string, i: nat, word: string)
    requires Matches(x, i, word)
    ensures Matches(x + y, i, word)
  {
    assert (x + y)[i..i + |word|] == x[i..i + |word|];
  }

  /** A complete token stays what it is when more text follows. */
  lemma TokenPrefix(x: string, y: string, i: nat)
    requires i <= |x|
    requires var t := ReadToken(x, i);
      Solid(t.kind) && (t.kind == Number && t.end == |x| ==> y == "" || !IsNumberChar(y[0]))
    ensures ReadToken(x + y, i) == ReadToken(x, i)
  {
    hide SkipSpaces, NumberEnd, StringEnd, CommentEnd, Matches;
    SpacesPrefix(x, y, i);
    var s := SkipSpaces(x, i);
    assert s < |x| && (x + y)[s] == x[s];
    match x[s] {
      case '"' => StringPrefix(x, y, s + 1);
      case 't' => MatchesPrefix(x, y, s + 1, "rue");
      case 'f' => MatchesPrefix(x, y, s + 1, "alse");
      case 'n' => MatchesPrefix(x, y, s + 1, "ull");
      case c =>
        if IsDigit(c) || c == '-' {
          NumberPrefix(x, y, s + 1);
        }
    }
  }

  lemma {:induction false} NumberEndsInNumberChar(d: string, i: nat)
    requires 0 < i <= |d| && IsNumberChar(d[i - 1])
    ensures IsNumberChar(d[NumberEnd(d, i) - 1])
    decreases |d| - i
  {
    if i < |d| && IsNumberChar(d[i]) {
      NumberEndsInNumberChar(d, i + 1);
    }
  }

  lemma SolidHeadAndTail(first: Lexeme, rest: seq<Lexeme>)
    requires AllSolid([first] + rest)
    ensures Solid(first.kind) && AllSolid(rest)
  {
    assert ([first] + rest)[0] == first;
    assert forall k :: 0 <= k < |rest| ==> rest[k] == ([first] + rest)[k + 1];
  }

  /** The tokens of two texts one after the other are those of the first and then those of the
      second. */
  lemma {:induction false} LexAppend(x: string, y: string, i: nat)
    requires i <= |x| && NoNul(x) && AllSolid(Lex(x, i)) && Apart(x, y)
    ensures Lex(x + y, i) == Lex(x, i) + Lex(y, 0)
    decreases |x| - i
  {
    hide ReadToken, Lex, AllSolid, NoNul, IsNumberChar;
    var t := ReadToken(x, i);
    LexStep(x, i);
    if t.kind == EndOfStream {
      EndIsEnd(x, y, i);
      LexShift(x, y, 0);
    } else {
      SolidHeadAndTail(LexemeOf(x, t), Lex(x, t.end));
      if t.kind == Number && t.end == |x| {
        NumberAtEnd(x, i);
      }
      TokenPrefix(x, y, i);
      LexStep(x + y, i);
      assert (x + y)[t.start..t.end] == x[t.start..t.end];
      LexAppend(x, y, t.end);
      assert [LexemeOf(x, t)] + (Lex(x, t.end) + Lex(y, 0)) == ([LexemeOf(x, t)] + Lex(x, t.end)) + Lex(y, 0);
    }
  }

  lemma EndIsEnd(x: string, y: string, i: nat)
    requires i <= |x| && NoNul(x) && ReadToken(x, i).kind == EndOfStream
    ensures Lex(x + y, i) == Lex(x + y, |x|)
  {
    hide SkipSpaces, NumberEnd, StringEnd, CommentEnd, Matches;
    SpacesPrefix(x, y, i);
  }

  lemma NumberAtEnd(x: string, i: nat)
    requires i <= |x| && ReadToken(x, i).kind == Number && ReadToken(x, i).end == |x|
    ensures IsNumberChar(x[|x| - 1])
  {
    hide SkipSpaces, StringEnd, CommentEnd, Matches;
    NumberEndsInNumberChar(x, ReadToken(x, i).start + 1);
  }

  // --------------------------------------------------- tokens by their characters

  /** White space of section 2 of RFC 8259 in front of a text does not matter. */
  lemma {:induction false} WhiteSpace(w: string, y: string)
    requires forall k :: 0 <= k < |w| ==> w[k] in " \t\n\r"
    ensures Lex(w + y, 0) == Lex(y, 0)
  {
    hide ReadToken, Lex;
    LexShift(w, y, 0);
    SpacesUpTo(w, y, 0);
    SameTokenBehind(w + y, 0, |w|);
  }

  lemma {:induction false} SpacesUpTo(w: string, y: string, i: nat)
    requires i <= |w| && forall k :: 0 <= k < |w| ==> w[k] in " \t\n\r"
    ensures SkipSpaces(w + y, i) == SkipSpaces(w + y, |w|)
    decreases |w| - i
  {
    if i < |w| {
      assert (w + y)[i] == w[i];
      SpacesUpTo(w, y, i + 1);
    }
  }

  lemma SameTokenBehind(d: string, i: nat, j: nat)
    requires i <= |d| && j <= |d| && SkipSpaces(d, i) == SkipSpaces(d, j)
    ensures Lex(d, i) == Lex(d, j)
  {
    hide Lex, SkipSpaces, StringEnd, NumberEnd, CommentEnd, Matches;
    LexStep(d, i);
    LexStep(d, j);
  }

  /** The characters numbers are made of in section 6 of RFC 8259 */
  predicate InNumber(c: char) { c in "+-.0123456789Ee" }

  lemma NumberCharacters(c: char)
    ensures IsNumberChar(c) <==> InNumber(c)
    ensures IsDigit(c) || c == '-' <==> c in "-0123456789"
  {
  }

  /** Any run of them behind a digit or a minus sign is one token, so every number is. */
  lemma NumberToken(x: string, y: string)
    requires x != "" && x[0] in "-0123456789" && forall k :: 0 <= k < |x| ==> InNumber(x[k])
    requires y != "" ==> !InNumber(y[0])
    ensures ReadToken(x + y, 0) == Token(Number, 0, |x|)
  {
    hide InNumber;
    NumberCharacters(x[0]);
    NumberUpTo(x, y, 1);
    NumberFirst(x + y);
  }

  lemma NumberFirst(d: string)
    requires d != "" && (IsDigit(d[0]) || d[0] == '-')
    ensures ReadToken(d, 0) == Token(Number, 0, NumberEnd(d, 1))
  {
    assert SkipSpaces(d, 0) == 0;
  }

  lemma {:induction false} NumberUpTo(x: string, y: string, i: nat)
    requires i <= |x| && (forall k :: 0 <= k < |x| ==> InNumber(x[k])) && (y != "" ==> !InNumber(y[0]))
    ensures NumberEnd(x + y, i) == |x|
    decreases |x| - i
  {
    hide InNumber;
    if i < |x| {
      assert (x + y)[i] == x[i];
      NumberCharacters(x[i]);
      NumberUpTo(x, y, i + 1);
    } else if y != "" {
      assert (x + y)[i] == y[0];
      NumberCharacters(y[0]);
    }
  }

  /** A comment in the style of C ends with the first asterisk and slash, */
  lemma CStyleComment(body: string, y: string)
    requires forall k :: 0 <= k < |body| - 1 ==> !(body[k] == '*' && body[k + 1] == '/')
    ensures ReadToken("/*" + body + "*/" + y, 0) == Token(Comment, 0, |body| + 4)
  {
    var d := "/*" + body + "*/" + y;
    CStyleUpTo(d, body, 0);
    assert SkipSpaces(d, 0) == 0;
  }

  lemma {:induction false} CStyleUpTo(d: string, body: string, i: nat)
    requires i <= |body| && |d| >= |body| + 4 && d[..|body| + 4] == "/*" + body + "*/"
    requires forall k :: 0 <= k < |body| - 1 ==> !(body[k] == '*' && body[k + 1] == '/')
    ensures CStyleEnd(d, i + 2) == (|body| + 4, true)
    decreases |body| - i
  {
    var c := "/*" + body + "*/";
    assert forall k :: 0 <= k < |c| ==> d[k] == d[..|body| + 4][k] == c[k];
    if i < |body| {
      assert d[i + 2] == body[i] && (i + 1 < |body| ==> d[i + 3] == body[i + 1]);
      CStyleUpTo(d, body, i + 1);
    }
  }

  /** and one in the style of C++ with the line. */
  lemma CppStyleComment(body: string, newline: char, y: string)
    requires newline in "\r\n" && forall k :: 0 <= k < |body| ==> body[k] !in "\r\n"
    ensures ReadToken("//" + body + [newline] + y, 0) == Token(Comment, 0, |body| + 3)
  {
    var d := "//" + body + [newline] + y;
    CppStyleUpTo(d, body, newline, 0);
    assert SkipSpaces(d, 0) == 0;
  }

  lemma {:induction false} CppStyleUpTo(d: string, body: string, newline: char, i: nat)
    requires i <= |body| && |d| >= |body| + 3 && d[..|body| + 3] == "//" + body + [newline]
    requires newline in "\r\n" && forall k :: 0 <= k < |body| ==> body[k] !in "\r\n"
    ensures CppStyleEnd(d, i + 2) == |body| + 3
    decreases |body| - i
  {
    var c := "//" + body + [newline];
    assert forall k :: 0 <= k < |c| ==> d[k] == d[..|body| + 3][k] == c[k];
    if i < |body| {
      assert d[i + 2] == body[i];
      CppStyleUpTo(d, body, newline, i + 1);
    }
  }
}

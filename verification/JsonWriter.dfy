/** The tokens a value tree is written as. */
module JsonTokens {
  import opened JsonNumbers
  import opened JsonStrings
  import opened JsonText
  import opened JsonValue

  const NULL_WORD := Lexeme(NullWord, "null")
  const TRUE_WORD := Lexeme(True, "true")
  const FALSE_WORD := Lexeme(False, "false")
  const LBRACKET := Lexeme(ArrayBegin, "[")
  const RBRACKET := Lexeme(ArrayEnd, "]")
  const LBRACE := Lexeme(ObjectBegin, "{")
  const RBRACE := Lexeme(ObjectEnd, "}")
  const COMMA := Lexeme(ArraySeparator, ",")
  const COLON := Lexeme(MemberSeparator, ":")

  /** A tree without reals, with integers of 64 bits and C strings. In a tree that an object of the
      program holds the members are sorted as well; without that, it stands for the members of a
      text, in any order and with names repeated. */
  predicate Printable(v: Json)
    decreases v, 1
  {
    match v
    case Int(i) => -TWO63 <= i < TWO63
    case UInt(u) => u < TWO64
    case Real(_) => false
    case NoStr => false
    case Str(s) => NoNul(s)
    case Arr(items) => forall k :: 0 <= k < |items| ==> Printable(items[k])
    case Obj(members) => forall k :: 0 <= k < |members| ==> NoNul(members[k].name) && Printable(members[k].value)
    case _ => true
  }

  predicate Ascending(ms: seq<Member>) {
    forall j, k :: 0 <= j < k < |ms| ==> Strcmp(ms[j].name, ms[k].name) < 0
  }

  /** The members of every object in the tree are ascending by name. */
  predicate Sorted(v: Json) {
    match v
    case Arr(items) => forall k :: 0 <= k < |items| ==> Sorted(items[k])
    case Obj(members) => Ascending(members) && forall k :: 0 <= k < |members| ==> Sorted(members[k].value)
    case _ => true
  }

  lemma {:induction false} SameStrings(s: string, t: string, i: nat)
    requires NoNul(s) && NoNul(t) && i <= |s| && i <= |t| && s[..i] == t[..i] && StrcmpFrom(s, t, i) == 0
    ensures s == t
    decreases |s| - i
  {
    NulAtEnd(s, i);
    NulAtEnd(t, i);
    if i < |s| {
      assert s[..i + 1] == s[..i] + [s[i]] && t[..i + 1] == t[..i] + [t[i]];
      SameStrings(s, t, i + 1);
    }
  }

  lemma NulAtEnd(s: string, i: nat)
    requires NoNul(s)
    ensures At(s, i) == '\0' <==> i >= |s|
  {
    if i < |s| {
      assert s[i] in s;
    }
  }

  /** On these trees operator== tells any two different trees apart. */
  lemma {:induction false} EqualMeansSame(a: Json, b: Json)
    requires Printable(a) && Printable(b) && Equal(a, b)
    ensures a == b
    decreases a
  {
    match a
    case Str(s) => SameStrings(s, b.s, 0);
    case Arr(items) =>
      forall k | 0 <= k < |items| ensures items[k] == b.items[k] {
        EqualMeansSame(items[k], b.items[k]);
      }
    case Obj(members) =>
      forall k | 0 <= k < |members| ensures members[k] == b.members[k] {
        SameStrings(members[k].name, b.members[k].name, 0);
        EqualMeansSame(members[k].value, b.members[k].value);
      }
    case _ =>
  }

  function NumberLexeme(i: int): Lexeme { Lexeme(Number, IntText(i)) }

  function StringLexeme(s: string): Lexeme { Lexeme(QString, Quoted(s)) }

  function Tokens(v: Json): seq<Lexeme>
    requires Printable(v)
    decreases v, 1
  {
    match v
    case Null => [NULL_WORD]
    case Int(i) => [NumberLexeme(i)]
    case UInt(u) => [NumberLexeme(u)]
    case Str(s) => [StringLexeme(s)]
    case Bool(b) => [if b then TRUE_WORD else FALSE_WORD]
    case Arr(items) => [LBRACKET] + ItemTokens(v, 0)
    case Obj(members) => [LBRACE] + MemberTokens(v, 0)
  }

  /** The items from `k` on, with their separators and the closing bracket */
  function ItemTokens(v: Json, k: nat): seq<Lexeme>
    requires v.Arr? && Printable(v) && k <= |v.items|
    decreases v, 0, |v.items| - k
  {
    if k == |v.items| then [RBRACKET]
    else Tokens(v.items[k]) + (if k + 1 < |v.items| then [COMMA] else []) + ItemTokens(v, k + 1)
  }

  function MemberTokens(v: Json, k: nat): seq<Lexeme>
    requires v.Obj? && Printable(v) && k <= |v.members|
    decreases v, 0, |v.members| - k
  {
    if k == |v.members| then [RBRACE]
    else
      [StringLexeme(v.members[k].name), COLON] + Tokens(v.members[k].value)
      + (if k + 1 < |v.members| then [COMMA] else []) + MemberTokens(v, k + 1)
  }

  // -------------------------------------------------------- texts and their tokens

  /** A text without NULs whose tokens are `toks` */
  ghost predicate Spells(x: string, toks: seq<Lexeme>) {
    NoNul(x) && AllSolid(toks) && Lex(x, 0) == toks
  }

  lemma SpellsAppend(x: string, a: seq<Lexeme>, y: string, b: seq<Lexeme>)
    requires Spells(x, a) && Spells(y, b) && Apart(x, y)
    ensures Spells(x + y, a + b)
  {
    hide Lex;
    LexAppend(x, y, 0);
  }

  predicate Punctuation(l: Lexeme) { l in {LBRACKET, RBRACKET, LBRACE, RBRACE, COMMA, COLON} }

  lemma SpellsPunctuation(l: Lexeme)
    requires Punctuation(l)
    ensures Spells(l.text, [l]) && !IsNumberChar(l.text[0])
  {
    var x := l.text;
    assert |x| == 1 && SkipSpaces(x, 0) == 0;
    assert ReadToken(x, 0) == Token(l.kind, 0, 1);
    LexStep(x, 0);
    LexStep(x, 1);
    assert x[0..1] == x;
  }

  lemma SpellsWord(l: Lexeme)
    requires l in {NULL_WORD, TRUE_WORD, FALSE_WORD}
    ensures Spells(l.text, [l])
  {
    var x := l.text;
    assert SkipSpaces(x, 0) == 0;
    assert Matches(x, 1, x[1..]) by {
      assert x[1..1 + |x[1..]|] == x[1..];
    }
    assert x[1..] == (if l == NULL_WORD then "ull" else if l == TRUE_WORD then "rue" else "alse");
    assert ReadToken(x, 0) == Token(l.kind, 0, |x|);
    LexStep(x, 0);
    LexStep(x, |x|);
    assert x[0..|x|] == x;
  }

  lemma SpellsInt(i: int)
    ensures Spells(IntText(i), [NumberLexeme(i)])
  {
    LexInt(i);
  }

  lemma SpellsString(s: string)
    requires NoNul(s)
    ensures Spells(Quoted(s), [StringLexeme(s)])
  {
    LexQuoted(s);
  }

  lemma {:induction false} SpacesSpellNothing(x: string)
    requires forall k :: 0 <= k < |x| ==> IsSpace(x[k])
    ensures Spells(x, [])
  {
    AllSkipped(x, 0);
    LexStep(x, 0);
  }

  lemma {:induction false} AllSkipped(x: string, i: nat)
    requires i <= |x| && forall k :: 0 <= k < |x| ==> IsSpace(x[k])
    ensures SkipSpaces(x, i) == |x|
    decreases |x| - i
  {
    if i < |x| {
      AllSkipped(x, i + 1);
    }
  }
}

/** FastWriter and StyledWriter: different layouts of the same tokens. */
module JsonWriters {
  import Decimals
  import opened JsonNumbers
  import opened JsonStrings
  import opened JsonText
  import opened JsonTokens
  import opened JsonValue

  // ------------------------------------------------------------------- FastWriter

  /** A tree on one line, without any space */
  function FastText(v: Json): (x: string)
    requires Printable(v)
    ensures x != ""
    decreases v, 1
  {
    match v
    case Null => "null"
    case Int(i) => IntText(i)
    case UInt(u) => IntText(u)
    case Str(s) => Quoted(s)
    case Bool(b) => if b then "true" else "false"
    case Arr(items) => "[" + FastItems(v, 0)
    case Obj(members) => "{" + FastMembers(v, 0)
  }

  function Comma(needed: bool): string { if needed then "," else "" }

  function FastMember(m: Member): string
    requires Printable(m.value)
    decreases m, 2
  {
    Quoted(m.name) + ":" + FastText(m.value)
  }

  function FastItems(v: Json, k: nat): string
    requires v.Arr? && Printable(v) && k <= |v.items|
    decreases v, 0, |v.items| - k
  {
    if k == |v.items| then "]"
    else FastText(v.items[k]) + Comma(k + 1 < |v.items|) + FastItems(v, k + 1)
  }

  function FastMembers(v: Json, k: nat): string
    requires v.Obj? && Printable(v) && k <= |v.members|
    decreases v, 0, |v.members| - k
  {
    if k == |v.members| then "}"
    else FastMember(v.members[k]) + Comma(k + 1 < |v.members|) + FastMembers(v, k + 1)
  }

  /** The text of a value that is neither an array nor an object */
  method ScalarText(v: Json) returns (x: string)
    requires Printable(v) && !v.Arr? && !v.Obj?
    ensures x == FastText(v)
  {
    hide Quoted, Decimals.Decimal;
    match v
    case Null => x := "null";
    case Int(i) => x := ValueToString(i);
    case UInt(u) => x := UintToString(u);
    case Str(s) => x := ValueToQuotedString(s);
    case Bool(b) => x := if b then "true" else "false";
  }

  lemma EmptyText(v: Json)
    requires Printable(v)
    ensures v.Arr? && v.items == [] ==> FastText(v) == "[]"
    ensures v.Obj? && v.members == [] ==> FastText(v) == "{}"
  {
    hide Quoted, IntText;
    assert "[" + "]" == "[]" && "{" + "}" == "{}";
  }

  class FastWriter {
    var document: string

    constructor () {
      document := "";
    }

    /** write */
    method Write(root: Json) returns (text: string)
      requires Printable(root)
      modifies this
      ensures text == FastText(root) + "\n"
    {
      document := "";
      WriteValue(root);
      document := document + "\n";
      text := document;
    }

    /** writeValue */
    method WriteValue(v: Json)
      requires Printable(v)
      modifies this
      ensures document == old(document) + FastText(v)
      decreases v, 1
    {
      hide Quoted, IntText;
      if v.Arr? {
        WriteItems(v);
      } else if v.Obj? {
        WriteMembers(v);
      } else {
        var x := ScalarText(v);
        document := document + x;
      }
    }

    method WriteItems(v: Json)
      requires v.Arr? && Printable(v)
      modifies this
      ensures document == old(document) + "[" + FastItems(v, 0)
      decreases v, 0
    {
      hide FastText, FastItems, Printable;
      FastSteps(v);
      document := document + "[";
      for k := 0 to |v.items|
        invariant document + Comma(0 < k < |v.items|) + FastItems(v, k) == old(document) + "[" + FastItems(v, 0)
      {
        ghost var d := document;
        if k > 0 {
          document := document + ",";
        }
        PrintableParts(v);
        WriteValue(v.items[k]);
        Regroup(d, Comma(0 < k), FastText(v.items[k]), Comma(k + 1 < |v.items|), FastItems(v, k + 1));
      }
      document := document + "]";
    }

    method WriteMembers(v: Json)
      requires v.Obj? && Printable(v)
      modifies this
      ensures document == old(document) + "{" + FastMembers(v, 0)
      decreases v, 0
    {
      hide FastText, FastMembers, Printable, Quoted;
      FastSteps(v);
      document := document + "{";
      for k := 0 to |v.members|
        invariant document + Comma(0 < k < |v.members|) + FastMembers(v, k) == old(document) + "{" + FastMembers(v, 0)
      {
        ghost var d := document;
        if k > 0 {
          document := document + ",";
        }
        PrintableParts(v);
        WriteMember(v.members[k]);
        Regroup(d, Comma(0 < k), FastMember(v.members[k]), Comma(k + 1 < |v.members|), FastMembers(v, k + 1));
      }
      document := document + "}";
    }

    method WriteMember(m: Member)
      requires NoNul(m.name) && Printable(m.value)
      modifies this
      ensures document == old(document) + FastMember(m)
      decreases m, 2
    {
      hide FastText, Printable, Quoted;
      var name := ValueToQuotedString(m.name);
      document := document + name + ":";
      WriteValue(m.value);
    }
  }

  lemma Regroup(d: string, a: string, b: string, c: string, e: string)
    ensures d + a + (b + c + e) == d + a + b + c + e
  {
  }

  lemma PrintableParts(v: Json)
    requires Printable(v)
    ensures v.Arr? ==> forall k :: 0 <= k < |v.items| ==> Printable(v.items[k])
    ensures v.Obj? ==> forall k :: 0 <= k < |v.members| ==> NoNul(v.members[k].name) && Printable(v.members[k].value)
  {
  }

  lemma FastSteps(v: Json)
    requires Printable(v)
    ensures v.Arr? ==>
      && FastItems(v, |v.items|) == "]"
      && forall k :: 0 <= k < |v.items| ==>
           FastItems(v, k) == FastText(v.items[k]) + Comma(k + 1 < |v.items|) + FastItems(v, k + 1)
    ensures v.Obj? ==>
      && FastMembers(v, |v.members|) == "}"
      && forall k :: 0 <= k < |v.members| ==>
           FastMembers(v, k) == FastMember(v.members[k]) + Comma(k + 1 < |v.members|) + FastMembers(v, k + 1)
  {
  }

  /** FastWriter prints the tokens of the tree. */
  lemma {:induction false} FastTextSpells(v: Json)
    requires Printable(v)
    ensures Spells(FastText(v), Tokens(v))
    decreases v, 2
  {
    hide Spells, Quoted, IntText;
    match v
    case Null => SpellsWord(NULL_WORD);
    case Int(i) => SpellsInt(i);
    case UInt(u) => SpellsInt(u);
    case Str(s) => SpellsString(s);
    case Bool(b) => SpellsWord(if b then TRUE_WORD else FALSE_WORD);
    case Arr(items) =>
      SpellsPunctuation(LBRACKET);
      FastItemsSpell(v, 0);
      SpellsAppend("[", [LBRACKET], FastItems(v, 0), ItemTokens(v, 0));
    case Obj(members) =>
      SpellsPunctuation(LBRACE);
      FastMembersSpell(v, 0);
      SpellsAppend("{", [LBRACE], FastMembers(v, 0), MemberTokens(v, 0));
  }

  function CommaToken(needed: bool): seq<Lexeme> { if needed then [COMMA] else [] }

  /** Text, an optional comma, and what follows it */
  lemma SpellsWithComma(x: string, a: seq<Lexeme>, needed: bool, y: string, b: seq<Lexeme>)
    requires Spells(x, a) && Spells(y, b) && (needed || y == "" || !IsNumberChar(y[0]))
    ensures Spells(x + Comma(needed) + y, a + CommaToken(needed) + b)
  {
    hide Spells;
    if needed {
      SpellsPunctuation(COMMA);
      SpellsAppend(x, a, ",", [COMMA]);
      SpellsAppend(x + ",", a + [COMMA], y, b);
    } else {
      SpellsAppend(x, a, y, b);
      assert x + "" + y == x + y && a + [] + b == a + b;
    }
  }

  lemma {:induction false} FastItemsSpell(v: Json, k: nat)
    requires v.Arr? && Printable(v) && k <= |v.items|
    ensures Spells(FastItems(v, k), ItemTokens(v, k))
    decreases v, 1, |v.items| - k
  {
    hide Spells, FastText, Tokens;
    if k == |v.items| {
      SpellsPunctuation(RBRACKET);
    } else {
      FastTextSpells(v.items[k]);
      FastItemsSpell(v, k + 1);
      SpellsWithComma(FastText(v.items[k]), Tokens(v.items[k]), k + 1 < |v.items|, FastItems(v, k + 1), ItemTokens(v, k + 1));
    }
  }

  lemma {:induction false} FastMembersSpell(v: Json, k: nat)
    requires v.Obj? && Printable(v) && k <= |v.members|
    ensures Spells(FastMembers(v, k), MemberTokens(v, k))
    decreases v, 1, |v.members| - k
  {
    hide Spells, FastText, Tokens, Quoted;
    if k == |v.members| {
      SpellsPunctuation(RBRACE);
    } else {
      var m := v.members[k];
      SpellsString(m.name);
      SpellsPunctuation(COLON);
      FastTextSpells(m.value);
      NameAndValueSpell(m.name, ":", FastText(m.value), Tokens(m.value));
      FastMembersSpell(v, k + 1);
      SpellsWithComma(FastMember(m), [StringLexeme(m.name), COLON] + Tokens(m.value), k + 1 < |v.members|,
                      FastMembers(v, k + 1), MemberTokens(v, k + 1));
    }
  }

  lemma NameAndValueSpell(name: string, colon: string, x: string, toks: seq<Lexeme>)
    requires NoNul(name) && Spells(colon, [COLON]) && Spells(x, toks) && colon != "" && !IsNumberChar(colon[|colon| - 1])
    requires !IsNumberChar(colon[0])
    ensures Spells(Quoted(name) + colon + x, [StringLexeme(name), COLON] + toks)
  {
    hide Spells, Quoted;
    SpellsString(name);
    SpellsAppend(Quoted(name), [StringLexeme(name)], colon, [COLON]);
    SpellsAppend(Quoted(name) + colon, [StringLexeme(name)] + [COLON], x, toks);
    assert [StringLexeme(name)] + [COLON] == [StringLexeme(name), COLON];
  }

  // ----------------------------------------------------------------- StyledWriter

  const RIGHT_MARGIN: nat := 74
  const INDENT_SIZE: nat := 3

  predicate NonEmptyContainer(v: Json) { (v.Arr? && v.items != []) || (v.Obj? && v.members != []) }

  function TextLength(v: Json, k: nat): nat
    requires v.Arr? && Printable(v) && k <= |v.items|
  {
    if k == 0 then 0 else TextLength(v, k - 1) + |FastText(v.items[k - 1])|
  }

  /** What decides the layout of an array that is not empty: many elements, an element that is a
      non-empty container, or a long line */
  predicate Multiline(v: Json)
    requires v.Arr? && Printable(v)
  {
    || 3 * |v.items| >= 74
    || (exists k :: 0 <= k < |v.items| && NonEmptyContainer(v.items[k]))
    || 4 + 2 * (|v.items| - 1) + TextLength(v, |v.items|) >= 74
  }

  ghost predicate AllSpaces(x: string) { forall k :: 0 <= k < |x| ==> x[k] == ' ' }

  lemma SpellsPadded(before: string, l: Lexeme, after: string)
    requires Punctuation(l) && AllSpaces(before) && AllSpaces(after)
    ensures Spells(before + l.text + after, [l])
  {
    hide Spells;
    SpacesSpellNothing(before);
    SpacesSpellNothing(after);
    SpellsPunctuation(l);
    SpellsAppend(before, [], l.text, [l]);
    SpellsAppend(before + l.text, [] + [l], after, []);
    assert [] + [l] + [] == [l];
  }

  /** The texts the writer puts around and between elements */
  lemma Padded()
    ensures Spells(" : ", [COLON]) && Spells("[ ", [LBRACKET]) && Spells(", ", [COMMA]) && Spells(" ]", [RBRACKET])
    ensures Spells(",", [COMMA]) && Spells("[", [LBRACKET]) && Spells("]", [RBRACKET])
    ensures Spells("{", [LBRACE]) && Spells("}", [RBRACE])
  {
    hide Spells;
    SpellsPadded(" ", COLON, " ");
    SpellsPadded("", LBRACKET, " ");
    SpellsPadded("", COMMA, " ");
    SpellsPadded(" ", RBRACKET, "");
    SpellsPunctuation(COMMA);
    SpellsPunctuation(LBRACKET);
    SpellsPunctuation(RBRACKET);
    SpellsPunctuation(LBRACE);
    SpellsPunctuation(RBRACE);
    assert " " + COLON.text + " " == " : " && "" + LBRACKET.text + " " == "[ ";
    assert "" + COMMA.text + " " == ", " && " " + RBRACKET.text + "" == " ]";
  }

  /**
    A tree as StyledWriter lays it out, from where it begins in its line: members, and the
    elements of an array that takes several lines, each on a line of its own that is indented by
    three more spaces, and the closing brace or bracket on a line indented like the first one.
   */
  function StyledText(v: Json, indent: string): (x: string)
    requires Printable(v)
    decreases v, 3
  {
    if !NonEmptyContainer(v) then FastText(v)
    else if v.Obj? then "{" + StyledMembers(v, 0, indent)
    else if Multiline(v) then "[" + StyledLines(v, 0, indent)
    else "[ " + OneLine(v, 0)
  }

  function StyledMember(m: Member, indent: string): string
    requires Printable(m.value)
    decreases m, 4
  {
    Quoted(m.name) + " : " + StyledText(m.value, indent)
  }

  function StyledMembers(v: Json, k: nat, indent: string): string
    requires v.Obj? && Printable(v) && k <= |v.members|
    decreases v, 2, |v.members| - k
  {
    if k == |v.members| then "\n" + indent + "}"
    else
      "\n" + indent + "   " + StyledMember(v.members[k], indent + "   ") + Comma(k + 1 < |v.members|)
      + StyledMembers(v, k + 1, indent)
  }

  function StyledLines(v: Json, k: nat, indent: string): string
    requires v.Arr? && Printable(v) && k <= |v.items|
    decreases v, 2, |v.items| - k
  {
    if k == |v.items| then "\n" + indent + "]"
    else
      "\n" + indent + "   " + StyledText(v.items[k], indent + "   ") + Comma(k + 1 < |v.items|)
      + StyledLines(v, k + 1, indent)
  }

  function OneLine(v: Json, k: nat): string
    requires v.Arr? && Printable(v) && k <= |v.items|
    decreases v, 2, |v.items| - k
  {
    if k == |v.items| then " ]"
    else FastText(v.items[k]) + (if k + 1 < |v.items| then ", " else "") + OneLine(v, k + 1)
  }

  // What the text ends with decides whether a new line begins.

  predicate Full(d: string) { d != "" && d[|d| - 1] !in {' ', '\n'} }

  /** Indented already, or at the very start */
  predicate AtStart(d: string, indent: string) { if d == "" then indent == "" else d[|d| - 1] == ' ' }

  lemma FullAppend(d: string, x: string)
    requires Full(x)
    ensures Full(d + x)
  {
    assert (d + x)[|d + x| - 1] == x[|x| - 1];
  }

  lemma StartAppend(d: string, x: string, indent: string)
    requires x != "" && x[|x| - 1] == ' '
    ensures AtStart(d + x, indent)
  {
    assert (d + x)[|d + x| - 1] == x[|x| - 1];
  }

  lemma IntIsFull(i: int)
    ensures Full(IntText(i))
  {
    hide Decimals.Decimal;
    var n := Decimals.Decimal(if i < 0 then -i else i);
    assert Decimals.IsDigit(n[|n| - 1]);
  }

  lemma TextIsFull(v: Json, indent: string)
    requires Printable(v)
    ensures Full(StyledText(v, indent))
  {
    hide Quoted, IntText, StyledMembers, StyledLines, OneLine, FastItems, FastMembers, Multiline, Printable, EscapeFrom;
    if !NonEmptyContainer(v) {
      ScalarIsFull(v);
    } else if v.Obj? {
      MembersAreFull(v, 0, indent);
      FullAppend("{", StyledMembers(v, 0, indent));
    } else if Multiline(v) {
      LinesAreFull(v, 0, indent);
      FullAppend("[", StyledLines(v, 0, indent));
    } else {
      OneLineIsFull(v, 0);
      FullAppend("[ ", OneLine(v, 0));
    }
  }

  lemma ScalarIsFull(v: Json)
    requires Printable(v) && !NonEmptyContainer(v)
    ensures Full(FastText(v))
  {
    hide IntText, EscapeFrom;
    EmptyText(v);
    match v
    case Int(i) => IntIsFull(i);
    case UInt(u) => IntIsFull(u);
    case Str(s) => FullAppend("\"" + EscapeFrom(s, 0), "\"");
    case _ =>
  }

  lemma {:induction false} MembersAreFull(v: Json, k: nat, indent: string)
    requires v.Obj? && Printable(v) && k <= |v.members|
    ensures Full(StyledMembers(v, k, indent))
    decreases |v.members| - k
  {
    hide StyledMember, Printable;
    PrintableParts(v);
    if k < |v.members| {
      MembersAreFull(v, k + 1, indent);
      FullAppend("\n" + indent + "   " + StyledMember(v.members[k], indent + "   ") + Comma(k + 1 < |v.members|),
                 StyledMembers(v, k + 1, indent));
    } else {
      FullAppend("\n" + indent, "}");
    }
  }

  lemma {:induction false} LinesAreFull(v: Json, k: nat, indent: string)
    requires v.Arr? && Printable(v) && k <= |v.items|
    ensures Full(StyledLines(v, k, indent))
    decreases |v.items| - k
  {
    hide StyledText, Printable;
    PrintableParts(v);
    if k < |v.items| {
      LinesAreFull(v, k + 1, indent);
      FullAppend("\n" + indent + "   " + StyledText(v.items[k], indent + "   ") + Comma(k + 1 < |v.items|),
                 StyledLines(v, k + 1, indent));
    } else {
      FullAppend("\n" + indent, "]");
    }
  }

  lemma {:induction false} OneLineIsFull(v: Json, k: nat)
    requires v.Arr? && Printable(v) && k <= |v.items|
    ensures Full(OneLine(v, k))
    decreases |v.items| - k
  {
    hide FastText, Printable;
    PrintableParts(v);
    if k < |v.items| {
      OneLineIsFull(v, k + 1);
      FullAppend(FastText(v.items[k]) + (if k + 1 < |v.items| then ", " else ""), OneLine(v, k + 1));
    }
  }

  /** One step of each layout */
  lemma StyledSteps(v: Json, indent: string)
    requires Printable(v) && NonEmptyContainer(v)
    ensures v.Obj? ==>
      && StyledText(v, indent) == "{" + StyledMembers(v, 0, indent)
      && StyledMembers(v, |v.members|, indent) == "\n" + indent + "}"
      && forall k :: 0 <= k < |v.members| ==>
           StyledMembers(v, k, indent) == "\n" + indent + "   " + StyledMember(v.members[k], indent + "   ")
                                          + Comma(k + 1 < |v.members|) + StyledMembers(v, k + 1, indent)
    ensures v.Arr? && Multiline(v) ==>
      && StyledText(v, indent) == "[" + StyledLines(v, 0, indent)
      && StyledLines(v, |v.items|, indent) == "\n" + indent + "]"
      && forall k :: 0 <= k < |v.items| ==>
           StyledLines(v, k, indent) == "\n" + indent + "   " + StyledText(v.items[k], indent + "   ")
                                        + Comma(k + 1 < |v.items|) + StyledLines(v, k + 1, indent)
    ensures v.Arr? && !Multiline(v) ==>
      && StyledText(v, indent) == "[ " + OneLine(v, 0)
      && OneLine(v, |v.items|) == " ]"
      && forall k :: 0 <= k < |v.items| ==>
           OneLine(v, k) == FastText(v.items[k]) + (if k + 1 < |v.items| then ", " else "") + OneLine(v, k + 1)
  {
    hide Multiline, FastText, StyledMember, NonEmptyContainer;
  }

  class StyledWriter {
    var document: string
    var indentString: string
    var childValues: seq<string>
    var addChildValues: bool

    constructor ()
    {
      document, indentString, childValues, addChildValues := "", "", [], false;
    }

    /** pushValue */
    method PushValue(x: string)
      modifies `document, `childValues
      ensures if addChildValues then document == old(document) && childValues == old(childValues) + [x]
              else childValues == old(childValues) && document == old(document) + x
    {
      if addChildValues {
        childValues := childValues + [x];
      } else {
        document := document + x;
      }
    }

    /** writeIndent: a new line unless the line is already indented */
    method WriteIndent()
      modifies `document
      ensures Full(old(document)) ==> document == old(document) + "\n" + indentString
      ensures AtStart(old(document), indentString) ==> document == old(document)
    {
      if document != "" {
        var last := document[|document| - 1];
        if last == ' ' {
          return;
        }
        if last != '\n' {
          document := document + "\n";
        }
      }
      document := document + indentString;
    }

    /** writeWithIndent */
    method WriteWithIndent(x: string)
      modifies `document
      ensures Full(old(document)) ==> document == old(document) + "\n" + indentString + x
      ensures AtStart(old(document), indentString) ==> document == old(document) + x
    {
      WriteIndent();
      document := document + x;
    }

    method Indent()
      modifies `indentString
      ensures indentString == old(indentString) + "   "
    {
      indentString := indentString + "   ";
    }

    method Unindent(ghost before: string)
      requires indentString == before + "   "
      modifies `indentString
      ensures indentString == before
    {
      indentString := indentString[..|indentString| - INDENT_SIZE];
    }

    /** writeValue. While the texts of children are collected, only values without children of
        their own are written. */
    method WriteValue(v: Json)
      requires Printable(v)
      requires NonEmptyContainer(v) ==> !addChildValues && AtStart(document, indentString)
      modifies this
      ensures indentString == old(indentString) && addChildValues == old(addChildValues)
      ensures addChildValues ==> document == old(document) && childValues == old(childValues) + [FastText(v)]
      ensures !addChildValues ==> document == old(document) + StyledText(v, indentString)
      decreases v, 5
    {
      hide FastText, Printable, Multiline, StyledMembers, StyledLines, OneLine;
      if NonEmptyContainer(v) {
        if v.Arr? {
          WriteArrayValue(v);
        } else {
          WriteObjectValue(v);
        }
        return;
      }
      EmptyText(v);
      var x := if v.Arr? then "[]" else "{}";
      if !v.Arr? && !v.Obj? {
        x := ScalarText(v);
      }
      PushValue(x);
    }

    method WriteObjectValue(v: Json)
      requires Printable(v) && v.Obj? && v.members != [] && !addChildValues && AtStart(document, indentString)
      modifies this
      ensures indentString == old(indentString) && !addChildValues
      ensures document == old(document) + StyledText(v, indentString)
      decreases v, 4
    {
      hide Printable, StyledText, StyledMember, StyledMembers;
      ghost var indent, before := indentString, document;
      StyledSteps(v, indent);
      PrintableParts(v);
      WriteWithIndent("{");
      FullAppend(before, "{");
      Indent();
      var k := 0;
      Regroup3(before, "{", StyledMembers(v, 0, indent));
      while true
        invariant k < |v.members| && indentString == indent + "   " && !addChildValues && Full(document)
        invariant document + StyledMembers(v, k, indent) == before + StyledText(v, indent)
        decreases |v.members| - k
      {
        ghost var d := document;
        WriteMember(v.members[k]);
        RegroupLine(d, indent, StyledMember(v.members[k], indent + "   "), Comma(k + 1 < |v.members|),
                    StyledMembers(v, k + 1, indent));
        k := k + 1;
        if k == |v.members| {
          break;
        }
        document := document + ",";
      }
      Unindent(indent);
      WriteWithIndent("}");
    }

    method WriteMember(m: Member)
      requires NoNul(m.name) && Printable(m.value) && !addChildValues && Full(document)
      modifies this
      ensures indentString == old(indentString) && !addChildValues && Full(document)
      ensures document == old(document) + "\n" + indentString + StyledMember(m, indentString)
      decreases m, 6
    {
      hide Quoted, Printable, StyledText;
      var name := ValueToQuotedString(m.name);
      WriteWithIndent(name);
      ghost var d := document;
      document := document + " : ";
      StartAppend(d, " : ", indentString);
      WriteValue(m.value);
      TextIsFull(m.value, indentString);
      FullAppend(d + " : ", StyledText(m.value, indentString));
      RegroupMember(old(document), indentString, name, StyledText(m.value, indentString));
    }

    /** isMultineArray: measures the array, and on the way collects one text for every element,
        unless it is clear without measuring that the array takes several lines. */
    method IsMultilineArray(v: Json) returns (isMultiLine: bool)
      requires Printable(v) && v.Arr? && v.items != [] && !addChildValues
      modifies this
      ensures indentString == old(indentString) && !addChildValues && document == old(document)
      ensures isMultiLine == Multiline(v)
      ensures childValues == [] || HasAllChildren(v, childValues)
      ensures !isMultiLine ==> HasAllChildren(v, childValues)
      decreases v, 3
    {
      hide FastText, Printable;
      PrintableParts(v);
      isMultiLine := |v.items| * 3 >= RIGHT_MARGIN;
      childValues := [];
      var k := 0;
      while k < |v.items| && !isMultiLine
        invariant k <= |v.items|
        invariant isMultiLine == (3 * |v.items| >= RIGHT_MARGIN || exists j :: 0 <= j < k && NonEmptyContainer(v.items[j]))
      {
        isMultiLine := isMultiLine || NonEmptyContainer(v.items[k]);
        k := k + 1;
      }
      if !isMultiLine {
        var lineLength := CollectChildren(v);
        isMultiLine := lineLength >= RIGHT_MARGIN;
      }
    }

    method CollectChildren(v: Json) returns (lineLength: int)
      requires Printable(v) && v.Arr? && !addChildValues && childValues == []
      requires forall k :: 0 <= k < |v.items| ==> !NonEmptyContainer(v.items[k])
      modifies this
      ensures indentString == old(indentString) && !addChildValues
      ensures document == old(document) && HasAllChildren(v, childValues)
      ensures lineLength == 4 + 2 * (|v.items| - 1) + TextLength(v, |v.items|)
      decreases v, 2
    {
      hide FastText, Printable, NonEmptyContainer;
      PrintableParts(v);
      addChildValues := true;
      lineLength := 4 + (|v.items| - 1) * 2;
      for k := 0 to |v.items|
        invariant indentString == old(indentString) && addChildValues
        invariant document == old(document) && |childValues| == k
        invariant forall j :: 0 <= j < k ==> childValues[j] == FastText(v.items[j])
        invariant lineLength == 4 + 2 * (|v.items| - 1) + TextLength(v, k)
      {
        WriteValue(v.items[k]);
        lineLength := lineLength + |childValues[k]|;
      }
      addChildValues := false;
    }

    /** writeArrayValue, for an array that is not empty */
    method WriteArrayValue(v: Json)
      requires Printable(v) && v.Arr? && v.items != [] && !addChildValues && AtStart(document, indentString)
      modifies this
      ensures indentString == old(indentString) && !addChildValues
      ensures document == old(document) + StyledText(v, indentString)
      decreases v, 4
    {
      hide Printable, FastText, StyledText, Multiline;
      var isArrayMultiLine := IsMultilineArray(v);
      if isArrayMultiLine {
        WriteLines(v);
      } else {
        WriteLine(v);
      }
    }

    /** Every element on a line of its own, from its collected text if there is one */
    method WriteLines(v: Json)
      requires Printable(v) && v.Arr? && v.items != [] && Multiline(v) && !addChildValues
      requires AtStart(document, indentString) && (childValues == [] || HasAllChildren(v, childValues))
      modifies this
      ensures indentString == old(indentString) && !addChildValues
      ensures document == old(document) + StyledText(v, indentString)
      decreases v, 3
    {
      hide Printable, FastText, StyledText, StyledLines, Multiline, HasAllChildren;
      ghost var indent, before := indentString, document;
      StyledSteps(v, indent);
      PrintableParts(v);
      WriteWithIndent("[");
      FullAppend(before, "[");
      Indent();
      var hasChildValue := childValues != [];
      var k := 0;
      Regroup3(before, "[", StyledLines(v, 0, indent));
      while true
        invariant k < |v.items| && indentString == indent + "   " && !addChildValues && Full(document)
        invariant document + StyledLines(v, k, indent) == before + StyledText(v, indent)
        invariant hasChildValue ==> HasAllChildren(v, childValues)
        decreases |v.items| - k
      {
        WriteNth(v, k, hasChildValue, indent);
        k := k + 1;
        if k == |v.items| {
          break;
        }
        document := document + ",";
      }
      Unindent(indent);
      WriteWithIndent("]");
    }

    method WriteNth(v: Json, k: nat, hasChildValue: bool, ghost indent: string)
      requires Printable(v) && v.Arr? && k < |v.items| && Multiline(v) && !addChildValues && Full(document)
      requires indentString == indent + "   " && (hasChildValue ==> HasAllChildren(v, childValues))
      modifies this
      ensures indentString == old(indentString) && !addChildValues && Full(document)
      ensures hasChildValue ==> childValues == old(childValues)
      ensures document + Comma(k + 1 < |v.items|) + StyledLines(v, k + 1, indent)
           == old(document) + StyledLines(v, k, indent)
      decreases v, 2
    {
      hide Printable, FastText, StyledText, StyledLines, Multiline, HasAllChildren;
      StyledSteps(v, indent);
      PrintableParts(v);
      ghost var d := document;
      var childValue := "";
      if hasChildValue {
        ChildAt(v, childValues, k);
        childValue := childValues[k];
      }
      WriteElement(v.items[k], hasChildValue, childValue);
      RegroupLine(d, indent, StyledText(v.items[k], indent + "   "), Comma(k + 1 < |v.items|), StyledLines(v, k + 1, indent));
    }

    /** The text of an element if it has been collected, or the element itself */
    method WriteElement(item: Json, hasChildValue: bool, childValue: string)
      requires Printable(item) && !addChildValues && Full(document)
      requires indentString != "" && indentString[|indentString| - 1] == ' '
      requires hasChildValue ==> childValue == FastText(item) && !NonEmptyContainer(item)
      modifies this
      ensures indentString == old(indentString) && !addChildValues && Full(document)
      ensures hasChildValue ==> childValues == old(childValues)
      ensures document == old(document) + "\n" + indentString + StyledText(item, indentString)
      decreases item, 6
    {
      TextIsFull(item, indentString);
      FullAppend(document + "\n" + indentString, StyledText(item, indentString));
      if hasChildValue {
        hide Printable, FastText, StyledMembers, StyledLines, OneLine, Multiline;
        WriteWithIndent(childValue);
      } else {
        hide Printable, FastText, StyledText;
        WriteIndent();
        StartAppend(old(document) + "\n", indentString, indentString);
        WriteValue(item);
      }
    }

    /** All elements on one line, from their collected texts: there is one for each. */
    method WriteLine(v: Json)
      requires Printable(v) && v.Arr? && v.items != [] && !Multiline(v) && HasAllChildren(v, childValues)
      modifies `document
      ensures document == old(document) + StyledText(v, indentString)
    {
      hide Printable, FastText, StyledText, OneLine, Multiline;
      ghost var before := document;
      StyledSteps(v, indentString);
      PrintableParts(v);
      document := document + "[ ";
      Regroup3(before, "[ ", OneLine(v, 0));
      for k := 0 to |v.items|
        invariant document + (if 0 < k < |v.items| then ", " else "") + OneLine(v, k) == before + StyledText(v, indentString)
      {
        ghost var d := document;
        if k > 0 {
          document := document + ", ";
        }
        document := document + childValues[k];
        Regroup(d, if k > 0 then ", " else "", FastText(v.items[k]), if k + 1 < |v.items| then ", " else "", OneLine(v, k + 1));
      }
      document := document + " ]";
    }

    /** write, for a tree without comments */
    method Write(root: Json) returns (text: string)
      requires Printable(root)
      modifies this
      ensures text == StyledText(root, "") + "\n"
      ensures Spells(text, Tokens(root))
    {
      hide Spells, Tokens, StyledText, Printable;
      document, addChildValues, indentString := "", false, "";
      WriteValue(root);
      document := document + "\n";
      text := document;
      StyledDocument(root);
    }
  }

  lemma Regroup3(a: string, b: string, c: string)
    ensures a + b + c == a + (b + c)
  {
  }

  lemma RegroupLine(d: string, indent: string, x: string, comma: string, rest: string)
    ensures d + ("\n" + indent + "   " + x + comma + rest) == d + "\n" + (indent + "   ") + x + comma + rest
  {
  }

  lemma RegroupMember(d: string, indent: string, name: string, x: string)
    ensures d + "\n" + indent + name + " : " + x == d + "\n" + indent + (name + " : " + x)
  {
  }

  /** There is a text for every element, and none has children of its own. */
  ghost predicate HasAllChildren(v: Json, childValues: seq<string>)
    requires v.Arr? && Printable(v)
  {
    |childValues| == |v.items| &&
    forall k :: 0 <= k < |v.items| ==> !NonEmptyContainer(v.items[k]) && childValues[k] == FastText(v.items[k])
  }

  lemma ChildAt(v: Json, childValues: seq<string>, k: nat)
    requires v.Arr? && Printable(v) && HasAllChildren(v, childValues) && k < |v.items|
    ensures k < |childValues| && Printable(v.items[k])
    ensures !NonEmptyContainer(v.items[k]) && childValues[k] == FastText(v.items[k])
  {
  }

  // ------------------------------------------------ the tokens of what is laid out

  /** A new line and its indentation in front of text add no token. */
  lemma SpellsOnLine(indent: string, x: string, toks: seq<Lexeme>)
    requires AllSpaces(indent) && Spells(x, toks)
    ensures Spells("\n" + indent + x, toks)
  {
    hide Spells;
    SpacesSpellNothing("\n" + indent);
    SpellsAppend("\n" + indent, [], x, toks);
    assert [] + toks == toks;
  }

  /** StyledWriter prints the tokens of the tree. */
  lemma {:induction false} StyledTextSpells(v: Json, indent: string)
    requires Printable(v) && AllSpaces(indent)
    ensures Spells(StyledText(v, indent), Tokens(v))
    decreases v, 3
  {
    hide Spells, FastText, Tokens, Printable, Multiline, StyledMembers, StyledLines, OneLine, ItemTokens, MemberTokens;
    if !NonEmptyContainer(v) {
      FastTextSpells(v);
    } else {
      Padded();
      TokenSteps(v);
      if v.Obj? {
        StyledMembersSpell(v, 0, indent);
        SpellsAppend("{", [LBRACE], StyledMembers(v, 0, indent), MemberTokens(v, 0));
      } else if Multiline(v) {
        StyledLinesSpell(v, 0, indent);
        SpellsAppend("[", [LBRACKET], StyledLines(v, 0, indent), ItemTokens(v, 0));
      } else {
        OneLineSpells(v, 0);
        SpellsAppend("[ ", [LBRACKET], OneLine(v, 0), ItemTokens(v, 0));
      }
    }
  }

  lemma {:induction false} StyledMembersSpell(v: Json, k: nat, indent: string)
    requires v.Obj? && Printable(v) && k <= |v.members| && AllSpaces(indent)
    ensures Spells(StyledMembers(v, k, indent), MemberTokens(v, k))
    decreases v, 2, |v.members| - k
  {
    hide Spells, StyledText, Tokens, Quoted, Printable;
    PrintableParts(v);
    Padded();
    if k == |v.members| {
      SpellsOnLine(indent, "}", [RBRACE]);
    } else {
      var m, deeper := v.members[k], indent + "   ";
      var x, toks := StyledMember(m, deeper), [StringLexeme(m.name), COLON] + Tokens(m.value);
      StyledTextSpells(m.value, deeper);
      NameAndValueSpell(m.name, " : ", StyledText(m.value, deeper), Tokens(m.value));
      SpellsOnLine(deeper, x, toks);
      StyledMembersSpell(v, k + 1, indent);
      StartsWithLine(v, k + 1, indent);
      SpellsWithComma("\n" + deeper + x, toks, k + 1 < |v.members|, StyledMembers(v, k + 1, indent), MemberTokens(v, k + 1));
      LineFromStart(indent, x, Comma(k + 1 < |v.members|), StyledMembers(v, k + 1, indent));
    }
  }

  lemma {:induction false} StyledLinesSpell(v: Json, k: nat, indent: string)
    requires v.Arr? && Printable(v) && k <= |v.items| && AllSpaces(indent)
    ensures Spells(StyledLines(v, k, indent), ItemTokens(v, k))
    decreases v, 2, |v.items| - k
  {
    hide Spells, StyledText, Tokens, Printable;
    PrintableParts(v);
    Padded();
    if k == |v.items| {
      SpellsOnLine(indent, "]", [RBRACKET]);
    } else {
      var deeper := indent + "   ";
      var x, toks := StyledText(v.items[k], deeper), Tokens(v.items[k]);
      StyledTextSpells(v.items[k], deeper);
      SpellsOnLine(deeper, x, toks);
      StyledLinesSpell(v, k + 1, indent);
      StartsWithLine(v, k + 1, indent);
      SpellsWithComma("\n" + deeper + x, toks, k + 1 < |v.items|, StyledLines(v, k + 1, indent), ItemTokens(v, k + 1));
      LineFromStart(indent, x, Comma(k + 1 < |v.items|), StyledLines(v, k + 1, indent));
    }
  }

  lemma LineFromStart(indent: string, x: string, comma: string, rest: string)
    ensures "\n" + indent + "   " + x + comma + rest == "\n" + (indent + "   ") + x + comma + rest
  {
    assert "\n" + indent + "   " == "\n" + (indent + "   ");
  }

  lemma StartsWithLine(v: Json, k: nat, indent: string)
    requires Printable(v)
    ensures v.Obj? && k <= |v.members| ==> StyledMembers(v, k, indent) != "" && StyledMembers(v, k, indent)[0] == '\n'
    ensures v.Arr? && k <= |v.items| ==> StyledLines(v, k, indent) != "" && StyledLines(v, k, indent)[0] == '\n'
  {
    hide StyledText, StyledMember, Printable;
  }

  lemma {:induction false} OneLineSpells(v: Json, k: nat)
    requires v.Arr? && Printable(v) && k <= |v.items|
    ensures Spells(OneLine(v, k), ItemTokens(v, k))
    decreases v, 2, |v.items| - k
  {
    hide Spells, FastText, Tokens, Printable;
    PrintableParts(v);
    Padded();
    if k < |v.items| {
      FastTextSpells(v.items[k]);
      OneLineSpells(v, k + 1);
      var x, t := FastText(v.items[k]), Tokens(v.items[k]);
      if k + 1 < |v.items| {
        SpellsAppend(x, t, ", ", [COMMA]);
        EndsInSpace(x, ", ");
        SpellsAppend(x + ", ", t + [COMMA], OneLine(v, k + 1), ItemTokens(v, k + 1));
      } else {
        assert OneLine(v, k + 1) == " ]";
        SpellsAppend(x, t, OneLine(v, k + 1), ItemTokens(v, k + 1));
        assert x + "" == x && t + [] == t;
      }
    }
  }

  lemma EndsInSpace(d: string, x: string)
    requires x != "" && x[|x| - 1] == ' '
    ensures d + x != "" && !IsNumberChar((d + x)[|d + x| - 1])
  {
    assert (d + x)[|d + x| - 1] == x[|x| - 1];
  }

  lemma TokenSteps(v: Json)
    requires Printable(v)
    ensures v.Arr? ==> Tokens(v) == [LBRACKET] + ItemTokens(v, 0) && ItemTokens(v, |v.items|) == [RBRACKET]
    ensures v.Obj? ==> Tokens(v) == [LBRACE] + MemberTokens(v, 0) && MemberTokens(v, |v.members|) == [RBRACE]
  {
  }

  lemma StyledDocument(v: Json)
    requires Printable(v)
    ensures Spells("" + StyledText(v, "") + "\n", Tokens(v)) && Spells(StyledText(v, "") + "\n", Tokens(v))
  {
    hide Tokens, StyledText, Spells;
    StyledTextSpells(v, "");
    SpacesSpellNothing("\n");
    SpellsAppend(StyledText(v, ""), Tokens(v), "\n", []);
    assert Tokens(v) + [] == Tokens(v);
    assert "" + StyledText(v, "") == StyledText(v, "");
  }

  lemma FastDocument(v: Json)
    requires Printable(v)
    ensures Spells(FastText(v) + "\n", Tokens(v))
  {
    hide Tokens, FastText, Spells;
    FastTextSpells(v);
    SpacesSpellNothing("\n");
    SpellsAppend(FastText(v), Tokens(v), "\n", []);
    assert Tokens(v) + [] == Tokens(v);
  }

  /** The layout does not change the tokens: what StyledWriter prints, whichever branch its
      measuring picks, tokenizes like what FastWriter prints. */
  method LayoutDoesNotMatter(v: Json) returns (fast: string, styled: string)
    requires Printable(v)
    ensures Lex(fast, 0) == Lex(styled, 0) == Tokens(v)
  {
    hide Tokens, FastText;
    var fastWriter := new FastWriter();
    fast := fastWriter.Write(v);
    FastDocument(v);
    var styledWriter := new StyledWriter();
    styled := styledWriter.Write(v);
  }
}

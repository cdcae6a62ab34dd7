/** What the reader accepts, and the value it makes of it. */
module JsonGrammar {
  import opened JsonNumbers
  import opened JsonStrings
  import opened JsonText
  import opened JsonTokens
  import opened JsonValue

  datatype Scanned = NoNumber | Scanned(r: real)

  /** The features of a reader, and `sscanf` with "%lf" */
  datatype Config = Config(allowComments: bool, strictRoot: bool, scan: string -> Scanned)

  datatype Parsed = Fail | Done(value: Json, end: nat)

  /** The first token that is not a comment */
  function Significant(d: string, i: nat): (t: Token)
    requires i <= |d|
    ensures i <= t.start <= t.end <= |d| && t.kind != Comment
    ensures t.start < |d| ==> t.start < t.end
    ensures t.kind == QString ==> t.start + 2 <= t.end
    ensures t.kind == Number ==> forall k :: t.start <= k < t.end ==> IsNumberChar(d[k])
    ensures t.kind != EndOfStream ==> t.start < |d|
    decreases |d| - i
  {
    var t := ReadToken(d, i);
    if t.kind == Comment then Significant(d, t.end) else t
  }

  /** Behind the first token of a kind, or behind the end */
  function BehindNext(d: string, i: nat, kind: Kind): (r: nat)
    requires i <= |d|
    ensures i <= r <= |d|
    decreases |d| - i
  {
    var t := ReadToken(d, i);
    if t.kind == kind || t.kind == EndOfStream then t.end else BehindNext(d, t.end, kind)
  }

  /** A name as a C string: up to the first NUL */
  function CName(s: string): (c: string)
    ensures c <= s && NoNul(c) && (c == s || s[|c|] == '\0')
  {
    if s == "" || s[0] == '\0' then "" else [s[0]] + CName(s[1..])
  }

  /** operator[] and assignment: the members stay ascending by name, and a name that is there
      already gets the new value. */
  function Put(members: seq<Member>, name: string, value: Json): seq<Member> {
    if members == [] then [Member(name, value)]
    else
      var c := Strcmp(name, members[0].name);
      if c < 0 then [Member(name, value)] + members
      else if c == 0 then [Member(members[0].name, value)] + members[1..]
      else [members[0]] + Put(members[1..], name, value)
  }

  lemma NumberText(d: string, start: nat, end: nat)
    requires start <= end <= |d| && forall k :: start <= k < end ==> IsNumberChar(d[k])
    ensures AllNumberChars(d[start..end])
  {
    assert forall k :: 0 <= k < end - start ==> d[start..end][k] == d[start + k];
  }

  function ParseNumber(cfg: Config, text: string, end: nat): (p: Parsed)
    requires AllNumberChars(text)
    ensures p.Done? ==> p.end == end
  {
    match OutcomeOf(text)
    case Signed(i) => Done(Int(i), end)
    case Unsigned(u) => Done(UInt(u), end)
    case Double =>
      match cfg.scan(text)
      case NoNumber => Fail
      case Scanned(r) => Done(Real(r), end)
  }

  function ParseString(d: string, t: Token): Parsed
    requires t.start + 2 <= t.end <= |d|
  {
    var s := DecodeToken(d, t.start, t.end);
    if s.Bad? then Fail else Done(Str(s.s), t.end)
  }

  /** readValue */
  function ParseValue(cfg: Config, d: string, i: nat): (p: Parsed)
    requires i <= |d|
    ensures p.Done? ==> i < p.end <= |d|
    decreases |d| - i, 1
  {
    var t := if cfg.allowComments then Significant(d, i) else ReadToken(d, i);
    match t.kind
    case ObjectBegin => ParseMembers(cfg, d, t.end, [], "")
    case ArrayBegin => ParseArray(cfg, d, t.end)
    case Number =>
      NumberText(d, t.start, t.end);
      ParseNumber(cfg, d[t.start..t.end], t.end)
    case QString => ParseString(d, t)
    case True => Done(Bool(true), t.end)
    case False => Done(Bool(false), t.end)
    case NullWord => Done(Null, t.end)
    case _ => Fail
  }

  /** readArray, behind the bracket */
  function ParseArray(cfg: Config, d: string, i: nat): (p: Parsed)
    requires i <= |d|
    ensures p.Done? ==> i < p.end <= |d|
    decreases |d| - i, 3
  {
    var s := SkipSpaces(d, i);
    if At(d, s) == ']' then Done(Arr([]), s + 1) else ParseItems(cfg, d, s, [])
  }

  /** readArray, behind the items read so far */
  function ParseItems(cfg: Config, d: string, i: nat, items: seq<Json>): (p: Parsed)
    requires i <= |d|
    ensures p.Done? ==> i < p.end <= |d|
    decreases |d| - i, 2
  {
    var v := ParseValue(cfg, d, i);
    if v.Fail? then Fail
    else
      var t := Significant(d, v.end);
      if t.kind == ArrayEnd then Done(Arr(items + [v.value]), t.end)
      else if t.kind == ArraySeparator then ParseItems(cfg, d, t.end, items + [v.value])
      else Fail
  }

  /** What is found where a member may start: the closing brace, which is taken as long as the
      last name was empty, or a name and a colon */
  datatype Heading = Closed(end: nat) | BadHeading | Heading(name: string, end: nat)

  function HeadingAt(d: string, i: nat, lastName: string): (h: Heading)
    requires i <= |d|
    ensures !h.BadHeading? ==> i < h.end <= |d|
  {
    var t := Significant(d, i);
    if t.kind == ObjectEnd && lastName == "" then Closed(t.end)
    else if t.kind != QString then BadHeading
    else
      var n := DecodeToken(d, t.start, t.end);
      var colon := ReadToken(d, t.end);
      if n.Bad? || colon.kind != MemberSeparator then BadHeading else Heading(n.s, colon.end)
  }

  /** readObject, behind the members read so far. A comment behind a value hides what follows it
      from the check for a comma or a brace. */
  function ParseMembers(cfg: Config, d: string, i: nat, members: seq<Member>, lastName: string): (p: Parsed)
    requires i <= |d|
    ensures p.Done? ==> i < p.end <= |d|
    decreases |d| - i, 2
  {
    match HeadingAt(d, i, lastName)
    case Closed(end) => Done(Obj(members), end)
    case BadHeading => Fail
    case Heading(name, colonEnd) =>
      var v := ParseValue(cfg, d, colonEnd);
      if v.Fail? then Fail
      else
        var more := Put(members, CName(name), v.value);
        if ReadToken(d, v.end).kind !in {ObjectEnd, ArraySeparator, Comment} then Fail
        else
          var after := Significant(d, v.end);
          if after.kind == ObjectEnd then Done(Obj(more), after.end)
          else ParseMembers(cfg, d, after.end, more, name)
  }

  /** parse: what follows the value is ignored. */
  function Parse(cfg: Config, d: string): Parsed {
    var p := ParseValue(cfg, d, 0);
    if p.Done? && cfg.strictRoot && !p.value.Arr? && !p.value.Obj? then Fail else p
  }

  // ------------------------------------------------------------------- round trip

  /** The value the reader makes of the tokens of a tree. It stores an integer as signed if it fits
      31 bits or is negative, else as unsigned, and puts the members into an object one by one. */
  function Norm(v: Json): Json
    decreases v, 1
  {
    match v
    case Int(i) => if i <= MAX_INT then v else UInt(i)
    case UInt(u) => if u <= MAX_INT then Int(u) else v
    case Arr(items) => Arr(seq(|items|, k requires 0 <= k < |items| => Norm(items[k])))
    case Obj(members) => Obj(AllPut(members, |members|))
    case _ => v
  }

  /** The object after the first `n` members */
  function AllPut(ms: seq<Member>, n: nat): seq<Member>
    requires n <= |ms|
    decreases ms, 0, n
  {
    if n == 0 then [] else Put(AllPut(ms, n - 1), ms[n - 1].name, Norm(ms[n - 1].value))
  }

  lemma Head(d: string, i: nat, l: Lexeme, rest: seq<Lexeme>)
    requires i <= |d| && Lex(d, i) == [l] + rest
    ensures var t := ReadToken(d, i);
      t.kind == l.kind && t.kind != EndOfStream && d[t.start..t.end] == l.text && Lex(d, t.end) == rest
  {
    hide ReadToken, Lex;
    LexStep(d, i);
    var t := ReadToken(d, i);
    assert t.kind != EndOfStream;
    assert ([LexemeOf(d, t)] + Lex(d, t.end))[0] == l && ([LexemeOf(d, t)] + Lex(d, t.end))[1..] == rest;
  }

  lemma {:induction false} PutLast(members: seq<Member>, name: string, value: Json)
    requires forall k :: 0 <= k < |members| ==> Strcmp(members[k].name, name) < 0
    ensures Put(members, name, value) == members + [Member(name, value)]
  {
    if members != [] {
      StrcmpSwaps(members[0].name, name, 0);
      PutLast(members[1..], name, value);
      assert [members[0]] + (members[1..] + [Member(name, value)]) == members + [Member(name, value)];
    }
  }

  lemma {:induction false} CNameOfCString(s: string)
    requires NoNul(s)
    ensures CName(s) == s
  {
    if s != "" {
      assert s[0] in s;
      CNameOfCString(s[1..]);
    }
  }

  /** Where the tokens spell a tree, the reader returns the tree and stops behind it. */
  lemma {:induction false} ParseTokens(cfg: Config, d: string, i: nat, v: Json, rest: seq<Lexeme>)
    returns (end: nat)
    requires i <= |d| && Printable(v) && Lex(d, i) == Tokens(v) + rest
    ensures end <= |d| && ParseValue(cfg, d, i) == Done(Norm(v), end) && Lex(d, end) == rest
    decreases v, 3
  {
    hide ReadToken, Lex, Quoted, IntText, OutcomeOf, DecodeToken;
    FirstToken(v);
    Head(d, i, Tokens(v)[0], Tokens(v)[1..] + rest);
    var t := ReadToken(d, i);
    match v {
      case Arr(items) => end := ParseArrayTokens(cfg, d, i, v, rest);
      case Obj(members) => end := ParseObjectTokens(cfg, d, i, v, rest);
      case Int(n) =>
        DecodeIntText(n);
        end := t.end;
      case UInt(n) =>
        DecodeIntText(n);
        end := t.end;
      case Str(s) =>
        DecodeQuoted(s, d, t.start, t.end);
        end := t.end;
      case _ => end := t.end;
    }
  }

  /** A tree does not begin with a closing bracket, nor with a comment. */
  lemma FirstToken(v: Json)
    requires Printable(v)
    ensures Tokens(v) != [] && Tokens(v)[0].kind !in {ArrayEnd, Comment}
    ensures Tokens(v) != [] && Tokens(v) == [Tokens(v)[0]] + Tokens(v)[1..]
    ensures forall rest: seq<Lexeme> :: Tokens(v) + rest == [Tokens(v)[0]] + (Tokens(v)[1..] + rest)
    ensures !v.Arr? && !v.Obj? ==> forall rest: seq<Lexeme> :: Tokens(v)[1..] + rest == rest
  {
    hide Quoted, IntText;
  }

  lemma NoSpaceLeft(d: string, i: nat)
    requires i <= |d|
    ensures SkipSpaces(d, SkipSpaces(d, i)) == SkipSpaces(d, i)
  {
  }

  lemma SkipTwice(d: string, i: nat)
    requires i <= |d|
    ensures ReadToken(d, SkipSpaces(d, i)) == ReadToken(d, i) && Lex(d, SkipSpaces(d, i)) == Lex(d, i)
  {
    hide SkipSpaces, StringEnd, CommentEnd, NumberEnd, Matches, Lex;
    NoSpaceLeft(d, i);
    LexStep(d, i);
    LexStep(d, SkipSpaces(d, i));
  }

  /** The first token is not a comment. */
  lemma FirstIsSignificant(cfg: Config, d: string, i: nat)
    requires i <= |d| && ReadToken(d, i).kind != Comment
    ensures Significant(d, i) == ReadToken(d, i)
  {
  }

  lemma {:induction false} ParseArrayTokens(cfg: Config, d: string, i: nat, v: Json, rest: seq<Lexeme>)
    returns (end: nat)
    requires v.Arr? && i <= |d| && Printable(v) && Lex(d, i) == Tokens(v) + rest
    ensures end <= |d| && ParseValue(cfg, d, i) == Done(Norm(v), end) && Lex(d, end) == rest
    decreases v, 2
  {
    hide ReadToken, Lex, ParseItems, ItemTokens, Printable, Norm;
    TokenStep(v);
    NormStep(v);
    assert Norm(v).items[..0] == [];
    assert Tokens(v) + rest == [LBRACKET] + (ItemTokens(v, 0) + rest);
    Head(d, i, LBRACKET, ItemTokens(v, 0) + rest);
    FirstIsSignificant(cfg, d, i);
    var t := ReadToken(d, i);
    var s := SkipSpaces(d, t.end);
    SkipTwice(d, t.end);
    if v.items == [] {
      Head(d, t.end, RBRACKET, rest);
      assert Norm(v) == Arr([]);
      assert |RBRACKET.text| == 1;
      end := s + 1;
    } else {
      ItemStep(v, 0, rest);
      FirstToken(v.items[0]);
      Head(d, t.end, Tokens(v.items[0])[0], Tokens(v.items[0])[1..] + AfterItem(v, 0, rest));
      end := ParseItemsTokens(cfg, d, s, v, 0, rest);
    }
  }

  /** What is behind item `k` */
  function AfterItem(v: Json, k: nat, rest: seq<Lexeme>): seq<Lexeme>
    requires v.Arr? && Printable(v) && k < |v.items|
  {
    if k + 1 < |v.items| then [COMMA] + (ItemTokens(v, k + 1) + rest) else [RBRACKET] + rest
  }

  lemma TokenStep(v: Json)
    requires Printable(v)
    ensures v.Arr? ==> Tokens(v) == [LBRACKET] + ItemTokens(v, 0)
    ensures v.Arr? && v.items == [] ==> ItemTokens(v, 0) == [RBRACKET]
    ensures v.Obj? ==> Tokens(v) == [LBRACE] + MemberTokens(v, 0)
    ensures v.Obj? && v.members == [] ==> MemberTokens(v, 0) == [RBRACE]
  {
  }

  lemma NormStep(v: Json)
    ensures v.Arr? ==>
      && Norm(v).Arr? && |Norm(v).items| == |v.items|
      && forall k :: 0 <= k < |v.items| ==> Norm(v).items[k] == Norm(v.items[k])
    ensures v.Obj? ==> Norm(v) == Obj(AllPut(v.members, |v.members|)) && AllPut(v.members, 0) == []
    ensures !v.Arr? && !v.Obj? ==> !Norm(v).Arr? && !Norm(v).Obj?
  {
  }

  lemma ItemStep(v: Json, k: nat, rest: seq<Lexeme>)
    requires v.Arr? && Printable(v) && k < |v.items|
    ensures Printable(v.items[k])
    ensures ItemTokens(v, k) + rest == Tokens(v.items[k]) + AfterItem(v, k, rest)
  {
    if k + 1 == |v.items| {
      assert ItemTokens(v, k + 1) == [RBRACKET];
    }
  }

  lemma {:induction false} ParseItemsTokens(cfg: Config, d: string, i: nat, v: Json, k: nat, rest: seq<Lexeme>)
    returns (end: nat)
    requires v.Arr? && i <= |d| && Printable(v) && k < |v.items| && Lex(d, i) == ItemTokens(v, k) + rest
    requires Norm(v).Arr? && |Norm(v).items| == |v.items|
    ensures end <= |d| && ParseItems(cfg, d, i, Norm(v).items[..k]) == Done(Norm(v), end) && Lex(d, end) == rest
    decreases v, 1, |v.items| - k
  {
    hide ReadToken, Lex, ItemTokens, ParseValue, Printable, Norm, Tokens;
    NormStep(v);
    ItemStep(v, k, rest);
    var e := ParseTokens(cfg, d, i, v.items[k], AfterItem(v, k, rest));
    if k + 1 < |v.items| {
      Head(d, e, COMMA, ItemTokens(v, k + 1) + rest);
      FirstIsSignificant(cfg, d, e);
      assert Norm(v).items[..k + 1] == Norm(v).items[..k] + [Norm(v.items[k])];
      end := ParseItemsTokens(cfg, d, ReadToken(d, e).end, v, k + 1, rest);
    } else {
      Head(d, e, RBRACKET, rest);
      FirstIsSignificant(cfg, d, e);
      assert Norm(v).items == Norm(v).items[..k] + [Norm(v.items[k])];
      end := ReadToken(d, e).end;
    }
  }

  lemma {:induction false} ParseObjectTokens(cfg: Config, d: string, i: nat, v: Json, rest: seq<Lexeme>)
    returns (end: nat)
    requires v.Obj? && i <= |d| && Printable(v) && Lex(d, i) == Tokens(v) + rest
    ensures end <= |d| && ParseValue(cfg, d, i) == Done(Norm(v), end) && Lex(d, end) == rest
    decreases v, 2
  {
    hide ReadToken, Lex, MemberTokens, Printable, Norm;
    TokenStep(v);
    NormStep(v);
    assert Tokens(v) + rest == [LBRACE] + (MemberTokens(v, 0) + rest);
    Head(d, i, LBRACE, MemberTokens(v, 0) + rest);
    FirstIsSignificant(cfg, d, i);
    var t := ReadToken(d, i);
    if v.members == [] {
      Head(d, t.end, RBRACE, rest);
      FirstIsSignificant(cfg, d, t.end);
      end := ReadToken(d, t.end).end;
    } else {
      end := ParseMembersTokens(cfg, d, t.end, v, 0, "", rest);
    }
  }

  function AfterMember(v: Json, k: nat, rest: seq<Lexeme>): seq<Lexeme>
    requires v.Obj? && Printable(v) && k < |v.members|
  {
    if k + 1 < |v.members| then [COMMA] + (MemberTokens(v, k + 1) + rest) else [RBRACE] + rest
  }

  lemma RegroupMember(a: Lexeme, t: seq<Lexeme>, c: seq<Lexeme>, m: seq<Lexeme>, rest: seq<Lexeme>)
    ensures [a, COLON] + t + c + m + rest == [a] + ([COLON] + (t + (c + (m + rest))))
  {
  }

  lemma MemberStep(v: Json, k: nat, rest: seq<Lexeme>)
    requires v.Obj? && Printable(v) && k < |v.members|
    ensures var m := v.members[k];
      && NoNul(m.name) && Printable(m.value)
      && MemberTokens(v, k) + rest
         == [StringLexeme(m.name)] + ([COLON] + (Tokens(m.value) + AfterMember(v, k, rest)))
  {
    hide Quoted, Tokens, StringLexeme;
    var m := v.members[k];
    var c := if k + 1 < |v.members| then [COMMA] else [];
    RegroupMember(StringLexeme(m.name), Tokens(m.value), c, MemberTokens(v, k + 1), rest);
    if k + 1 == |v.members| {
      assert MemberTokens(v, k + 1) == [RBRACE];
      assert [] + ([RBRACE] + rest) == [RBRACE] + rest;
    }
  }

  /** One member read, up to what follows its value */
  lemma {:induction false} ParseOneMember(cfg: Config, d: string, i: nat, m: Member, members: seq<Member>, name: string,
                                          after: seq<Lexeme>)
    returns (e: nat)
    requires i <= |d| && NoNul(m.name) && Printable(m.value)
    requires Lex(d, i) == [StringLexeme(m.name)] + ([COLON] + (Tokens(m.value) + after))
    ensures e <= |d| && Lex(d, e) == after
    ensures var more := Put(members, m.name, Norm(m.value));
      var comma := ReadToken(d, e);
      var next := Significant(d, e);
      ParseMembers(cfg, d, i, members, name) ==
        if comma.kind !in {ObjectEnd, ArraySeparator, Comment} then Fail
        else if next.kind == ObjectEnd then Done(Obj(more), next.end)
        else ParseMembers(cfg, d, next.end, more, m.name)
    decreases m.value, 4
  {
    hide ReadToken, Lex, ParseValue, Printable, Norm, Tokens, DecodeToken, Quoted, Put, CName, Strcmp;
    Head(d, i, StringLexeme(m.name), [COLON] + (Tokens(m.value) + after));
    FirstIsSignificant(cfg, d, i);
    var t := ReadToken(d, i);
    DecodeQuoted(m.name, d, t.start, t.end);
    CNameOfCString(m.name);
    Head(d, t.end, COLON, Tokens(m.value) + after);
    e := ParseTokens(cfg, d, ReadToken(d, t.end).end, m.value, after);
  }

  lemma ParseMemberTokens(cfg: Config, d: string, i: nat, v: Json, k: nat, members: seq<Member>, name: string,
                                             rest: seq<Lexeme>)
    returns (e: nat)
    requires v.Obj? && i <= |d| && Printable(v) && k < |v.members| && Lex(d, i) == MemberTokens(v, k) + rest
    ensures e <= |d| && Lex(d, e) == AfterMember(v, k, rest)
    ensures var m := v.members[k];
      var more := Put(members, m.name, Norm(m.value));
      var comma := ReadToken(d, e);
      var after := Significant(d, e);
      ParseMembers(cfg, d, i, members, name) ==
        if comma.kind !in {ObjectEnd, ArraySeparator, Comment} then Fail
        else if after.kind == ObjectEnd then Done(Obj(more), after.end)
        else ParseMembers(cfg, d, after.end, more, m.name)
    decreases v, 0
  {
    hide ParseMembers, MemberTokens, AfterMember;
    MemberStep(v, k, rest);
    e := ParseOneMember(cfg, d, i, v.members[k], members, name, AfterMember(v, k, rest));
  }

  lemma OneMorePut(ms: seq<Member>, n: nat)
    requires n < |ms|
    ensures AllPut(ms, n + 1) == Put(AllPut(ms, n), ms[n].name, Norm(ms[n].value))
  {
  }

  lemma {:induction false} ParseMembersTokens(cfg: Config, d: string, i: nat, v: Json, k: nat, name: string, rest: seq<Lexeme>)
    returns (end: nat)
    requires v.Obj? && i <= |d| && Printable(v) && k < |v.members| && Lex(d, i) == MemberTokens(v, k) + rest
    ensures end <= |d| && Lex(d, end) == rest
    ensures ParseMembers(cfg, d, i, AllPut(v.members, k), name) == Done(Obj(AllPut(v.members, |v.members|)), end)
    decreases v, 1, |v.members| - k
  {
    hide ReadToken, Lex, MemberTokens, ParseMembers, Significant, Printable, Norm, Tokens, Put, AllPut;
    var m := v.members[k];
    var e := ParseMemberTokens(cfg, d, i, v, k, AllPut(v.members, k), name, rest);
    OneMorePut(v.members, k);
    if k + 1 < |v.members| {
      Head(d, e, COMMA, MemberTokens(v, k + 1) + rest);
      FirstIsSignificant(cfg, d, e);
      end := ParseMembersTokens(cfg, d, ReadToken(d, e).end, v, k + 1, m.name, rest);
    } else {
      Head(d, e, RBRACE, rest);
      FirstIsSignificant(cfg, d, e);
      end := ReadToken(d, e).end;
    }
  }

  /** Parsing any text with the tokens of the tree, so what either writer prints: it succeeds, as
      long as the configuration lets the root through, and gives the tree. */
  lemma PrintThenParse(cfg: Config, v: Json, text: string)
    requires Printable(v) && Spells(text, Tokens(v))
    ensures Parse(cfg, text).Done? <==> (cfg.strictRoot ==> v.Arr? || v.Obj?)
    ensures Parse(cfg, text).Done? ==> Parse(cfg, text).value == Norm(v)
  {
    hide ParseValue, Lex, Tokens;
    assert Tokens(v) + [] == Tokens(v);
    var end := ParseTokens(cfg, text, 0, v, []);
    NormStep(v);
  }

  /** A comment in front of the root is skipped if comments are allowed; it is an error if they
      are not. */
  lemma LeadingComment(cfg: Config, v: Json, d: string, c: Lexeme)
    requires Printable(v) && c.kind == Comment && Lex(d, 0) == [c] + Tokens(v)
    requires cfg.strictRoot ==> v.Arr? || v.Obj?
    ensures Parse(cfg, d).Done? <==> cfg.allowComments
    ensures Parse(cfg, d).Done? ==> Parse(cfg, d).value == Norm(v)
  {
    hide ReadToken, Lex, Tokens, Norm, Printable, ParseNumber, ParseString, ParseArray, ParseMembers;
    Head(d, 0, c, Tokens(v));
    var e := ReadToken(d, 0).end;
    FirstToken(v);
    Head(d, e, Tokens(v)[0], Tokens(v)[1..]);
    FirstIsSignificant(cfg, d, e);
    assert Tokens(v) + [] == Tokens(v);
    var end := ParseTokens(cfg, d, e, v, []);
    NormStep(v);
    if cfg.allowComments {
      assert Significant(d, 0) == Significant(d, e);
      assert ParseValue(cfg, d, 0) == ParseValue(cfg, d, e);
    }
  }

  // ------------------------------------------------- what is accepted beyond JSON

  predicate AllPrintable(ms: seq<Member>) {
    forall k :: 0 <= k < |ms| ==> NoNul(ms[k].name) && Printable(ms[k].value)
  }

  /** Members from number `k` on, each followed by a comma, and then a closing brace */
  function WithTrailingComma(ms: seq<Member>, k: nat): seq<Lexeme>
    requires AllPrintable(ms) && k <= |ms|
    decreases |ms| - k
  {
    if k == |ms| then [RBRACE]
    else [StringLexeme(ms[k].name)] + ([COLON] + (Tokens(ms[k].value) + ([COMMA] + WithTrailingComma(ms, k + 1))))
  }

  lemma {:induction false} ParseTrailingComma(cfg: Config, d: string, i: nat, ms: seq<Member>, k: nat, name: string,
                                              rest: seq<Lexeme>)
    requires i <= |d| && AllPrintable(ms) && k <= |ms| && Lex(d, i) == WithTrailingComma(ms, k) + rest
    requires k > 0 ==> name == ms[k - 1].name
    ensures var p := ParseMembers(cfg, d, i, AllPut(ms, k), name);
      var last := if ms == [] then name else ms[|ms| - 1].name;
      && (p.Done? <==> last == "")
      && (p.Done? ==> p.value == Obj(AllPut(ms, |ms|)))
    decreases |ms| - k
  {
    hide ReadToken, Lex, Significant, Tokens, Printable, Norm, Put, ParseValue, DecodeToken, Quoted, AllPut;
    if k == |ms| {
      Head(d, i, RBRACE, rest);
      FirstIsSignificant(cfg, d, i);
    } else {
      var after := [COMMA] + (WithTrailingComma(ms, k + 1) + rest);
      RegroupTrailing(ms, k, rest);
      var e := ParseOneMember(cfg, d, i, ms[k], AllPut(ms, k), name, after);
      Head(d, e, COMMA, WithTrailingComma(ms, k + 1) + rest);
      FirstIsSignificant(cfg, d, e);
      OneMorePut(ms, k);
      ParseTrailingComma(cfg, d, ReadToken(d, e).end, ms, k + 1, ms[k].name, rest);
    }
  }

  lemma RegroupTrailing(ms: seq<Member>, k: nat, rest: seq<Lexeme>)
    requires AllPrintable(ms) && k < |ms|
    ensures WithTrailingComma(ms, k) + rest
         == [StringLexeme(ms[k].name)]
            + ([COLON] + (Tokens(ms[k].value) + ([COMMA] + (WithTrailingComma(ms, k + 1) + rest))))
  {
    hide Tokens, StringLexeme;
    var t, w := Tokens(ms[k].value), WithTrailingComma(ms, k + 1);
    assert ([COMMA] + w) + rest == [COMMA] + (w + rest);
    assert (t + ([COMMA] + w)) + rest == t + ([COMMA] + (w + rest));
    assert ([COLON] + (t + ([COMMA] + w))) + rest == [COLON] + (t + ([COMMA] + (w + rest)));
  }

  /** More is accepted than JSON: a text whose tokens are an object with a comma behind its last
      member is accepted, and with all its members, if and only if the name of that member is
      empty. */
  lemma TrailingComma(cfg: Config, d: string, ms: seq<Member>, rest: seq<Lexeme>)
    requires AllPrintable(ms) && ms != [] && Lex(d, 0) == [LBRACE] + (WithTrailingComma(ms, 0) + rest)
    ensures var p := Parse(cfg, d);
      && (p.Done? <==> ms[|ms| - 1].name == "")
      && (p.Done? ==> p.value == Obj(AllPut(ms, |ms|)))
  {
    hide ReadToken, Lex, WithTrailingComma, ParseMembers;
    Head(d, 0, LBRACE, WithTrailingComma(ms, 0) + rest);
    FirstIsSignificant(cfg, d, 0);
    ParseTrailingComma(cfg, d, ReadToken(d, 0).end, ms, 0, "", rest);
  }

  /** Such a document */
  lemma TrailingCommaAccepted(cfg: Config)
    ensures Parse(cfg, "{\"\":1,}") == Done(Obj([Member("", Int(1))]), 7)
  {
    hide OutcomeOf, DecodeToken, Put, ReadToken;
    var d := "{\"\":1,}";
    ItsTokens(d);
    EmptyNameAndOne(d);
    assert ParseValue(cfg, d, 4) == Done(Int(1), 5);
    assert ParseMembers(cfg, d, 6, [Member("", Int(1))], "") == Done(Obj([Member("", Int(1))]), 7);
    assert HeadingAt(d, 1, "") == Heading("", 4);
    assert ParseMembers(cfg, d, 1, [], "") == ParseMembers(cfg, d, 6, [Member("", Int(1))], "");
  }

  lemma ItsTokens(d: string)
    requires d == "{\"\":1,}"
    ensures ReadToken(d, 0) == Token(ObjectBegin, 0, 1) && ReadToken(d, 1) == Token(QString, 1, 3)
    ensures ReadToken(d, 3) == Token(MemberSeparator, 3, 4) && ReadToken(d, 4) == Token(Number, 4, 5)
    ensures ReadToken(d, 5) == Token(ArraySeparator, 5, 6) && ReadToken(d, 6) == Token(ObjectEnd, 6, 7)
  {
  }

  lemma EmptyNameAndOne(d: string)
    requires d == "{\"\":1,}"
    ensures DecodeToken(d, 1, 3) == Good("") && Put([], "", Int(1)) == [Member("", Int(1))]
    ensures AllNumberChars(d[4..5]) && OutcomeOf(d[4..5]) == Signed(1)
  {
    assert IntText(1) == "1" == d[4..5];
    DecodeIntText(1);
  }

  /** A comment behind a member, and then any token `x` */
  lemma BehindComment(cfg: Config, d: string, e: nat, c: Lexeme, x: Lexeme, rest: seq<Lexeme>)
    requires e <= |d| && Lex(d, e) == [c] + ([x] + rest)
    requires c.kind == Comment && x.kind != Comment
    ensures ReadToken(d, e).kind == Comment
    ensures var t := Significant(d, e); t.kind == x.kind && Lex(d, t.end) == rest
  {
    hide ReadToken, Lex;
    Head(d, e, c, [x] + rest);
    var f := ReadToken(d, e).end;
    Head(d, f, x, rest);
    FirstIsSignificant(cfg, d, f);
    assert Significant(d, e) == Significant(d, f);
  }

  /** And where a comment stands between two members, any token but a brace stands for the comma:
      the text is accepted as if it were one. Without the comment it must be a comma. */
  lemma CommentHidesComma(cfg: Config, d: string, m: Member, n: Member, comment: seq<Lexeme>, x: Lexeme, rest: seq<Lexeme>)
    requires NoNul(m.name) && Printable(m.value) && NoNul(n.name) && Printable(n.value)
    requires x.kind !in {Comment, ObjectEnd}
    requires comment == [] || (|comment| == 1 && comment[0].kind == Comment)
    requires Lex(d, 0) ==
      [LBRACE] + ([StringLexeme(m.name)] + ([COLON] + (Tokens(m.value) + (comment + ([x] +
      ([StringLexeme(n.name)] + ([COLON] + (Tokens(n.value) + ([RBRACE] + rest)))))))))
    ensures var p := Parse(cfg, d);
      && (p.Done? <==> comment != [] || x.kind == ArraySeparator)
      && (p.Done? ==> p.value == Norm(Obj([m, n])))
  {
    hide ReadToken, Lex, Significant, Tokens, Printable, Norm, Put, ParseMembers, Quoted, StringLexeme;
    assert [m, n][0] == m && [m, n][1] == n;
    var second := [StringLexeme(n.name)] + ([COLON] + (Tokens(n.value) + ([RBRACE] + rest)));
    var after := comment + ([x] + second);
    Head(d, 0, LBRACE, [StringLexeme(m.name)] + ([COLON] + (Tokens(m.value) + after)));
    FirstIsSignificant(cfg, d, 0);
    var e := ParseOneMember(cfg, d, ReadToken(d, 0).end, m, [], "", after);
    if comment == [] {
      assert after == [x] + second;
      Head(d, e, x, second);
      FirstIsSignificant(cfg, d, e);
    } else {
      assert after == [comment[0]] + ([x] + second);
      BehindComment(cfg, d, e, comment[0], x, second);
    }
    var one := Put([], m.name, Norm(m.value));
    if comment != [] || x.kind == ArraySeparator {
      var f := ParseOneMember(cfg, d, Significant(d, e).end, n, one, m.name, [RBRACE] + rest);
      Head(d, f, RBRACE, rest);
      FirstIsSignificant(cfg, d, f);
      TwoPut(m, n);
    }
  }

  lemma TwoPut(m: Member, n: Member)
    ensures Norm(Obj([m, n])) == Obj(Put(Put([], m.name, Norm(m.value)), n.name, Norm(n.value)))
  {
    hide Put;
    var ms := [m, n];
    assert AllPut(ms, 1) == Put(AllPut(ms, 0), m.name, Norm(m.value));
    assert AllPut(ms, 2) == Put(AllPut(ms, 1), n.name, Norm(n.value));
  }

  // ------------------------------------------- members in any order, names repeated

  /** Strings that compare as equal compare alike with any other. */
  lemma SameName(s: string, t: string, u: string)
    requires Strcmp(s, t) == 0
    ensures Strcmp(s, u) == Strcmp(t, u) && Strcmp(u, s) == Strcmp(u, t)
  {
    hide StrcmpFrom;
    StrcmpSwaps(s, t, 0);
    StrcmpSwaps(s, u, 0);
    StrcmpSwaps(t, u, 0);
    if Strcmp(s, u) <= 0 {
      StrcmpChains(t, s, u, 0);
    } else {
      StrcmpChains(u, s, t, 0);
    }
    if Strcmp(t, u) <= 0 {
      StrcmpChains(s, t, u, 0);
    } else {
      StrcmpChains(u, t, s, 0);
    }
  }

  /** A member with this name and value is there. Names are compared as C strings. */
  predicate Holds(ms: seq<Member>, name: string, value: Json) {
    exists k :: 0 <= k < |ms| && Strcmp(ms[k].name, name) == 0 && ms[k].value == value
  }

  lemma HoldsFirst(m: Member, ms: seq<Member>, name: string, value: Json)
    ensures Holds([m] + ms, name, value) <==> (Strcmp(m.name, name) == 0 && m.value == value) || Holds(ms, name, value)
  {
    hide StrcmpFrom;
    var all := [m] + ms;
    if Holds(ms, name, value) {
      var k :| 0 <= k < |ms| && Strcmp(ms[k].name, name) == 0 && ms[k].value == value;
      assert all[k + 1] == ms[k];
    }
    if Strcmp(m.name, name) == 0 && m.value == value {
      assert all[0] == m;
    }
    if Holds(all, name, value) {
      var k :| 0 <= k < |all| && Strcmp(all[k].name, name) == 0 && all[k].value == value;
      assert k > 0 ==> all[k] == ms[k - 1];
    }
  }

  /** A name below the first one is not among the members. */
  lemma NotBelow(ms: seq<Member>, name: string, value: Json)
    requires Ascending(ms) && (ms != [] ==> Strcmp(name, ms[0].name) < 0)
    ensures !Holds(ms, name, value)
  {
    hide StrcmpFrom;
    forall k | 0 <= k < |ms| ensures Strcmp(ms[k].name, name) != 0 {
      if k > 0 {
        StrcmpChains(name, ms[0].name, ms[k].name, 0);
      }
      StrcmpSwaps(name, ms[k].name, 0);
    }
  }

  lemma Rest(ms: seq<Member>)
    requires ms != [] && Ascending(ms)
    ensures ms == [ms[0]] + ms[1..] && Ascending(ms[1..])
    ensures forall k :: 0 <= k < |ms[1..]| ==> Strcmp(ms[0].name, ms[1..][k].name) < 0
  {
    hide Strcmp;
  }

  lemma AscendingNothing()
    ensures Ascending([])
  {
  }

  lemma AscendingFirst(m: Member, ms: seq<Member>)
    requires Ascending(ms) && forall k :: 0 <= k < |ms| ==> Strcmp(m.name, ms[k].name) < 0
    ensures Ascending([m] + ms)
  {
    hide Strcmp;
    var all := [m] + ms;
    forall j, k | 0 <= j < k < |all| ensures Strcmp(all[j].name, all[k].name) < 0 {
      assert all[k] == ms[k - 1] && (j > 0 ==> all[j] == ms[j - 1]);
    }
  }

  /** What is in the members is the new one under its name, or was there. */
  lemma {:induction false} PutNames(ms: seq<Member>, name: string, value: Json, m: Member)
    requires m in Put(ms, name, value)
    ensures m in ms || (Strcmp(m.name, name) == 0 && m.value == value)
    ensures NoNul(name) && (forall k :: 0 <= k < |ms| ==> NoNul(ms[k].name)) ==> NoNul(m.name)
  {
    hide StrcmpFrom, NoNul;
    StrcmpSwaps(name, name, 0);
    if ms == [] {
      assert m == Member(name, value);
    } else {
      StrcmpSwaps(ms[0].name, name, 0);
      var c := Strcmp(name, ms[0].name);
      if c > 0 && m != ms[0] {
        assert m in Put(ms[1..], name, value);
        PutNames(ms[1..], name, value, m);
      }
    }
  }

  /** Members with a value put stay above a name that was below all of them and the new name. */
  lemma PutAbove(low: string, ms: seq<Member>, name: string, value: Json)
    requires Strcmp(low, name) < 0 && forall k :: 0 <= k < |ms| ==> Strcmp(low, ms[k].name) < 0
    ensures var r := Put(ms, name, value); forall k :: 0 <= k < |r| ==> Strcmp(low, r[k].name) < 0
  {
    hide Put, StrcmpFrom;
    var r := Put(ms, name, value);
    forall k | 0 <= k < |r| ensures Strcmp(low, r[k].name) < 0 {
      PutNames(ms, name, value, r[k]);
      if Strcmp(r[k].name, name) == 0 {
        SameName(r[k].name, name, low);
      }
    }
  }

  /** The members stay ascending. */
  lemma {:induction false} PutAscends(ms: seq<Member>, name: string, value: Json)
    requires Ascending(ms)
    ensures Ascending(Put(ms, name, value))
  {
    hide StrcmpFrom, Ascending;
    if ms == [] {
      AscendingNothing();
      AscendingFirst(Member(name, value), []);
      assert [Member(name, value)] + [] == [Member(name, value)];
    } else {
      Rest(ms);
      var c := Strcmp(name, ms[0].name);
      if c < 0 {
        forall k | 0 <= k < |ms| ensures Strcmp(name, ms[k].name) < 0 {
          if k > 0 {
            assert ms[k] == ms[1..][k - 1];
            StrcmpChains(name, ms[0].name, ms[k].name, 0);
          }
        }
        AscendingFirst(Member(name, value), ms);
      } else if c == 0 {
        AscendingFirst(Member(ms[0].name, value), ms[1..]);
      } else {
        StrcmpSwaps(name, ms[0].name, 0);
        PutAscends(ms[1..], name, value);
        PutAbove(ms[0].name, ms[1..], name, value);
        AscendingFirst(ms[0], Put(ms[1..], name, value));
      }
    }
  }

  /** Under `name` is the new value alone, and under any other name what was there. */
  lemma {:induction false} PutHolds(ms: seq<Member>, name: string, value: Json, other: string, w: Json)
    requires Ascending(ms)
    ensures Holds(Put(ms, name, value), other, w)
       <==> if Strcmp(other, name) == 0 then w == value else Holds(ms, other, w)
  {
    hide StrcmpFrom, Ascending, Holds;
    StrcmpSwaps(other, name, 0);
    if ms == [] {
      HoldsFirst(Member(name, value), [], other, w);
      AscendingNothing();
      NotBelow([], other, w);
      NotBelow(ms, other, w);
      assert [Member(name, value)] + [] == [Member(name, value)];
    } else {
      Rest(ms);
      var first, rest := ms[0], ms[1..];
      var c := Strcmp(name, first.name);
      StrcmpSwaps(name, first.name, 0);
      StrcmpSwaps(other, first.name, 0);
      HoldsFirst(first, rest, other, w);
      if c < 0 {
        HoldsFirst(Member(name, value), ms, other, w);
        if Strcmp(other, name) == 0 {
          SameName(other, name, first.name);
          NotBelow(ms, other, w);
        }
      } else if c == 0 {
        HoldsFirst(Member(first.name, value), rest, other, w);
        SameName(name, first.name, other);
        if Strcmp(other, name) == 0 {
          BelowRest(ms, other, w);
        }
      } else {
        PutHolds(rest, name, value, other, w);
        HoldsFirst(first, Put(rest, name, value), other, w);
        if Strcmp(other, name) == 0 {
          SameName(other, name, first.name);
        }
      }
    }
  }

  /** The name of the first member is not among the others. */
  lemma BelowRest(ms: seq<Member>, name: string, value: Json)
    requires ms != [] && Ascending(ms) && Strcmp(name, ms[0].name) == 0
    ensures !Holds(ms[1..], name, value)
  {
    hide StrcmpFrom;
    Rest(ms);
    if |ms| > 1 {
      SameName(name, ms[0].name, ms[1..][0].name);
    }
    NotBelow(ms[1..], name, value);
  }

  /** `k` is the last of the first `n` members with this name. */
  predicate LastNamed(ms: seq<Member>, n: nat, name: string, k: nat)
    requires n <= |ms|
  {
    k < n && Strcmp(ms[k].name, name) == 0 && forall j :: k < j < n ==> Strcmp(ms[j].name, name) != 0
  }

  /** The object made of members in any order: ascending, under each name the value of the last
      member with that name, and no other names */
  lemma {:induction false} AllPutHolds(ms: seq<Member>, n: nat, name: string, w: Json)
    requires n <= |ms|
    ensures Ascending(AllPut(ms, n))
    ensures Holds(AllPut(ms, n), name, w) <==> exists k: nat :: LastNamed(ms, n, name, k) && w == Norm(ms[k].value)
    decreases n
  {
    hide StrcmpFrom, Norm, Put, Ascending, Holds;
    if n == 0 {
      AscendingNothing();
      NotBelow([], name, w);
    } else {
      var last := ms[n - 1];
      AllPutHolds(ms, n - 1, name, w);
      PutAscends(AllPut(ms, n - 1), last.name, Norm(last.value));
      PutHolds(AllPut(ms, n - 1), last.name, Norm(last.value), name, w);
      StrcmpSwaps(name, last.name, 0);
      OneMoreNamed(ms, n, name);
      if Strcmp(last.name, name) == 0 {
        assert LastNamed(ms, n, name, n - 1);
      }
    }
  }

  lemma OneMoreNamed(ms: seq<Member>, n: nat, name: string)
    requires 0 < n <= |ms|
    ensures forall k: nat ::
      LastNamed(ms, n, name, k) <==> if Strcmp(ms[n - 1].name, name) == 0 then k == n - 1 else LastNamed(ms, n - 1, name, k)
  {
    hide Strcmp;
  }

  lemma {:induction false} AllPutNames(ms: seq<Member>, n: nat, m: Member)
    requires AllPrintable(ms) && n <= |ms| && m in AllPut(ms, n)
    ensures NoNul(m.name)
    decreases n
  {
    hide Put, Norm, NoNul;
    if n > 0 {
      var before := AllPut(ms, n - 1);
      forall k | 0 <= k < |before| ensures NoNul(before[k].name) {
        AllPutNames(ms, n - 1, before[k]);
      }
      PutNames(before, ms[n - 1].name, Norm(ms[n - 1].value), m);
    }
  }

  /** strcmp is equality of strings without NULs. */
  lemma SameCString(s: string, t: string)
    requires NoNul(s) && NoNul(t)
    ensures Strcmp(s, t) == 0 <==> s == t
  {
    hide StrcmpFrom;
    if Strcmp(s, t) == 0 {
      SameStrings(s, t, 0);
    }
    StrcmpSwaps(s, s, 0);
  }

  lemma InIsHolds(ms: seq<Member>, name: string, w: Json)
    requires NoNul(name) && forall m :: m in ms ==> NoNul(m.name)
    ensures Member(name, w) in ms <==> Holds(ms, name, w)
  {
    hide Strcmp, NoNul;
    SameCString(name, name);
    forall k | 0 <= k < |ms| ensures Strcmp(ms[k].name, name) == 0 <==> ms[k].name == name {
      assert ms[k] in ms;
      SameCString(ms[k].name, name);
    }
    if Member(name, w) in ms {
      var k :| 0 <= k < |ms| && ms[k] == Member(name, w);
    }
  }

  /** `k` is the last of the members with this name. */
  predicate LastWithName(ms: seq<Member>, name: string, k: nat) {
    k < |ms| && ms[k].name == name && forall j :: k < j < |ms| ==> ms[j].name != name
  }

  lemma LastIsLast(ms: seq<Member>, name: string)
    requires AllPrintable(ms) && NoNul(name)
    ensures forall k: nat :: LastNamed(ms, |ms|, name, k) <==> LastWithName(ms, name, k)
  {
    hide Strcmp, NoNul, Printable;
    forall k | 0 <= k < |ms| ensures Strcmp(ms[k].name, name) == 0 <==> ms[k].name == name {
      SameCString(ms[k].name, name);
    }
  }

  /** The members of an object read from members in any order */
  lemma ReadMembers(ms: seq<Member>, name: string, w: Json)
    requires AllPrintable(ms)
    ensures Member(name, w) in AllPut(ms, |ms|) <==> exists k: nat :: LastWithName(ms, name, k) && w == Norm(ms[k].value)
  {
    hide NoNul, Printable, Norm, Put, Strcmp, AllPut, Holds, Ascending, LastNamed;
    var r := AllPut(ms, |ms|);
    forall m | m in r ensures NoNul(m.name) {
      AllPutNames(ms, |ms|, m);
    }
    if NoNul(name) {
      InIsHolds(r, name, w);
      AllPutHolds(ms, |ms|, name, w);
      LastIsLast(ms, name);
    } else {
      assert Member(name, w).name == name;
    }
  }

  /** Parsing the text of an object, whatever the order of its members and whichever names are
      repeated: under each name is the last value given for it, and there are no other names. */
  lemma ParseObject(cfg: Config, ms: seq<Member>, text: string)
    requires Printable(Obj(ms)) && Spells(text, Tokens(Obj(ms)))
    ensures var p := Parse(cfg, text);
      && p.Done? && p.value.Obj? && Ascending(p.value.members)
      && forall name, w :: Member(name, w) in p.value.members
           <==> exists k: nat :: LastWithName(ms, name, k) && w == Norm(ms[k].value)
  {
    hide Tokens, Parse, Spells, AllPut, Ascending, Norm;
    NormStep(Obj(ms));
    PrintThenParse(cfg, Obj(ms), text);
    AllPutHolds(ms, |ms|, "", Null);
    forall name, w
      ensures Member(name, w) in AllPut(ms, |ms|) <==> exists k: nat :: LastWithName(ms, name, k) && w == Norm(ms[k].value)
    {
      ReadMembers(ms, name, w);
    }
  }

  // ---------------------------------------------------- trees as the program holds them

  /** The same tree with the tags of its integers as the reader chooses them */
  function Retag(v: Json): Json
    decreases v
  {
    match v
    case Int(i) => if i <= MAX_INT then v else UInt(i)
    case UInt(u) => if u <= MAX_INT then Int(u) else v
    case Arr(items) => Arr(seq(|items|, k requires 0 <= k < |items| => Retag(items[k])))
    case Obj(members) => Obj(RetagMembers(members))
    case _ => v
  }

  function RetagMembers(ms: seq<Member>): (r: seq<Member>)
    ensures |r| == |ms| && forall k :: 0 <= k < |ms| ==> r[k] == Member(ms[k].name, Retag(ms[k].value))
    decreases ms
  {
    seq(|ms|, k requires 0 <= k < |ms| => Member(ms[k].name, Retag(ms[k].value)))
  }

  /** A tree whose members are sorted is read as itself, up to the tags of its integers. */
  lemma {:induction false} SortedIsKept(v: Json)
    requires Sorted(v)
    ensures Norm(v) == Retag(v)
    decreases v, 1
  {
    match v
    case Arr(items) =>
      forall k | 0 <= k < |items| ensures Norm(items[k]) == Retag(items[k]) {
        SortedIsKept(items[k]);
      }
    case Obj(members) => SortedMembersAreKept(members, |members|);
    case _ =>
  }

  lemma {:induction false} SortedMembersAreKept(ms: seq<Member>, n: nat)
    requires Ascending(ms) && n <= |ms| && forall k :: 0 <= k < |ms| ==> Sorted(ms[k].value)
    ensures AllPut(ms, n) == RetagMembers(ms)[..n]
    decreases ms, 0, n
  {
    hide Put, Norm, Strcmp, Sorted, Retag;
    if n > 0 {
      SortedMembersAreKept(ms, n - 1);
      SortedIsKept(ms[n - 1].value);
      PutLast(RetagMembers(ms)[..n - 1], ms[n - 1].name, Retag(ms[n - 1].value));
    }
  }

  /** A tree in the form the reader produces */
  predicate AsRead(v: Json) {
    match v
    case Int(i) => i <= MAX_INT
    case UInt(u) => u > MAX_INT
    case Arr(items) => forall k :: 0 <= k < |items| ==> AsRead(items[k])
    case Obj(members) => Ascending(members) && forall k :: 0 <= k < |members| ==> AsRead(members[k].value)
    case _ => true
  }

  /** Whatever is read has that form, */
  lemma {:induction false} NormIsAsRead(v: Json)
    ensures AsRead(Norm(v))
    decreases v, 1
  {
    match v
    case Arr(items) =>
      forall k | 0 <= k < |items| ensures AsRead(Norm(items[k])) {
        NormIsAsRead(items[k]);
      }
    case Obj(members) =>
      AllPutHolds(members, |members|, "", Null);
      forall m | m in AllPut(members, |members|) ensures AsRead(m.value) {
        PutIsAsRead(members, |members|, m);
      }
    case _ =>
  }

  lemma {:induction false} PutIsAsRead(ms: seq<Member>, n: nat, m: Member)
    requires n <= |ms| && m in AllPut(ms, n)
    ensures AsRead(m.value)
    decreases ms, 0, n
  {
    hide Put, Norm, Strcmp, AsRead;
    if n > 0 {
      PutNames(AllPut(ms, n - 1), ms[n - 1].name, Norm(ms[n - 1].value), m);
      if m in AllPut(ms, n - 1) {
        PutIsAsRead(ms, n - 1, m);
      } else {
        NormIsAsRead(ms[n - 1].value);
      }
    }
  }

  /** and a tree of that form is read as itself: for such trees the round trip is the identity. */
  lemma AsReadIsStable(v: Json)
    requires AsRead(v)
    ensures Norm(v) == v
  {
    AsReadIsSorted(v);
    SortedIsKept(v);
    RetagNothing(v);
  }

  lemma {:induction false} AsReadIsSorted(v: Json)
    requires AsRead(v)
    ensures Sorted(v)
    decreases v
  {
    match v
    case Arr(items) =>
      forall k | 0 <= k < |items| ensures Sorted(items[k]) {
        AsReadIsSorted(items[k]);
      }
    case Obj(members) =>
      forall k | 0 <= k < |members| ensures Sorted(members[k].value) {
        AsReadIsSorted(members[k].value);
      }
    case _ =>
  }

  lemma {:induction false} RetagNothing(v: Json)
    requires AsRead(v)
    ensures Retag(v) == v
    decreases v
  {
    match v
    case Arr(items) =>
      forall k | 0 <= k < |items| ensures Retag(items[k]) == items[k] {
        RetagNothing(items[k]);
      }
      assert Retag(v).items == items;
    case Obj(members) =>
      forall k | 0 <= k < |members| ensures Retag(members[k].value) == members[k].value {
        RetagNothing(members[k].value);
      }
      assert RetagMembers(members) == members;
    case _ =>
  }

  lemma NormTwice(v: Json)
    ensures Norm(Norm(v)) == Norm(v)
  {
    hide Norm, AsRead;
    NormIsAsRead(v);
    AsReadIsStable(Norm(v));
  }
}

/** class Reader: it builds the value on a stack of nodes and collects errors. */
module JsonReading {
  import opened Bytes
  import opened JsonGrammar
  import opened Decimals
  import opened JsonNumbers
  import opened JsonStrings
  import opened JsonText
  import opened JsonValue
  import Utf8

  /** The messages of the reader */
  datatype Message =
    | ValueExpected | FourDigitsExpected | HexDigitExpected | SixMoreExpected | SecondEscapeExpected
    | EmptyEscape | BadEscape | NotANumber | MissingColon | MissingCommaOrBrace | MissingCommaOrBracket
    | MissingBraceOrName | RootMustBeContainer

  datatype ErrorInfo = ErrorInfo(message: Message, token: Token)

  /** codePointToUTF8 */
  method CodePointToUtf8(cp: nat) returns (result: string)
    ensures result == Text(Utf8.Encode(cp))
  {
    if cp > 0x10FFFF {
      return "";
    }
    var b := new byte[if cp <= 0x7F then 1 else if cp <= 0x7FF then 2 else if cp <= 0xFFFF then 3 else 4](_ => 0);
    if cp <= 0x7F {
      b[0] := cp;
    } else if cp <= 0x7FF {
      b[1] := 0x80 + cp % 64;
      b[0] := 0xC0 + cp / 64 % 32;
    } else if cp <= 0xFFFF {
      b[2] := 0x80 + cp % 64;
      b[1] := 0x80 + cp / 64 % 64;
      b[0] := 0xE0 + cp / 64 / 64 % 16;
    } else {
      b[3] := 0x80 + cp % 64;
      b[2] := 0x80 + cp / 64 % 64;
      b[1] := 0x80 + cp / 64 / 64 % 64;
      b[0] := 0xF0 + cp / 64 / 64 / 64 % 8;
    }
    ghost var high := cp / 64;
    assert b[..] == Utf8.Encode(cp);
    result := Text(b[..]);
  }

  class Reader {
    const cfg: Config
    var document: string
    var current: nat
    var errors: seq<ErrorInfo>
    var nodes: seq<Json>

    constructor (cfg: Config)
      ensures this.cfg == cfg
    {
      this.cfg := cfg;
      document, current, errors, nodes := "", 0, [], [];
    }

    // ------------------------------------------------------------- the tokenizer

    method GetNextChar() returns (c: char)
      requires current <= |document|
      modifies `current
      ensures c == At(document, old(current)) && current == Min(old(current) + 1, |document|)
    {
      if current == |document| {
        return '\0';
      }
      c := document[current];
      current := current + 1;
    }

    method SkipSpaces()
      requires current <= |document|
      modifies `current
      ensures current == JsonText.SkipSpaces(document, old(current))
    {
      while current != |document|
        invariant current <= |document|
        invariant JsonText.SkipSpaces(document, old(current)) == JsonText.SkipSpaces(document, current)
      {
        if !IsSpace(document[current]) {
          break;
        }
        current := current + 1;
      }
    }

    method Match(word: string) returns (ok: bool)
      requires current <= |document|
      modifies `current
      ensures ok == Matches(document, old(current), word)
      ensures current == if ok then old(current) + |word| else old(current)
    {
      if |document| - current < |word| {
        return false;
      }
      var index := |word|;
      while index != 0
        invariant 0 <= index <= |word| && current + |word| <= |document|
        invariant forall k :: index <= k < |word| ==> document[current + k] == word[k]
      {
        index := index - 1;
        if document[current + index] != word[index] {
          assert document[current..current + |word|][index] != word[index];
          return false;
        }
      }
      current := current + |word|;
      ok := true;
    }

    method ReadNumber()
      requires current <= |document|
      modifies `current
      ensures current == NumberEnd(document, old(current))
    {
      while current != |document|
        invariant current <= |document|
        invariant NumberEnd(document, old(current)) == NumberEnd(document, current)
      {
        if !IsNumberChar(document[current]) {
          break;
        }
        current := current + 1;
      }
    }

    method ReadString() returns (ok: bool)
      requires current <= |document|
      modifies `current
      ensures (current, ok) == StringEnd(document, old(current))
    {
      var c := '\0';
      while current != |document|
        invariant current <= |document|
        invariant StringEnd(document, old(current)) == StringEnd(document, current) && c != '"'
        decreases |document| - current
      {
        c := GetNextChar();
        if c == '\\' {
          var _ := GetNextChar();
        } else if c == '"' {
          break;
        }
      }
      ok := c == '"';
    }

    method ReadCStyleComment() returns (ok: bool)
      requires current <= |document|
      modifies `current
      ensures (current, ok) == CStyleEnd(document, old(current))
    {
      while current != |document|
        invariant current <= |document|
        invariant CStyleEnd(document, old(current)) == CStyleEnd(document, current)
        decreases |document| - current
      {
        var c := GetNextChar();
        if c == '*' && At(document, current) == '/' {
          break;
        }
      }
      var c := GetNextChar();
      ok := c == '/';
    }

    method ReadCppStyleComment()
      requires current <= |document|
      modifies `current
      ensures current == CppStyleEnd(document, old(current))
    {
      while current != |document|
        invariant current <= |document|
        invariant CppStyleEnd(document, old(current)) == CppStyleEnd(document, current)
        decreases |document| - current
      {
        var c := GetNextChar();
        if c == '\r' || c == '\n' {
          break;
        }
      }
    }

    method ReadComment() returns (ok: bool)
      requires current <= |document|
      modifies `current
      ensures (current, ok) == CommentEnd(document, old(current))
    {
      var c := GetNextChar();
      ok := false;
      if c == '*' {
        ok := ReadCStyleComment();
      } else if c == '/' {
        ReadCppStyleComment();
        ok := true;
      }
    }

    /** readToken */
    method ReadToken() returns (t: Token)
      requires current <= |document|
      modifies `current
      ensures t == JsonText.ReadToken(document, old(current)) && current == t.end
    {
      hide JsonText.SkipSpaces, NumberEnd, StringEnd, CommentEnd, Matches;
      SkipSpaces();
      var start := current;
      var c := GetNextChar();
      var kind, ok := Error, true;
      match c {
        case '{' => kind := ObjectBegin;
        case '}' => kind := ObjectEnd;
        case '[' => kind := ArrayBegin;
        case ']' => kind := ArrayEnd;
        case '"' =>
          kind := QString;
          ok := ReadString();
        case '/' =>
          kind := Comment;
          ok := ReadComment();
        case 't' =>
          kind := True;
          ok := Match("rue");
        case 'f' =>
          kind := False;
          ok := Match("alse");
        case 'n' =>
          kind := NullWord;
          ok := Match("ull");
        case ',' => kind := ArraySeparator;
        case ':' => kind := MemberSeparator;
        case '\0' => kind := EndOfStream;
        case _ =>
          if IsDigit(c) || c == '-' {
            kind := Number;
            ReadNumber();
          } else {
            ok := false;
          }
      }
      t := Token(if ok then kind else Error, start, current);
    }

    /** The loop over comments, as it stands in several places */
    method ReadSignificant() returns (t: Token)
      requires current <= |document|
      modifies `current
      ensures t == Significant(document, old(current)) && current == t.end
    {
      hide JsonText.ReadToken;
      t := ReadToken();
      while t.kind == Comment
        invariant current == t.end <= |document| && t.start <= t.end
        invariant t.kind == Comment ==> Significant(document, old(current)) == Significant(document, current)
        invariant t.kind != Comment ==> t == Significant(document, old(current))
        decreases |document| - current, t.kind == Comment
      {
        ghost var was := current;
        t := ReadToken();
      }
    }

    /** skipCommentTokens */
    method SkipCommentTokens() returns (t: Token)
      requires current <= |document|
      modifies `current
      ensures t == if cfg.allowComments then Significant(document, old(current)) else JsonText.ReadToken(document, old(current))
      ensures current == t.end
    {
      if cfg.allowComments {
        t := ReadSignificant();
      } else {
        t := ReadToken();
      }
    }

    // -------------------------------------------------------------------- errors

    method AddError(message: Message, t: Token)
      modifies `errors
      ensures errors == old(errors) + [ErrorInfo(message, t)]
    {
      errors := errors + [ErrorInfo(message, t)];
    }

    /** recoverFromError: stops behind the first token of the given kind, or at the end of the
        document. */
    method RecoverFromError(skipUntil: Kind)
      requires current <= |document|
      modifies `current
      ensures current == BehindNext(document, old(current), skipUntil)
    {
      hide JsonText.ReadToken;
      while true
        invariant current <= |document|
        invariant BehindNext(document, old(current), skipUntil) == BehindNext(document, current, skipUntil)
        decreases |document| - current
      {
        var skip := ReadToken();
        if skip.kind == skipUntil || skip.kind == EndOfStream {
          break;
        }
      }
    }

    // ------------------------------------------------------------------ decoding

    /** decodeUnicodeEscapeSequence */
    method DecodeHex4(t: Token, at: nat, end: nat) returns (r: CodePoint)
      requires at <= end <= |document|
      modifies `errors
      ensures r == Hex4(document, at, end)
      ensures if r.CodePoint? then errors == old(errors) else |errors| == |old(errors)| + 1 && old(errors) < errors
    {
      if end - at < 4 {
        AddError(FourDigitsExpected, t);
        return BadCodePoint;
      }
      var unicode, index := 0, 0;
      while index < 4
        invariant index <= 4 && errors == old(errors)
        invariant index == 0 ==> unicode == 0
        invariant index >= 1 ==> HexValue(document[at]) < 16
        invariant index >= 2 ==> HexValue(document[at + 1]) < 16
        invariant index >= 3 ==> HexValue(document[at + 2]) < 16
        invariant index >= 4 ==> HexValue(document[at + 3]) < 16
        invariant index == 1 ==> unicode == HexValue(document[at])
        invariant index == 2 ==> unicode == HexValue(document[at]) * 16 + HexValue(document[at + 1])
        invariant index == 3 ==>
          unicode == (HexValue(document[at]) * 16 + HexValue(document[at + 1])) * 16 + HexValue(document[at + 2])
        invariant index == 4 ==>
          unicode == ((HexValue(document[at]) * 16 + HexValue(document[at + 1])) * 16 + HexValue(document[at + 2])) * 16
                     + HexValue(document[at + 3])
      {
        var digit := HexValue(document[at + index]);
        if digit == 16 {
          AddError(HexDigitExpected, t);
          return BadCodePoint;
        }
        unicode := unicode * 16 + digit;
        index := index + 1;
      }
      r := CodePoint(unicode, at + 4);
    }

    /** decodeUnicodeCodePoint */
    method DecodeCodePoint(t: Token, at: nat, end: nat) returns (r: CodePoint)
      requires at <= end <= |document|
      modifies `errors
      ensures r == CodePointAt(document, at, end)
      ensures if r.CodePoint? then errors == old(errors) else old(errors) < errors
    {
      hide Hex4, Pair;
      r := DecodeHex4(t, at, end);
      if r.CodePoint? && 0xD800 <= r.cp <= 0xDBFF {
        if end - r.next < 6 {
          AddError(SixMoreExpected, t);
          return BadCodePoint;
        }
        if document[r.next] == '\\' && document[r.next + 1] == 'u' {
          var pair := DecodeHex4(t, r.next + 2, end);
          if pair.BadCodePoint? {
            return BadCodePoint;
          }
          r := CodePoint(Pair(r.cp, pair.cp), pair.next);
        } else {
          AddError(SecondEscapeExpected, t);
          return BadCodePoint;
        }
      }
    }

    /** The part of decodeString behind a backslash */
    method DecodeEscape(t: Token, start: nat, end: nat) returns (ok: bool, piece: string, at: nat)
      requires 0 < start <= end <= |document| && document[start - 1] == '\\'
      modifies `errors
      ensures ok ==> errors == old(errors) && start <= at <= end
      ensures ok ==> DecodeFrom(document, start - 1, end) == Prepend(piece, DecodeFrom(document, at, end))
      ensures !ok ==> old(errors) < errors && DecodeFrom(document, start - 1, end).Bad?
    {
      hide CodePointAt, Utf8.Encode;
      ok, piece, at := false, "", start;
      if at == end {
        AddError(EmptyEscape, t);
        return;
      }
      var escape := document[at];
      at := at + 1;
      if Plain(escape) != "" {
        piece := Plain(escape);
      } else if escape == 'u' {
        var u := DecodeCodePoint(t, at, end);
        if u.BadCodePoint? {
          return;
        }
        at := u.next;
        piece := CodePointToUtf8(u.cp);
      } else {
        AddError(BadEscape, t);
        return;
      }
      ok := true;
    }

    /** decodeString */
    method DecodeString(t: Token) returns (r: Decoded)
      requires t.start + 2 <= t.end <= |document|
      modifies `errors
      ensures r == DecodeToken(document, t.start, t.end)
      ensures if r.Good? then errors == old(errors) else old(errors) < errors
    {
      hide CodePointAt, Utf8.Encode;
      var at, end := t.start + 1, t.end - 1;
      var decoded := "";
      while at != end
        invariant at <= end && errors == old(errors)
        invariant DecodeFrom(document, t.start + 1, end) == Prepend(decoded, DecodeFrom(document, at, end))
        decreases end - at
      {
        ghost var before, rest := at, decoded;
        var piece: string;
        var c := document[at];
        at := at + 1;
        if c == '"' {
          break;
        } else if c == '\\' {
          var ok: bool;
          ok, piece, at := DecodeEscape(t, at, end);
          if !ok {
            return Bad;
          }
        } else {
          piece := [c];
        }
        PrependTwice(decoded, piece, DecodeFrom(document, at, end));
        decoded := decoded + piece;
      }
      r := Good(decoded);
    }

    /** decodeNumber, with decodeDouble */
    method DecodeNumber(t: Token) returns (ok: bool)
      requires t.start < t.end <= |document| && AllNumberChars(document[t.start..t.end]) && nodes != []
      modifies `errors, `nodes
      ensures ok == ParseNumber(cfg, document[t.start..t.end], t.end).Done?
      ensures ok ==> errors == old(errors) && Replaced(old(nodes), nodes, ParseNumber(cfg, document[t.start..t.end], t.end).value)
      ensures !ok ==> old(errors) < errors && nodes == old(nodes)
    {
      hide OutcomeOf;
      var text := document[t.start..t.end];
      var r := JsonNumbers.DecodeNumber(text);
      ok := true;
      match r
      case Signed(i) => SetCurrent(Int(i));
      case Unsigned(u) => SetCurrent(UInt(u));
      case Double =>
        match cfg.scan(text)
        case NoNumber =>
          AddError(NotANumber, t);
          ok := false;
        case Scanned(x) => SetCurrent(Real(x));
    }

    // ------------------------------------------------------------- the value tree

    /** What reading a value comes to, if the grammar says `p`: the value is on top of the stack,
        or errors have been added; whatever happens, the stack below is still `base`. */
    twostate predicate Outcome(ok: bool, p: Parsed, base: seq<Json>)
      reads this
    {
      && On(base, nodes) && document == old(document) && old(current) <= current <= |document|
      && ok == p.Done?
      && (ok ==> current == p.end && errors == old(errors) && nodes == base + [p.value])
      && (!ok ==> old(errors) < errors)
    }

    method AddErrorAndRecover(message: Message, t: Token, skipUntil: Kind)
      requires current <= |document|
      modifies `current, `errors
      ensures current == BehindNext(document, old(current), skipUntil)
      ensures errors == old(errors) + [ErrorInfo(message, t)]
    {
      AddError(message, t);
      RecoverFromError(skipUntil);
    }

    /** readValue */
    method ReadValue(ghost base: seq<Json>) returns (ok: bool)
      requires current <= |document| && On(base, nodes)
      modifies `current, `errors, `nodes
      ensures Outcome(ok, ParseValue(cfg, document, old(current)), base)
      decreases |document| - current, 1
    {
      hide JsonText.ReadToken, Significant, ParseArray, ParseMembers, ParseNumber, DecodeToken;
      var t := SkipCommentTokens();
      ok := true;
      match t.kind {
        case ObjectBegin => ok := ReadObject(base);
        case ArrayBegin => ok := ReadArray(base);
        case Number => ok := DecodeNumber(t);
        case QString =>
          var r := DecodeString(t);
          ok := r.Good?;
          if ok {
            SetCurrent(Str(r.s));
          }
        case True => SetCurrent(Bool(true));
        case False => SetCurrent(Bool(false));
        case NullWord => SetCurrent(Null);
        case _ =>
          AddError(ValueExpected, t);
          ok := false;
      }
    }

    /** A new element of the array on top: it is read on a stack one higher and then put into
        the array. */
    method ReadElement(ghost base: seq<Json>, ghost items: seq<Json>) returns (ok: bool)
      requires current <= |document| && nodes == base + [Arr(items)]
      modifies `current, `errors, `nodes
      ensures var p := ParseValue(cfg, document, old(current));
        Outcome(ok, if p.Fail? then Fail else Done(Arr(items + [p.value]), p.end), base)
      decreases |document| - current, 2
    {
      hide ParseValue;
      nodes := nodes + [Null];
      assert nodes[..|base| + 1] == base + [Arr(items)];
      ok := ReadValue(base + [Arr(items)]);
      var n := |nodes|;
      nodes := nodes[..n - 2] + [Arr(nodes[n - 2].items + [nodes[n - 1]])];
    }

    /** A member of the object on top, in the same way */
    method ReadMember(name: string, ghost base: seq<Json>, ghost members: seq<Member>) returns (ok: bool)
      requires current <= |document| && nodes == base + [Obj(members)]
      modifies `current, `errors, `nodes
      ensures var p := ParseValue(cfg, document, old(current));
        Outcome(ok, if p.Fail? then Fail else Done(Obj(Put(members, CName(name), p.value)), p.end), base)
      decreases |document| - current, 2
    {
      hide ParseValue, Put, CName;
      nodes := nodes + [Null];
      assert nodes[..|base| + 1] == base + [Obj(members)];
      ok := ReadValue(base + [Obj(members)]);
      var n := |nodes|;
      nodes := nodes[..n - 2] + [Obj(Put(nodes[n - 2].members, CName(name), nodes[n - 1]))];
    }

    /** readArray */
    method ReadArray(ghost base: seq<Json>) returns (ok: bool)
      requires current <= |document| && On(base, nodes)
      modifies `current, `errors, `nodes
      ensures Outcome(ok, ParseArray(cfg, document, old(current)), base)
      decreases |document| - current, 4
    {
      hide JsonText.SkipSpaces, ParseItems, JsonText.ReadToken;
      SetCurrent(Arr([]));
      SkipSpaces();
      if At(document, current) == ']' {
        BracketToken(document, old(current));
        var endArray := ReadToken();
        return true;
      }
      ok := ReadItems(base);
    }

    /** The loop of readArray */
    method ReadItems(ghost base: seq<Json>) returns (ok: bool)
      requires current <= |document| && nodes == base + [Arr([])]
      modifies `current, `errors, `nodes
      ensures Outcome(ok, ParseItems(cfg, document, old(current), []), base)
      decreases |document| - current, 3
    {
      hide Significant, ParseValue, On;
      ghost var items: seq<Json> := [];
      while true
        invariant old(current) <= current <= |document| && errors == old(errors)
        invariant nodes == base + [Arr(items)]
        invariant ParseItems(cfg, document, old(current), []) == ParseItems(cfg, document, current, items)
        decreases |document| - current
      {
        OnTop(base, Arr(items));
        ghost var v := ParseValue(cfg, document, current);
        ok := ReadElement(base, items);
        if !ok {
          RecoverFromError(ArrayEnd);
          return;
        }
        items := items + [v.value];
        var t := ReadSignificant();
        if t.kind != ArraySeparator && t.kind != ArrayEnd {
          AddErrorAndRecover(MissingCommaOrBracket, t, ArrayEnd);
          return false;
        }
        if t.kind == ArrayEnd {
          break;
        }
      }
      OnTop(base, Arr(items));
      ok := true;
    }

    /** readObject */
    method ReadObject(ghost base: seq<Json>) returns (ok: bool)
      requires current <= |document| && On(base, nodes)
      modifies `current, `errors, `nodes
      ensures Outcome(ok, ParseMembers(cfg, document, old(current), [], ""), base)
      decreases |document| - current, 4
    {
      hide ParseMembers;
      SetCurrent(Obj([]));
      ok := ReadMembers(base);
    }

    /** The first half of the loop of readObject */
    method ReadHeading(lastName: string) returns (h: Heading)
      requires current <= |document|
      modifies `current, `errors
      ensures h == HeadingAt(document, old(current), lastName) && old(current) <= current <= |document|
      ensures if h.BadHeading? then old(errors) < errors else errors == old(errors) && current == h.end
    {
      hide JsonText.ReadToken, Significant, DecodeToken;
      var t := ReadSignificant();
      if t.kind == ObjectEnd && lastName == "" {
        return Closed(current);
      }
      if t.kind != QString {
        AddErrorAndRecover(MissingBraceOrName, t, ObjectEnd);
        return BadHeading;
      }
      var r := DecodeString(t);
      if r.Bad? {
        RecoverFromError(ObjectEnd);
        return BadHeading;
      }
      var colon := ReadToken();
      if colon.kind != MemberSeparator {
        AddErrorAndRecover(MissingColon, colon, ObjectEnd);
        return BadHeading;
      }
      h := Heading(r.s, current);
    }

    /** The loop of readObject */
    method ReadMembers(ghost base: seq<Json>) returns (ok: bool)
      requires current <= |document| && nodes == base + [Obj([])]
      modifies `current, `errors, `nodes
      ensures Outcome(ok, ParseMembers(cfg, document, old(current), [], ""), base)
      decreases |document| - current, 3
    {
      hide JsonText.ReadToken, Significant, ParseValue, HeadingAt, CName, Put, On;
      var name := "";
      ghost var members: seq<Member> := [];
      while true
        invariant old(current) <= current <= |document| && errors == old(errors)
        invariant nodes == base + [Obj(members)]
        invariant ParseMembers(cfg, document, old(current), [], "") == ParseMembers(cfg, document, current, members, name)
        decreases |document| - current
      {
        OnTop(base, Obj(members));
        var h := ReadHeading(name);
        if !h.Heading? {
          return h.Closed?;
        }
        name := h.name;
        ghost var v := ParseValue(cfg, document, current);
        ok := ReadMember(name, base, members);
        if !ok {
          RecoverFromError(ObjectEnd);
          return;
        }
        members := Put(members, CName(name), v.value);
        OnTop(base, Obj(members));
        SignificantStep(document, current);
        var comma := ReadToken();
        if comma.kind != ObjectEnd && comma.kind != ArraySeparator && comma.kind != Comment {
          AddErrorAndRecover(MissingCommaOrBrace, comma, ObjectEnd);
          return false;
        }
        if comma.kind == Comment {
          comma := ReadSignificant();
        }
        if comma.kind == ObjectEnd {
          return true;
        }
      }
    }

    /** parse: total on every document. The stack of nodes is back to the root, the reader has
        stayed inside the document, and success means that no error was recorded. */
    method Parse(doc: string) returns (ok: bool, root: Json)
      modifies this
      ensures document == doc && current <= |doc| && nodes == [root]
      ensures ok == JsonGrammar.Parse(cfg, doc).Done?
      ensures ok ==> root == JsonGrammar.Parse(cfg, doc).value
      ensures ok <==> errors == []
    {
      hide ParseValue, JsonText.ReadToken, Significant;
      document, current, errors, nodes := doc, 0, [], [Null];
      ok := ReadValue([]);
      root := nodes[0];
      var t := SkipCommentTokens();
      if cfg.strictRoot && !root.Arr? && !root.Obj? {
        AddError(RootMustBeContainer, Token(Error, 0, |doc|));
        ok := false;
      }
    }

    /** Assigns to currentValue(). */
    method SetCurrent(v: Json)
      requires nodes != []
      modifies `nodes
      ensures Replaced(old(nodes), nodes, v)
    {
      nodes := nodes[..|nodes| - 1] + [v];
    }
  }

  lemma SignificantStep(d: string, i: nat)
    requires i <= |d|
    ensures var t := JsonText.ReadToken(d, i);
      Significant(d, i) == if t.kind == Comment then Significant(d, t.end) else t
  {
  }

  /** One node above `base` */
  ghost predicate On(base: seq<Json>, nodes: seq<Json>) { |nodes| == |base| + 1 && nodes[..|base|] == base }

  lemma OnTop(base: seq<Json>, v: Json)
    ensures On(base, base + [v])
  {
  }

  lemma BracketToken(d: string, i: nat)
    requires i <= |d| && At(d, JsonText.SkipSpaces(d, i)) == ']'
    ensures var s := JsonText.SkipSpaces(d, i);
      JsonText.ReadToken(d, s) == Token(ArrayEnd, s, s + 1)
  {
    NoSpaceLeft(d, i);
  }

  /** Only the node on top has changed, to `v`. */
  ghost predicate Replaced(before: seq<Json>, after: seq<Json>, v: Json) {
    before != [] && after == before[..|before| - 1] + [v]
  }

  lemma PrependTwice(a: string, b: string, r: Decoded)
    ensures Prepend(a, Prepend(b, r)) == Prepend(a + b, r)
  {
    if r.Good? {
      assert a + (b + r.s) == a + b + r.s;
    }
  }
}

/** The writers and the reader together */
module JsonRoundTrip {
  import opened JsonGrammar
  import opened JsonReading
  import opened JsonTokens
  import opened JsonValue
  import opened JsonWriters

  /** Whatever is printed, by either writer, is parsed back: the same tree up to the tag of its
      integers, and the tree itself if it has been read before. */
  method PrintAndParse(v: Json, cfg: Config, styled: bool) returns (ok: bool, w: Json)
    requires Printable(v) && Sorted(v) && (cfg.strictRoot ==> v.Arr? || v.Obj?)
    ensures ok && w == Retag(v)
    ensures AsRead(v) ==> w == v
  {
    hide Printable, Sorted, Norm, Retag, AsRead, Tokens, FastText, Spells, Parse;
    SortedIsKept(v);
    if AsRead(v) {
      AsReadIsStable(v);
    }
    var text: string;
    if styled {
      var writer := new StyledWriter();
      text := writer.Write(v);
    } else {
      var writer := new FastWriter();
      text := writer.Write(v);
      FastDocument(v);
    }
    PrintThenParse(cfg, v, text);
    var reader := new Reader(cfg);
    ok, w := reader.Parse(text);
  }
}

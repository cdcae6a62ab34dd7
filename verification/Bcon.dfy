/**
  BCON: a flat list of tokens compiled to BSON builder calls by a machine with two stacks.
  `Scan` says what the machine does with any list; `Translate` is the recursive reading of
  a balanced list as nested documents and arrays.
 */
module Bcon {
  import opened Decimals

  /** An entry of a BCON array. A C string, or, after a type specifier, a value of the type
      the specifier names; `Nil` is a null pointer given to a pointer specifier. */
  datatype Bcon =
    | S(s: string)
    | F(bits: int)
    | D(doc: seq<Bcon>)
    | A(arr: seq<Bcon>)
    | O(oid: string)
    | B(b: bool)
    | T(time: int)
    | V
    | X(symbol: string)
    | I(i: int)
    | L(l: int)
    | Nil

  /** Calls on the BSON builder. `Put` appends a value with the function for its type. */
  datatype Call = Start(key: string, isArray: bool) | Finish(isArray: bool) | Put(key: string, value: Bcon)

  datatype Token = Default | End | Typespec | OpenBrace | CloseBrace | OpenBracket | CloseBracket

  /** bcon_token */
  function TokenOf(s: string): Token {
    if |s| == 4 && s[0] == ':' && s[3] == ':' && (s[1] == '_' || s[1] == 'P' || s[1] == 'R') then Typespec
    else if s == "{" then OpenBrace
    else if s == "}" then CloseBrace
    else if s == "[" then OpenBracket
    else if s == "]" then CloseBracket
    else if s == "." then End
    else Default
  }

  predicate IsToken(b: Bcon, t: Token) { b.S? && TokenOf(b.s) == t }

  /** The value is of the type the specifier announces, and the specifier is a known one. */
  predicate Fits(typespec: string, b: Bcon)
    requires TokenOf(typespec) == Typespec
  {
    if typespec[1] == 'P' && b == Nil then true
    else
      match typespec[2]
      case '_' => typespec[1] == '_' && b.S?
      case 's' => b.S?
      case 'f' => b.F?
      case 'D' => b.D?
      case 'A' => b.A?
      case 'o' => b.O?
      case 'b' => b.B?
      case 't' => b.T?
      case 'v' => typespec[1] == '_' && b.V?
      case 'x' => b.X?
      case 'i' => b.I?
      case 'l' => b.L?
      case _ => false
  }

  /** DOC_STACK_SIZE and ARRAY_INDEX_STACK_SIZE */
  const STACK_SIZE: nat := 1024

  // ---------------------------------------------------------- what the machine does

  /** An open document, or an open array with the index of its next element. */
  datatype Level = InDoc | InArr(next: nat)

  /**
    What becomes of a token list: the calls made, the levels still open, whether the list
    ended between a key and its value (`mid`), whether all lists interpolated into it were
    balanced (`whole`), and the entry at which the machine stopped. `Broken` are the lists on
    which the source runs out of its arrays or takes a value for what it is not.
   */
  datatype Scan =
    | Broken
    | Ended(calls: seq<Call>, open: seq<Level>, mid: bool, whole: bool, last: nat)

  function Prepend(calls: seq<Call>, whole: bool, rest: Scan): Scan {
    match rest
    case Broken => Broken
    case Ended(c, open, mid, w, last) => Ended(calls + c, open, mid, whole && w, last)
  }

  /** Everything that was opened has been closed, in the list and in all lists inside it. */
  predicate IsClean(r: Scan) {
    r.Ended? && r.whole && !r.mid && |r.open| == 1
  }

  /** The return value: only the kind of the innermost open level is compared. */
  predicate ReportsOk(base: Level, r: Scan)
    requires r.Ended? && r.open != []
  {
    !r.mid && r.open[|r.open| - 1].InDoc? == base.InDoc?
  }

  function Pop(levels: seq<Level>): seq<Level>
    requires levels != []
  {
    levels[..|levels| - 1]
  }

  function Top(levels: seq<Level>): Level
    requires levels != []
  {
    levels[|levels| - 1]
  }

  /** At entry `at`, at the start of a member or an element. */
  function ScanLevel(levels: seq<Level>, toks: seq<Bcon>, at: nat): (r: Scan)
    requires levels != []
    ensures r.Ended? ==> r.open != []
    decreases toks, |toks| - at, 2
  {
    if at >= |toks| || !toks[at].S? then Broken
    else if TokenOf(toks[at].s) == End then Ended([], levels, false, true, at)
    else if Top(levels).InDoc? then
      if TokenOf(toks[at].s) == CloseBrace then
        if |levels| == 1 then Broken else Prepend([Finish(false)], true, ScanLevel(Pop(levels), toks, at + 1))
      else ScanValue(toks[at].s, levels, toks, at + 1)
    else
      if TokenOf(toks[at].s) == CloseBracket then
        if |levels| == 1 then Broken else Prepend([Finish(true)], true, ScanLevel(Pop(levels), toks, at + 1))
      else ScanValue(Decimal(Top(levels).next), Bump(levels), toks, at)
  }

  /** The innermost array has one more element. */
  function Bump(levels: seq<Level>): (r: seq<Level>)
    requires levels != [] && Top(levels).InArr?
    ensures |r| == |levels| && Top(r) == InArr(Top(levels).next + 1) && Pop(r) == Pop(levels)
  {
    Pop(levels) + [InArr(Top(levels).next + 1)]
  }

  /** Where the value for `key` is expected. */
  function ScanValue(key: string, levels: seq<Level>, toks: seq<Bcon>, at: nat): (r: Scan)
    requires levels != []
    ensures r.Ended? ==> r.open != []
    decreases toks, |toks| - at, 1
  {
    if at >= |toks| || !toks[at].S? then Broken
    else
      match TokenOf(toks[at].s)
      case Typespec => ScanTyped(key, toks[at].s, levels, toks, at + 1)
      case OpenBrace =>
        if |levels| > STACK_SIZE then Broken
        else Prepend([Start(key, false)], true, ScanLevel(levels + [InDoc], toks, at + 1))
      case OpenBracket =>
        if |levels| > STACK_SIZE then Broken
        else Prepend([Start(key, true)], true, ScanLevel(levels + [InArr(0)], toks, at + 1))
      case End => Ended([], levels, true, true, at)
      case _ => Prepend([Put(key, toks[at])], true, ScanLevel(levels, toks, at + 1))
  }

  /** Where the value announced by a type specifier is expected. A list interpolated as a
      document or an array is compiled on its own; unless that reports success, the outer
      list stops. */
  function ScanTyped(key: string, typespec: string, levels: seq<Level>, toks: seq<Bcon>, at: nat): (r: Scan)
    requires levels != [] && TokenOf(typespec) == Typespec
    ensures r.Ended? ==> r.open != []
    decreases toks, |toks| - at, 0
  {
    if at >= |toks| || !Fits(typespec, toks[at]) then Broken
    else
      var rest := ScanLevel(levels, toks, at + 1);
      match toks[at]
      case D(doc) => ScanNested(key, false, ScanLevel([InDoc], doc, 0), levels, at, rest)
      case A(arr) => ScanNested(key, true, ScanLevel([InArr(0)], arr, 0), levels, at, rest)
      case Nil => rest
      case v => Prepend([Put(key, v)], true, rest)
  }

  function Around(key: string, isArray: bool, calls: seq<Call>): seq<Call> {
    [Start(key, isArray)] + calls + [Finish(isArray)]
  }

  function ScanNested(key: string, isArray: bool, inner: Scan, levels: seq<Level>, at: nat, rest: Scan): (r: Scan)
    requires inner.Ended? ==> inner.open != []
    requires levels != [] && (rest.Ended? ==> rest.open != [])
    ensures r.Ended? ==> r.open != []
  {
    if inner.Broken? then Broken
    else if ReportsOk(Base(isArray), inner) then Prepend(Around(key, isArray, inner.calls), IsClean(inner), rest)
    else Ended(Around(key, isArray, inner.calls), levels, false, false, at)
  }

  function Base(isArray: bool): Level { if isArray then InArr(0) else InDoc }

  // ------------------------------------------------------- the recursive translation

  /** A translated stretch of entries: the calls, where it ends, and for elements of an
      array the index after the last one. */
  datatype Parse = Unbalanced | Parse(calls: seq<Call>, end: nat, next: nat)

  /** Members of a document, up to the token that closes it or ends the list. */
  function Members(depth: nat, toks: seq<Bcon>, at: nat): (p: Parse)
    ensures p.Parse? ==>
              && at <= p.end < |toks|
              && (IsToken(toks[p.end], CloseBrace) || IsToken(toks[p.end], End))
    decreases toks, |toks| - at, 2
  {
    if at >= |toks| || !toks[at].S? then Unbalanced
    else if TokenOf(toks[at].s) in {CloseBrace, End} then Parse([], at, 0)
    else
      var v := ValueOf(toks[at].s, depth, toks, at + 1);
      if v.Unbalanced? then Unbalanced
      else
        var m := Members(depth, toks, v.end);
        if m.Unbalanced? then Unbalanced else Parse(v.calls + m.calls, m.end, 0)
  }

  /** Elements of an array from index `i` on, up to the token that closes it or ends the list. */
  function Items(depth: nat, i: nat, toks: seq<Bcon>, at: nat): (p: Parse)
    ensures p.Parse? ==>
              && at <= p.end < |toks|
              && (IsToken(toks[p.end], CloseBracket) || IsToken(toks[p.end], End))
    decreases toks, |toks| - at, 2
  {
    if at >= |toks| || !toks[at].S? then Unbalanced
    else if TokenOf(toks[at].s) in {CloseBracket, End} then Parse([], at, i)
    else
      var v := ValueOf(Decimal(i), depth, toks, at);
      if v.Unbalanced? then Unbalanced
      else
        var m := Items(depth, i + 1, toks, v.end);
        if m.Unbalanced? then Unbalanced else Parse(v.calls + m.calls, m.end, m.next)
  }

  function ValueOf(key: string, depth: nat, toks: seq<Bcon>, at: nat): (p: Parse)
    ensures p.Parse? ==> at < p.end <= |toks|
    decreases toks, |toks| - at, 1
  {
    if at >= |toks| || !toks[at].S? then Unbalanced
    else
      match TokenOf(toks[at].s)
      case Typespec =>
        if at + 1 == |toks| || !Fits(toks[at].s, toks[at + 1]) then Unbalanced
        else
          (match toks[at + 1]
           case D(doc) => Enclosed(key, false, Translate(false, doc), at + 1)
           case A(arr) => Enclosed(key, true, Translate(true, arr), at + 1)
           case Nil => Parse([], at + 2, 0)
           case v => Parse([Put(key, v)], at + 2, 0))
      case OpenBrace =>
        var m := Members(depth + 1, toks, at + 1);
        if depth > STACK_SIZE || m.Unbalanced? || !IsToken(toks[m.end], CloseBrace) then Unbalanced
        else Enclosed(key, false, m, m.end)
      case OpenBracket =>
        var m := Items(depth + 1, 0, toks, at + 1);
        if depth > STACK_SIZE || m.Unbalanced? || !IsToken(toks[m.end], CloseBracket) then Unbalanced
        else Enclosed(key, true, m, m.end)
      case End => Unbalanced
      case _ => Parse([Put(key, toks[at])], at + 1, 0)
  }

  function Enclosed(key: string, isArray: bool, inner: Parse, last: nat): Parse {
    if inner.Unbalanced? then Unbalanced else Parse(Around(key, isArray, inner.calls), last + 1, 0)
  }

  /** A whole list, read as a document or as an array. */
  function Translate(isArray: bool, toks: seq<Bcon>): (p: Parse)
    decreases toks, |toks|, 3
  {
    var p := if isArray then Items(1, 0, toks, 0) else Members(1, toks, 0);
    if p.Unbalanced? || !IsToken(toks[p.end], End) then Unbalanced else p
  }

  // --------------------------------------------- the machine refines the translation

  lemma PrependTwice(a: seq<Call>, x: bool, b: seq<Call>, y: bool, r: Scan)
    ensures Prepend(a, x, Prepend(b, y, r)) == Prepend(a + b, x && y, r)
  {
    if r.Ended? {
      assert a + (b + r.calls) == (a + b) + r.calls;
    }
  }

  lemma PrependNothing(r: Scan)
    ensures Prepend([], true, r) == r
  {
    if r.Ended? {
      assert [] + r.calls == r.calls;
    }
  }

  /** A balanced stretch makes the machine emit the translated calls and brings it back to
      the same level. */
  lemma {:induction false} ScanMembers(levels: seq<Level>, toks: seq<Bcon>, at: nat)
    requires levels != [] && Top(levels).InDoc?
    requires Members(|levels|, toks, at).Parse?
    ensures var p := Members(|levels|, toks, at);
      ScanLevel(levels, toks, at) == Prepend(p.calls, true, ScanLevel(levels, toks, p.end))
    decreases toks, |toks| - at, 2
  {
    if TokenOf(toks[at].s) in {CloseBrace, End} {
      PrependNothing(ScanLevel(levels, toks, at));
    } else {
      var v := ValueOf(toks[at].s, |levels|, toks, at + 1);
      ScanValueOf(toks[at].s, levels, toks, at + 1);
      ScanMembers(levels, toks, v.end);
      var m := Members(|levels|, toks, v.end);
      PrependTwice(v.calls, true, m.calls, true, ScanLevel(levels, toks, m.end));
    }
  }

  lemma {:induction false} ScanItems(levels: seq<Level>, toks: seq<Bcon>, at: nat)
    requires levels != [] && Top(levels).InArr?
    requires Items(|levels|, Top(levels).next, toks, at).Parse?
    ensures var p := Items(|levels|, Top(levels).next, toks, at);
      ScanLevel(levels, toks, at) == Prepend(p.calls, true, ScanLevel(Pop(levels) + [InArr(p.next)], toks, p.end))
    decreases toks, |toks| - at, 2
  {
    var i := Top(levels).next;
    if TokenOf(toks[at].s) in {CloseBracket, End} {
      assert Pop(levels) + [InArr(i)] == levels;
      PrependNothing(ScanLevel(levels, toks, at));
    } else {
      var v := ValueOf(Decimal(i), |levels|, toks, at);
      ScanValueOf(Decimal(i), Bump(levels), toks, at);
      ScanItems(Bump(levels), toks, v.end);
      var m := Items(|levels|, i + 1, toks, v.end);
      PrependTwice(v.calls, true, m.calls, true, ScanLevel(Pop(levels) + [InArr(m.next)], toks, m.end));
    }
  }

  lemma {:induction false} ScanValueOf(key: string, levels: seq<Level>, toks: seq<Bcon>, at: nat)
    requires levels != [] && ValueOf(key, |levels|, toks, at).Parse?
    ensures var p := ValueOf(key, |levels|, toks, at);
      ScanValue(key, levels, toks, at) == Prepend(p.calls, true, ScanLevel(levels, toks, p.end))
    decreases toks, |toks| - at, 1
  {
    match TokenOf(toks[at].s) {
      case OpenBrace => ScanBraced(key, levels, toks, at);
      case OpenBracket => ScanBracketed(key, levels, toks, at);
      case Typespec => ScanTypedValue(key, levels, toks, at);
      case _ =>
    }
  }

  lemma {:induction false} ScanBraced(key: string, levels: seq<Level>, toks: seq<Bcon>, at: nat)
    requires levels != [] && ValueOf(key, |levels|, toks, at).Parse? && IsToken(toks[at], OpenBrace)
    ensures var p := ValueOf(key, |levels|, toks, at);
      ScanValue(key, levels, toks, at) == Prepend(p.calls, true, ScanLevel(levels, toks, p.end))
    decreases toks, |toks| - at, 0
  {
    var m := Members(|levels| + 1, toks, at + 1);
    ScanMembers(levels + [InDoc], toks, at + 1);
    ScanClose(key, false, levels, InDoc, m.calls, toks, m.end);
  }

  lemma {:induction false} ScanBracketed(key: string, levels: seq<Level>, toks: seq<Bcon>, at: nat)
    requires levels != [] && ValueOf(key, |levels|, toks, at).Parse? && IsToken(toks[at], OpenBracket)
    ensures var p := ValueOf(key, |levels|, toks, at);
      ScanValue(key, levels, toks, at) == Prepend(p.calls, true, ScanLevel(levels, toks, p.end))
    decreases toks, |toks| - at, 0
  {
    var m := Items(|levels| + 1, 0, toks, at + 1);
    ScanItems(levels + [InArr(0)], toks, at + 1);
    assert Pop(levels + [InArr(0)]) == levels;
    ScanClose(key, true, levels, InArr(m.next), m.calls, toks, m.end);
  }

  lemma {:induction false} ScanTypedValue(key: string, levels: seq<Level>, toks: seq<Bcon>, at: nat)
    requires levels != [] && ValueOf(key, |levels|, toks, at).Parse? && IsToken(toks[at], Typespec)
    ensures ScanTyped(key, toks[at].s, levels, toks, at + 1)
         == Prepend(ValueOf(key, |levels|, toks, at).calls, true, ScanLevel(levels, toks, at + 2))
    ensures ValueOf(key, |levels|, toks, at).end == at + 2
    decreases toks, |toks| - at, 0
  {
    match toks[at + 1] {
      case D(doc) => BalancedListScan(false, doc);
      case A(arr) => BalancedListScan(true, arr);
      case _ => PrependNothing(ScanLevel(levels, toks, at + 2));
    }
  }

  lemma ScanClose(key: string, isArray: bool, levels: seq<Level>, level: Level, calls: seq<Call>, toks: seq<Bcon>, at: nat)
    requires levels != [] && at < |toks| && level.InArr? == isArray
    requires IsToken(toks[at], if isArray then CloseBracket else CloseBrace)
    ensures Prepend([Start(key, isArray)], true, Prepend(calls, true, ScanLevel(levels + [level], toks, at)))
         == Prepend(Around(key, isArray, calls), true, ScanLevel(levels, toks, at + 1))
  {
    assert Pop(levels + [level]) == levels;
    var r := ScanLevel(levels, toks, at + 1);
    PrependTwice(calls, true, [Finish(isArray)], true, r);
    PrependTwice([Start(key, isArray)], true, calls + [Finish(isArray)], true, r);
    assert [Start(key, isArray)] + (calls + [Finish(isArray)]) == Around(key, isArray, calls);
  }

  lemma {:induction false} BalancedListScan(isArray: bool, toks: seq<Bcon>)
    requires Translate(isArray, toks).Parse?
    ensures var r := ScanLevel([Base(isArray)], toks, 0);
      IsClean(r) && r.calls == Translate(isArray, toks).calls && r.open[0].InDoc? == !isArray
    decreases toks, |toks|, 3
  {
    if isArray {
      ScanItems([InArr(0)], toks, 0);
    } else {
      ScanMembers([InDoc], toks, 0);
    }
  }

  // ----------------------------------------------------------------- and conversely

  lemma {:induction false} CleanLevel(levels: seq<Level>, toks: seq<Bcon>, at: nat)
    requires levels != [] && IsClean(ScanLevel(levels, toks, at))
    ensures Top(levels).InDoc? ==>
      var p := Members(|levels|, toks, at);
      p.Parse? && if |levels| == 1 then IsToken(toks[p.end], End)
                  else IsToken(toks[p.end], CloseBrace) && IsClean(ScanLevel(Pop(levels), toks, p.end + 1))
    ensures Top(levels).InArr? ==>
      var p := Items(|levels|, Top(levels).next, toks, at);
      p.Parse? && if |levels| == 1 then IsToken(toks[p.end], End)
                  else IsToken(toks[p.end], CloseBracket) && IsClean(ScanLevel(Pop(levels), toks, p.end + 1))
    decreases toks, |toks| - at, 3
  {
    if Top(levels).InDoc? {
      CleanMembers(levels, toks, at);
    } else {
      CleanItems(levels, toks, at);
    }
  }

  lemma {:induction false} CleanMembers(levels: seq<Level>, toks: seq<Bcon>, at: nat)
    requires levels != [] && IsClean(ScanLevel(levels, toks, at)) && Top(levels).InDoc?
    ensures var p := Members(|levels|, toks, at);
      p.Parse? && if |levels| == 1 then IsToken(toks[p.end], End)
                  else IsToken(toks[p.end], CloseBrace) && IsClean(ScanLevel(Pop(levels), toks, p.end + 1))
    decreases toks, |toks| - at, 2
  {
    hide ScanValue, ScanTyped, ValueOf, Items;
    if TokenOf(toks[at].s) !in {CloseBrace, End} {
      CleanValue(toks[at].s, levels, toks, at + 1);
      ScanValueOf(toks[at].s, levels, toks, at + 1);
      CleanLevel(levels, toks, ValueOf(toks[at].s, |levels|, toks, at + 1).end);
    }
  }

  lemma {:induction false} CleanItems(levels: seq<Level>, toks: seq<Bcon>, at: nat)
    requires levels != [] && IsClean(ScanLevel(levels, toks, at)) && Top(levels).InArr?
    ensures var p := Items(|levels|, Top(levels).next, toks, at);
      p.Parse? && if |levels| == 1 then IsToken(toks[p.end], End)
                  else IsToken(toks[p.end], CloseBracket) && IsClean(ScanLevel(Pop(levels), toks, p.end + 1))
    decreases toks, |toks| - at, 2
  {
    hide ScanValue, ScanTyped, ValueOf, Members;
    if TokenOf(toks[at].s) !in {CloseBracket, End} {
      var key := Decimal(Top(levels).next);
      CleanValue(key, Bump(levels), toks, at);
      ScanValueOf(key, Bump(levels), toks, at);
      CleanLevel(Bump(levels), toks, ValueOf(key, |levels|, toks, at).end);
    }
  }

  lemma {:induction false} CleanValue(key: string, levels: seq<Level>, toks: seq<Bcon>, at: nat)
    requires levels != [] && IsClean(ScanValue(key, levels, toks, at))
    ensures ValueOf(key, |levels|, toks, at).Parse?
    decreases toks, |toks| - at, 1
  {
    match TokenOf(toks[at].s) {
      case OpenBrace => CleanLevel(levels + [InDoc], toks, at + 1);
      case OpenBracket => CleanLevel(levels + [InArr(0)], toks, at + 1);
      case Typespec => CleanTyped(key, toks[at].s, levels, toks, at + 1);
      case _ =>
    }
  }

  lemma {:induction false} CleanTyped(key: string, typespec: string, levels: seq<Level>, toks: seq<Bcon>, at: nat)
    requires levels != [] && TokenOf(typespec) == Typespec && IsClean(ScanTyped(key, typespec, levels, toks, at))
    ensures at < |toks| && Fits(typespec, toks[at])
    ensures toks[at].D? ==> Translate(false, toks[at].doc).Parse?
    ensures toks[at].A? ==> Translate(true, toks[at].arr).Parse?
    decreases toks, |toks| - at, 0
  {
    match toks[at] {
      case D(doc) => CleanList(false, doc);
      case A(arr) => CleanList(true, arr);
      case _ =>
    }
  }

  lemma {:induction false} CleanList(isArray: bool, toks: seq<Bcon>)
    requires IsClean(ScanLevel([Base(isArray)], toks, 0))
    ensures Translate(isArray, toks).Parse?
    decreases toks, |toks|, 4
  {
    CleanLevel([Base(isArray)], toks, 0);
  }

  /** The machine ends cleanly on exactly the balanced lists, and there it makes exactly the
      calls of the recursive translation, with nothing left open. */
  lemma MachineRefinesTranslation(isArray: bool, toks: seq<Bcon>)
    ensures var r, p := ScanLevel([Base(isArray)], toks, 0), Translate(isArray, toks);
      && (IsClean(r) <==> p.Parse?)
      && (p.Parse? ==> r.calls == p.calls && |r.open| == 1 && ReportsOk(Base(isArray), r))
  {
    if Translate(isArray, toks).Parse? {
      BalancedListScan(isArray, toks);
    } else if IsClean(ScanLevel([Base(isArray)], toks, 0)) {
      CleanList(isArray, toks);
    }
  }

  // -------------------------------------------------------- when the verdict is right

  /** A list interpolated here is balanced. */
  predicate Balanced(v: Bcon) {
    (v.D? ==> Translate(false, v.doc).Parse?) && (v.A? ==> Translate(true, v.arr).Parse?)
  }

  predicate AllBalanced(toks: seq<Bcon>, lo: nat, hi: nat)
    requires hi <= |toks|
  {
    forall i | lo <= i < hi :: Balanced(toks[i])
  }

  lemma OneMore(toks: seq<Bcon>, at: nat, hi: nat)
    requires at < hi <= |toks|
    ensures AllBalanced(toks, at, hi) <==> Balanced(toks[at]) && AllBalanced(toks, at + 1, hi)
    ensures toks[at].S? ==> Balanced(toks[at])
    ensures AllBalanced(toks, hi, hi)
  {
    hide Translate;
  }

  /** The machine has met only balanced interpolated lists when all of those up to where it
      stopped are balanced. */
  lemma {:induction false} WholeLevel(levels: seq<Level>, toks: seq<Bcon>, at: nat)
    requires levels != [] && ScanLevel(levels, toks, at).Ended?
    ensures var r := ScanLevel(levels, toks, at);
      at <= r.last < |toks| && (r.whole <==> AllBalanced(toks, at, r.last + 1))
    decreases |toks| - at, 2
  {
    hide ScanValue, ScanTyped, AllBalanced, Balanced;
    var t := TokenOf(toks[at].s);
    if t == End {
      OneMore(toks, at, at + 1);
    } else if t == (if Top(levels).InDoc? then CloseBrace else CloseBracket) {
      WholeLevel(Pop(levels), toks, at + 1);
      OneMore(toks, at, ScanLevel(levels, toks, at).last + 1);
    } else if Top(levels).InDoc? {
      WholeValue(toks[at].s, levels, toks, at + 1);
      OneMore(toks, at, ScanLevel(levels, toks, at).last + 1);
    } else {
      WholeValue(Decimal(Top(levels).next), Bump(levels), toks, at);
    }
  }

  lemma {:induction false} WholeValue(key: string, levels: seq<Level>, toks: seq<Bcon>, at: nat)
    requires levels != [] && ScanValue(key, levels, toks, at).Ended?
    ensures var r := ScanValue(key, levels, toks, at);
      at <= r.last < |toks| && (r.whole <==> AllBalanced(toks, at, r.last + 1))
    decreases |toks| - at, 1
  {
    hide ScanLevel, ScanTyped, AllBalanced, Balanced;
    match TokenOf(toks[at].s) {
      case Typespec => WholeTyped(key, toks[at].s, levels, toks, at + 1);
      case OpenBrace => WholeLevel(levels + [InDoc], toks, at + 1);
      case OpenBracket => WholeLevel(levels + [InArr(0)], toks, at + 1);
      case End =>
      case _ => WholeLevel(levels, toks, at + 1);
    }
    OneMore(toks, at, ScanValue(key, levels, toks, at).last + 1);
  }

  lemma {:induction false} WholeTyped(key: string, typespec: string, levels: seq<Level>, toks: seq<Bcon>, at: nat)
    requires levels != [] && TokenOf(typespec) == Typespec && ScanTyped(key, typespec, levels, toks, at).Ended?
    ensures var r := ScanTyped(key, typespec, levels, toks, at);
      at <= r.last < |toks| && (r.whole <==> AllBalanced(toks, at, r.last + 1))
    decreases |toks| - at, 0
  {
    hide ScanLevel, ScanValue, AllBalanced, Translate, IsClean;
    match toks[at] {
      case D(doc) => MachineRefinesTranslation(false, doc);
      case A(arr) => MachineRefinesTranslation(true, arr);
      case _ =>
    }
    if ScanLevel(levels, toks, at + 1).Ended? {
      WholeLevel(levels, toks, at + 1);
    }
    OneMore(toks, at, ScanTyped(key, typespec, levels, toks, at).last + 1);
  }

  /** A list is balanced exactly when the machine does not stop between a key and its value,
      nothing is left open, and every list interpolated up to there is balanced. The verdict
      looks at none of this but the first and the kind of the innermost open level: it is
      wrong exactly when a level of the same kind as the whole list is left open, or an
      interpolated list is not balanced. */
  lemma WhenSuccessIsRight(isArray: bool, toks: seq<Bcon>)
    requires ScanLevel([Base(isArray)], toks, 0).Ended?
    ensures var r, p := ScanLevel([Base(isArray)], toks, 0), Translate(isArray, toks);
      && r.last < |toks|
      && (p.Parse? <==> !r.mid && |r.open| == 1 && AllBalanced(toks, 0, r.last + 1))
      && (ReportsOk(Base(isArray), r) && p.Unbalanced? <==>
            && !r.mid && Top(r.open).InArr? == isArray
            && (|r.open| > 1 || !AllBalanced(toks, 0, r.last + 1)))
  {
    MachineRefinesTranslation(isArray, toks);
    WholeLevel([Base(isArray)], toks, 0);
  }

  /** Success is reported although a document is left open. */
  lemma SuccessWithoutBalance()
    ensures var toks := [S("a"), S("{"), S(".")];
      var r := ScanLevel([InDoc], toks, 0);
      r.Ended? && ReportsOk(InDoc, r) && |r.open| == 2 && Translate(false, toks).Unbalanced?
  {
    var toks := [S("a"), S("{"), S(".")];
    assert TokenOf("a") == Default && TokenOf("{") == OpenBrace && TokenOf(".") == End;
    assert ScanLevel([InDoc, InDoc], toks, 2) == Ended([], [InDoc, InDoc], false, true, 2);
    assert [InDoc] + [InDoc] == [InDoc, InDoc];
    MachineRefinesTranslation(false, toks);
  }

  /** Success is reported although an interpolated list ends behind a key, and the entries
      that follow it are dropped. */
  lemma SuccessWithoutTheRest()
    ensures var toks := [S("a"), S(":_D:"), D([S("b"), S(".")]), S("c"), S("d"), S(".")];
      var r := ScanLevel([InDoc], toks, 0);
      && r.Ended? && ReportsOk(InDoc, r) && |r.open| == 1 && r.last == 2
      && r.calls == Around("a", false, [])
      && Translate(false, toks).Unbalanced?
  {
    var inner := [S("b"), S(".")];
    var toks := [S("a"), S(":_D:"), D(inner), S("c"), S("d"), S(".")];
    assert TokenOf("a") == TokenOf("b") == TokenOf("c") == TokenOf("d") == Default;
    assert TokenOf(":_D:") == Typespec && TokenOf(".") == End;
    assert ScanLevel([InDoc], inner, 0) == ScanValue("b", [InDoc], inner, 1) == Ended([], [InDoc], true, true, 1);
    assert ScanLevel([InDoc], toks, 5) == Ended([], [InDoc], false, true, 5);
    var tail := ScanLevel([InDoc], toks, 3);
    assert tail == ScanValue("c", [InDoc], toks, 4);
    assert tail.Ended?;
    assert ScanTyped("a", ":_D:", [InDoc], toks, 2) == Ended(Around("a", false, []), [InDoc], false, false, 2);
    assert ScanLevel([InDoc], toks, 0) == ScanValue("a", [InDoc], toks, 1) == ScanTyped("a", ":_D:", [InDoc], toks, 2);
    MachineRefinesTranslation(false, toks);
  }

  // -------------------------------------------------------------------- the machine

  datatype State = Element | DocSpecValue | DocValue | ArraySpecValue | ArrayValue

  function KindOf(l: Level): State { if l.InDoc? then Element else ArraySpecValue }

  /** What doc_stack holds when these levels are open around the current one. */
  function ReturnStates(levels: seq<Level>): seq<State> {
    seq(|levels|, k requires 0 <= k < |levels| => KindOf(levels[k]))
  }

  /** The indices of the open arrays, outermost first. */
  function Indices(levels: seq<Level>): (r: seq<nat>)
    ensures |r| <= |levels|
  {
    if levels == [] then []
    else Indices(Pop(levels)) + if Top(levels).InArr? then [Top(levels).next] else []
  }

  /** The stacks of the machine with the macros that work on them. */
  class Stacks {
    var state: State
    const docStack: array<State>
    var docTop: nat
    var arrayIndex: nat
    const indexStack: array<nat>
    var indexTop: nat

    /** The levels the two stacks and the current state and index stand for. */
    ghost var levels: seq<Level>
    const isArray: bool

    ghost predicate Valid()
      reads this, docStack, indexStack
    {
      && docStack.Length == indexStack.Length == STACK_SIZE
      && docStack as object != indexStack as object
      && levels != [] && levels[0].InArr? == isArray
      && docTop == |levels| - 1 <= STACK_SIZE
      && docStack[..docTop] == ReturnStates(Pop(levels))
      && indexTop <= STACK_SIZE
      && indexStack[..indexTop] + [arrayIndex] == (if isArray then [] else [0]) + Indices(levels)
    }

    constructor (isArray: bool)
      ensures Valid() && state == KindOf(Base(isArray)) && levels == [Base(isArray)]
      ensures this.isArray == isArray && fresh(docStack) && fresh(indexStack)
    {
      this.isArray := isArray;
      state := if isArray then ArraySpecValue else Element;
      docStack := new State[STACK_SIZE](_ => Element);
      indexStack := new nat[STACK_SIZE](_ => 0);
      docTop, indexTop, arrayIndex := 0, 0, 0;
      levels := [Base(isArray)];
    }

    lemma IndexOfTop()
      requires Valid()
      ensures Top(levels).InArr? ==>
                && arrayIndex == Top(levels).next
                && indexStack[..indexTop] == (if isArray then [] else [0]) + Indices(Pop(levels))
      ensures Top(levels).InDoc? ==>
                indexStack[..indexTop] + [arrayIndex] == (if isArray then [] else [0]) + Indices(Pop(levels))
    {
      var all := (if isArray then [] else [0]) + Indices(levels);
      if Top(levels).InArr? {
        assert all == ((if isArray then [] else [0]) + Indices(Pop(levels))) + [Top(levels).next];
        assert all[..|all| - 1] == indexStack[..indexTop];
      }
    }

    /** DOC_PUSH_STATE, on opening a document */
    method PushDoc(returnState: State)
      requires Valid() && docTop < STACK_SIZE && returnState == KindOf(Top(levels))
      modifies this`docTop, this`levels, this`state, docStack
      ensures Valid() && levels == old(levels) + [InDoc] && state == Element
    {
      docStack[docTop] := returnState;
      docTop := docTop + 1;
      levels := levels + [InDoc];
      assert Pop(levels) == old(levels);
      assert ReturnStates(old(levels)) == ReturnStates(Pop(old(levels))) + [returnState];
      state := Element;
    }

    /** ARRAY_PUSH_RESET_INDEX_STATE, on opening an array */
    method PushArray(returnState: State)
      requires Valid() && docTop < STACK_SIZE && returnState == KindOf(Top(levels))
      modifies this`docTop, this`levels, this`state, this`indexTop, this`arrayIndex, docStack, indexStack
      ensures Valid() && levels == old(levels) + [InArr(0)] && state == ArraySpecValue
    {
      FirstIndex(levels);
      ghost var indices := indexStack[..indexTop] + [arrayIndex];
      indexStack[indexTop] := arrayIndex;
      indexTop := indexTop + 1;
      assert indexStack[..indexTop] == indices;
      arrayIndex := 0;
      docStack[docTop] := returnState;
      docTop := docTop + 1;
      levels := levels + [InArr(0)];
      assert Pop(levels) == old(levels);
      assert ReturnStates(old(levels)) == ReturnStates(Pop(old(levels))) + [returnState];
      state := ArraySpecValue;
    }

    /** DOC_POP_STATE, on closing a document */
    method PopDoc()
      requires Valid() && |levels| > 1 && Top(levels).InDoc?
      modifies this`docTop, this`levels, this`state
      ensures Valid() && levels == Pop(old(levels)) && state == KindOf(Top(levels))
    {
      IndexOfTop();
      docTop := docTop - 1;
      state := docStack[docTop];
      levels := Pop(levels);
      assert docStack[..docTop] == docStack[..docTop + 1][..docTop];
    }

    /** ARRAY_POP_INDEX_STATE, on closing an array */
    method PopArray()
      requires Valid() && |levels| > 1 && Top(levels).InArr?
      modifies this`docTop, this`levels, this`state, this`indexTop, this`arrayIndex
      ensures Valid() && levels == Pop(old(levels)) && state == KindOf(Top(levels))
    {
      IndexOfTop();
      FirstIndex(Pop(levels));
      indexTop := indexTop - 1;
      arrayIndex := indexStack[indexTop];
      docTop := docTop - 1;
      state := docStack[docTop];
      levels := Pop(levels);
      assert docStack[..docTop] == docStack[..docTop + 1][..docTop];
      assert indexStack[..indexTop] + [arrayIndex] == indexStack[..indexTop + 1];
    }

    /** An array at the bottom always has an index. */
    lemma {:induction false} FirstIndex(l: seq<Level>)
      requires l != [] && l[0].InArr? == isArray
      ensures isArray ==> Indices(l) != []
      ensures !isArray ==> |Indices(l)| < |l|
      decreases |l|
    {
      if |l| > 1 {
        FirstIndex(Pop(l));
      }
    }

    /** With one level left both stacks are empty. */
    lemma BothEmpty()
      requires Valid() && docTop == 0
      ensures indexTop == 0
    {
      assert Pop(levels) == [];
      var all := (if isArray then [] else [0]) + Indices(levels);
      assert |all| == 1;
    }

    /** ARRAY_KEY_STRING(array_index++) */
    method NextKey() returns (key: string)
      requires Valid() && Top(levels).InArr?
      modifies this`arrayIndex, this`levels
      ensures key == Decimal(Top(old(levels)).next)
      ensures Valid() && levels == Bump(old(levels))
    {
      IndexOfTop();
      key := Decimal(arrayIndex);
      arrayIndex := arrayIndex + 1;
      levels := Bump(levels);
      assert Indices(levels) == Indices(Pop(levels)) + [arrayIndex];
    }
  }

  /** What the rest of the list amounts to in each state. */
  function Rest(state: State, key: string, typespec: string, levels: seq<Level>, toks: seq<Bcon>, at: nat): Scan
    requires levels != []
    requires state in {DocValue, ArrayValue} ==> TokenOf(typespec) == Typespec
    requires state == ArrayValue ==> Top(levels).InArr?
  {
    match state
    case Element => ScanLevel(levels, toks, at)
    case ArraySpecValue => ScanLevel(levels, toks, at)
    case DocSpecValue => ScanValue(key, levels, toks, at)
    case DocValue => ScanTyped(key, typespec, levels, toks, at)
    case ArrayValue => ScanTyped(Decimal(Top(levels).next), typespec, Bump(levels), toks, at)
  }

  /** bson_bcon_key_value: the calls for one value, and the verdict on an interpolated list */
  method KeyValue(key: string, v: Bcon) returns (calls: seq<Call>, ok: bool)
    requires v.D? ==> ScanLevel([InDoc], v.doc, 0).Ended?
    requires v.A? ==> ScanLevel([InArr(0)], v.arr, 0).Ended?
    ensures v.D? ==>
      var r := ScanLevel([InDoc], v.doc, 0);
      calls == Around(key, false, r.calls) && ok == ReportsOk(InDoc, r)
    ensures v.A? ==>
      var r := ScanLevel([InArr(0)], v.arr, 0);
      calls == Around(key, true, r.calls) && ok == ReportsOk(InArr(0), r)
    ensures !v.D? && !v.A? ==> ok && calls == if v.Nil? then [] else [Put(key, v)]
    decreases v, 0
  {
    ok := true;
    match v {
      case D(doc) =>
        var inner, docLeft, indexLeft := AppendBcon(doc, false);
        calls, ok := [Start(key, false)] + inner.0 + [Finish(false)], inner.1;
      case A(arr) =>
        var inner, docLeft, indexLeft := AppendBcon(arr, true);
        calls, ok := [Start(key, true)] + inner.0 + [Finish(true)], inner.1;
      case Nil => calls := [];
      case _ => calls := [Put(key, v)];
    }
  }

  /** State, levels and type specifier belong together. */
  ghost predicate Consistent(m: Stacks, typespec: string)
    reads m
  {
    && m.levels != []
    && (m.state in {Element, DocSpecValue, DocValue} <==> Top(m.levels).InDoc?)
    && (m.state in {DocValue, ArrayValue} ==> TokenOf(typespec) == Typespec)
  }

  /** One round of the loop, at token `at` of a list whose rest amounted to `r`. */
  ghost predicate Stepped(m: Stacks, key: string, typespec: string, emitted: seq<Call>, whole: bool,
                          endOfData: bool, ok: bool, toks: seq<Bcon>, at: nat, r: Scan)
    reads m, m.docStack, m.indexStack
  {
    && m.Valid() && !(endOfData && !ok) && at < |toks|
    && (endOfData ==>
          && r == Ended(emitted, m.levels, m.state == DocSpecValue, whole, at)
          && m.state in {DocSpecValue, KindOf(Top(m.levels))})
    && (!ok ==> r == Ended(emitted, m.levels, false, whole, at) && m.state == KindOf(Top(m.levels)))
    && (ok && !endOfData ==>
          && Consistent(m, typespec)
          && r == Prepend(emitted, whole, Rest(m.state, key, typespec, m.levels, toks, at + 1)))
  }

  method StepElement(m: Stacks, key0: string, typespec: string, toks: seq<Bcon>, at: nat)
    returns (key: string, emitted: seq<Call>, ghost whole: bool, endOfData: bool)
    requires m.Valid() && m.state == Element && Top(m.levels).InDoc?
    requires ScanLevel(m.levels, toks, at).Ended?
    modifies m
    ensures Stepped(m, key, typespec, emitted, whole, endOfData, true, toks, at, old(ScanLevel(m.levels, toks, at)))
  {
    key, emitted, whole, endOfData := key0, [], true, false;
    match TokenOf(toks[at].s) {
      case CloseBrace =>
        emitted := [Finish(false)];
        m.PopDoc();
      case End =>
        endOfData := true;
      case _ =>
        key := toks[at].s;
        m.state := DocSpecValue;
        PrependNothing(ScanValue(key, m.levels, toks, at + 1));
    }
  }

  method StepDocSpecValue(m: Stacks, key: string, typespec0: string, toks: seq<Bcon>, at: nat)
    returns (typespec: string, emitted: seq<Call>, ghost whole: bool, endOfData: bool)
    requires m.Valid() && m.state == DocSpecValue && Top(m.levels).InDoc?
    requires ScanValue(key, m.levels, toks, at).Ended?
    modifies m, m.docStack, m.indexStack
    ensures Stepped(m, key, typespec, emitted, whole, endOfData, true, toks, at, old(ScanValue(key, m.levels, toks, at)))
  {
    typespec, emitted, whole, endOfData := typespec0, [], true, false;
    match TokenOf(toks[at].s) {
      case Typespec =>
        typespec := toks[at].s;
        m.state := DocValue;
        PrependNothing(ScanTyped(key, typespec, m.levels, toks, at + 1));
      case OpenBrace =>
        emitted := [Start(key, false)];
        m.PushDoc(Element);
      case OpenBracket =>
        emitted := [Start(key, true)];
        m.PushArray(Element);
      case End =>
        endOfData := true;
      case _ =>
        emitted := [Put(key, toks[at])];
        m.state := Element;
    }
  }

  /** The scan at the start of an array element, token by token. */
  lemma ElementScan(levels: seq<Level>, toks: seq<Bcon>, at: nat)
    requires levels != [] && Top(levels).InArr? && ScanLevel(levels, toks, at).Ended?
    ensures at < |toks| && toks[at].S?
    ensures var key := Decimal(Top(levels).next);
      var r := ScanLevel(levels, toks, at);
      var t := TokenOf(toks[at].s);
      && (t == Typespec ==> r == Prepend([], true, ScanTyped(key, toks[at].s, Bump(levels), toks, at + 1)))
      && (t == OpenBrace ==>
            && |levels| <= STACK_SIZE
            && r == Prepend([Start(key, false)], true, ScanLevel(Bump(levels) + [InDoc], toks, at + 1)))
      && (t == OpenBracket ==>
            && |levels| <= STACK_SIZE
            && r == Prepend([Start(key, true)], true, ScanLevel(Bump(levels) + [InArr(0)], toks, at + 1)))
      && (t == CloseBracket ==>
            |levels| > 1 && r == Prepend([Finish(true)], true, ScanLevel(Pop(levels), toks, at + 1)))
      && (t == End ==> r == Ended([], levels, false, true, at))
      && (t in {Default, CloseBrace} ==> r == Prepend([Put(key, toks[at])], true, ScanLevel(Bump(levels), toks, at + 1)))
  {
    PrependNothing(ScanLevel(levels, toks, at));
  }

  /** An array element that is a document or an array itself is opened. */
  method OpenElement(m: Stacks, isArray: bool) returns (key: string, emitted: seq<Call>)
    requires m.Valid() && Top(m.levels).InArr? && m.docTop < STACK_SIZE
    modifies m, m.docStack, m.indexStack
    ensures m.Valid() && m.levels == Bump(old(m.levels)) + [Base(isArray)] && m.state == KindOf(Base(isArray))
    ensures key == Decimal(Top(old(m.levels)).next) && emitted == [Start(key, isArray)]
  {
    hide Indices, ReturnStates;
    key := m.NextKey();
    emitted := [Start(key, isArray)];
    if isArray {
      m.PushArray(ArraySpecValue);
    } else {
      m.PushDoc(ArraySpecValue);
    }
  }

  /** The part of the state that expects an element in which there is one. */
  method StepItem(m: Stacks, key0: string, typespec0: string, toks: seq<Bcon>, at: nat)
    returns (key: string, typespec: string, emitted: seq<Call>)
    requires m.Valid() && m.state == ArraySpecValue && Top(m.levels).InArr?
    requires ScanLevel(m.levels, toks, at).Ended? && TokenOf(toks[at].s) !in {CloseBracket, End}
    modifies m, m.docStack, m.indexStack
    ensures Stepped(m, key, typespec, emitted, true, false, true, toks, at, old(ScanLevel(m.levels, toks, at)))
  {
    hide ScanLevel, ScanValue, ScanTyped, TokenOf, Indices, ReturnStates;
    ElementScan(m.levels, toks, at);
    ghost var r := ScanLevel(m.levels, toks, at);
    key, typespec, emitted := key0, typespec0, [];
    var token := TokenOf(toks[at].s);
    if token == Typespec {
      typespec := toks[at].s;
      m.state := ArrayValue;
    } else if token == OpenBrace || token == OpenBracket {
      key, emitted := OpenElement(m, token == OpenBracket);
    } else {
      key := m.NextKey();
      emitted := [Put(key, toks[at])];
    }
    assert r == Prepend(emitted, true, Rest(m.state, key, typespec, m.levels, toks, at + 1));
  }

  method StepArraySpecValue(m: Stacks, key0: string, typespec0: string, toks: seq<Bcon>, at: nat)
    returns (key: string, typespec: string, emitted: seq<Call>, ghost whole: bool, endOfData: bool)
    requires m.Valid() && m.state == ArraySpecValue && Top(m.levels).InArr?
    requires ScanLevel(m.levels, toks, at).Ended?
    modifies m, m.docStack, m.indexStack
    ensures Stepped(m, key, typespec, emitted, whole, endOfData, true, toks, at, old(ScanLevel(m.levels, toks, at)))
  {
    hide ScanLevel, ScanValue, ScanTyped, TokenOf, Indices, ReturnStates;
    ElementScan(m.levels, toks, at);
    key, typespec, emitted, whole, endOfData := key0, typespec0, [], true, false;
    match TokenOf(toks[at].s) {
      case CloseBracket =>
        emitted := [Finish(true)];
        m.PopArray();
      case End =>
        endOfData := true;
      case _ => key, typespec, emitted := StepItem(m, key, typespec, toks, at);
    }
  }

  /** What KeyValue returns for the announced value, in terms of the scan. */
  lemma TypedScan(key: string, typespec: string, levels: seq<Level>, toks: seq<Bcon>, at: nat)
    returns (whole: bool)
    requires levels != [] && TokenOf(typespec) == Typespec
    requires ScanTyped(key, typespec, levels, toks, at).Ended?
    ensures at < |toks|
    ensures toks[at].D? ==> ScanLevel([InDoc], toks[at].doc, 0).Ended?
    ensures toks[at].A? ==> ScanLevel([InArr(0)], toks[at].arr, 0).Ended?
    ensures toks[at].D? ==>
      var inner := ScanLevel([InDoc], toks[at].doc, 0);
      ScanTyped(key, typespec, levels, toks, at) ==
        if ReportsOk(InDoc, inner) then Prepend(Around(key, false, inner.calls), whole, ScanLevel(levels, toks, at + 1))
        else Ended(Around(key, false, inner.calls), levels, false, whole, at)
    ensures toks[at].A? ==>
      var inner := ScanLevel([InArr(0)], toks[at].arr, 0);
      ScanTyped(key, typespec, levels, toks, at) ==
        if ReportsOk(InArr(0), inner) then Prepend(Around(key, true, inner.calls), whole, ScanLevel(levels, toks, at + 1))
        else Ended(Around(key, true, inner.calls), levels, false, whole, at)
    ensures !toks[at].D? && !toks[at].A? ==>
      ScanTyped(key, typespec, levels, toks, at) ==
        Prepend(if toks[at].Nil? then [] else [Put(key, toks[at])], whole, ScanLevel(levels, toks, at + 1))
  {
    whole := true;
    match toks[at] {
      case D(doc) =>
        var inner := ScanLevel([InDoc], doc, 0);
        whole := ReportsOk(InDoc, inner) && IsClean(inner);
      case A(arr) =>
        var inner := ScanLevel([InArr(0)], arr, 0);
        whole := ReportsOk(InArr(0), inner) && IsClean(inner);
      case _ => PrependNothing(ScanLevel(levels, toks, at + 1));
    }
  }

  /** The two states in which any token is taken as the announced value. */
  method StepTypedValue(m: Stacks, key0: string, typespec: string, toks: seq<Bcon>, at: nat)
    returns (key: string, emitted: seq<Call>, ghost whole: bool, ok: bool)
    requires m.Valid() && m.state in {DocValue, ArrayValue} && Consistent(m, typespec)
    requires Rest(m.state, key0, typespec, m.levels, toks, at).Ended?
    modifies m
    ensures Stepped(m, key, "", emitted, whole, false, ok, toks, at, old(Rest(m.state, key0, typespec, m.levels, toks, at)))
    decreases toks, 0
  {
    hide ScanLevel, ScanTyped, TokenOf, Indices, ReturnStates, Around, ReportsOk;
    key := key0;
    if m.state == ArrayValue {
      key := m.NextKey();
    }
    whole := TypedScan(key, typespec, m.levels, toks, at);
    emitted, ok := KeyValue(key, toks[at]);
    m.state := if m.state == ArrayValue then ArraySpecValue else Element;
  }

  /** One round of the loop. */
  method Step(m: Stacks, key0: string, typespec0: string, toks: seq<Bcon>, at: nat)
    returns (key: string, typespec: string, emitted: seq<Call>, ghost whole: bool, endOfData: bool, ok: bool)
    requires m.Valid() && Consistent(m, typespec0)
    requires Rest(m.state, key0, typespec0, m.levels, toks, at).Ended?
    modifies m, m.docStack, m.indexStack
    ensures Stepped(m, key, typespec, emitted, whole, endOfData, ok, toks, at,
                    old(Rest(m.state, key0, typespec0, m.levels, toks, at)))
    decreases toks, 1
  {
    hide ScanLevel, ScanValue, ScanTyped, TokenOf, Indices, ReturnStates, Stepped;
    key, typespec, endOfData, ok := key0, typespec0, false, true;
    match m.state {
      case Element => key, emitted, whole, endOfData := StepElement(m, key, typespec, toks, at);
      case DocSpecValue => typespec, emitted, whole, endOfData := StepDocSpecValue(m, key, typespec, toks, at);
      case ArraySpecValue => key, typespec, emitted, whole, endOfData := StepArraySpecValue(m, key, typespec, toks, at);
      case _ =>
        key, emitted, whole, ok := StepTypedValue(m, key, typespec, toks, at);
        typespec := "";
    }
  }

  /** bson_append_bcon_with_state, for the two start states it is used with. It ends with
      `docLeft` levels on doc_stack and `indexLeft` on array_index_stack. */
  method AppendBcon(bc: seq<Bcon>, isArray: bool) returns (result: (seq<Call>, bool), docLeft: nat, indexLeft: nat)
    requires ScanLevel([Base(isArray)], bc, 0).Ended?
    ensures var r := ScanLevel([Base(isArray)], bc, 0);
      && result == (r.calls, ReportsOk(Base(isArray), r))
      && docLeft == |r.open| - 1
      && (docLeft == 0 ==> indexLeft == 0)
    decreases bc, 2
  {
    hide ScanLevel, ScanValue, ScanTyped, TokenOf, Indices, ReturnStates;
    var m := new Stacks(isArray);
    var calls: seq<Call> := [];
    var key, typespec := "", "";
    var at := 0;
    ghost var all, whole := ScanLevel([Base(isArray)], bc, 0), true;
    PrependNothing(all);
    var endOfData, ok := false, true;
    while ok && !endOfData
      invariant fresh(m) && fresh(m.docStack) && fresh(m.indexStack)
      invariant m.Valid() && m.isArray == isArray && !(endOfData && !ok) && at <= |bc|
      invariant ok && !endOfData ==>
                  Consistent(m, typespec) && all == Prepend(calls, whole, Rest(m.state, key, typespec, m.levels, bc, at))
      invariant endOfData || !ok ==> at > 0
      invariant endOfData ==>
                  && all == Ended(calls, m.levels, m.state == DocSpecValue, whole, at - 1)
                  && m.state in {DocSpecValue, KindOf(Top(m.levels))}
      invariant !ok ==> all == Ended(calls, m.levels, false, whole, at - 1) && m.state == KindOf(Top(m.levels))
      decreases |bc| - at, !endOfData, ok
    {
      var emitted: seq<Call>;
      ghost var c;
      key, typespec, emitted, c, endOfData, ok := Step(m, key, typespec, bc, at);
      if ok && !endOfData {
        PrependTwice(calls, whole, emitted, c, Rest(m.state, key, typespec, m.levels, bc, at + 1));
      }
      calls, whole := calls + emitted, whole && c;
      at := at + 1;
    }
    result := (calls, m.state == KindOf(Base(isArray)));
    docLeft, indexLeft := m.docTop, m.indexTop;
    if docLeft == 0 {
      m.BothEmpty();
    }
  }
}

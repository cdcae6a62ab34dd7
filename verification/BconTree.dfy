/** How documents and arrays are written as BCON lists, and what the compiler makes of them. */
module BconTrees {
  import opened Bcon
  import opened Decimals

  /**
    A value as a client writes it: a document or an array in braces or brackets, a plain string,
    a string behind ":__:", a value behind its type specifier, a document or an array as a list
    of its own behind a specifier, or a null pointer behind a pointer specifier. `how` says how
    the value is passed: '_' as itself, 'R' by reference and 'P' by a pointer to one.
   */
  datatype Tree =
    | Document(fields: seq<Field>)
    | Array(items: seq<Tree>)
    | Plain(s: string)
    | Marked(s: string)
    | Typed(how: char, value: Bcon)
    | InnerDocument(how: char, fields: seq<Field>)
    | InnerArray(how: char, items: seq<Tree>)
    | Absent(letter: char)

  datatype Field = Field(key: string, value: Tree)

  predicate IsSpecifier(s: string) {
    |s| == 4 && s[0] == ':' && (s[1] == '_' || s[1] == 'P' || s[1] == 'R') && s[3] == ':'
  }

  /** The letter of the specifier for a value */
  function Letter(v: Bcon): char {
    match v
    case S(_) => 's'
    case F(_) => 'f'
    case O(_) => 'o'
    case B(_) => 'b'
    case T(_) => 't'
    case V => 'v'
    case X(_) => 'x'
    case I(_) => 'i'
    case L(_) => 'l'
    case D(_) => 'D'
    case A(_) => 'A'
    case Nil => '?'
  }

  function Specifier(how: char, letter: char): string { [':', how, letter, ':'] }

  /** The trees that can be written: a plain string is none of the signs and no specifier, a key
      is not a closing brace or a full stop, and documents and arrays are nested at most 1024
      deep. `depth` is the number of levels around the value. */
  predicate Writable(t: Tree, depth: nat, inArray: bool)
    decreases t, 1
  {
    match t
    case Document(fields) => depth <= 1024 && FieldsWritable(fields, depth + 1)
    case Array(items) => depth <= 1024 && ItemsWritable(items, depth + 1)
    case Plain(s) => s != "{" && s != "[" && s != "." && !IsSpecifier(s) && (inArray ==> s != "]")
    case Marked(_) => true
    case Typed(how, v) => how in "_RP" && !v.D? && !v.A? && !v.Nil? && (v.V? ==> how == '_')
    case InnerDocument(how, fields) => how in "_RP" && FieldsWritable(fields, 1)
    case InnerArray(how, items) => how in "_RP" && ItemsWritable(items, 1)
    case Absent(_) => true
  }

  predicate FieldsWritable(fields: seq<Field>, depth: nat)
    decreases fields, 0
  {
    forall k :: 0 <= k < |fields| ==>
      fields[k].key != "}" && fields[k].key != "." && Writable(fields[k].value, depth, false)
  }

  predicate ItemsWritable(items: seq<Tree>, depth: nat)
    decreases items, 0
  {
    forall k :: 0 <= k < |items| ==> Writable(items[k], depth, true)
  }

  /** The entries of the list */
  function Written(t: Tree): (w: seq<Bcon>)
    ensures w != []
    decreases t, 1
  {
    match t
    case Document(fields) => [S("{")] + FieldsWritten(fields) + [S("}")]
    case Array(items) => [S("[")] + ItemsWritten(items) + [S("]")]
    case Plain(s) => [S(s)]
    case Marked(s) => [S(Specifier('_', '_')), S(s)]
    case Typed(how, v) => [S(Specifier(how, Letter(v))), v]
    case InnerDocument(how, fields) => [S(Specifier(how, 'D')), D(FieldsWritten(fields) + [S(".")])]
    case InnerArray(how, items) => [S(Specifier(how, 'A')), A(ItemsWritten(items) + [S(".")])]
    case Absent(letter) => [S(Specifier('P', letter)), Nil]
  }

  function FieldsWritten(fields: seq<Field>): seq<Bcon>
    decreases fields, 0
  {
    if fields == [] then []
    else [S(fields[0].key)] + Written(fields[0].value) + FieldsWritten(fields[1..])
  }

  function ItemsWritten(items: seq<Tree>): seq<Bcon>
    decreases items, 0
  {
    if items == [] then [] else Written(items[0]) + ItemsWritten(items[1..])
  }

  /** The builder calls the tree stands for */
  function CallsOf(key: string, t: Tree): seq<Call>
    decreases t, 1
  {
    match t
    case Document(fields) => [Start(key, false)] + FieldCalls(fields) + [Finish(false)]
    case Array(items) => [Start(key, true)] + ItemCalls(items, 0) + [Finish(true)]
    case Plain(s) => [Put(key, S(s))]
    case Marked(s) => [Put(key, S(s))]
    case Typed(_, v) => [Put(key, v)]
    case InnerDocument(_, fields) => [Start(key, false)] + FieldCalls(fields) + [Finish(false)]
    case InnerArray(_, items) => [Start(key, true)] + ItemCalls(items, 0) + [Finish(true)]
    case Absent(_) => []
  }

  function FieldCalls(fields: seq<Field>): seq<Call>
    decreases fields, 0
  {
    if fields == [] then [] else CallsOf(fields[0].key, fields[0].value) + FieldCalls(fields[1..])
  }

  /** The keys of the elements are their indices, from `i` on. */
  function ItemCalls(items: seq<Tree>, i: nat): seq<Call>
    decreases items, 0
  {
    if items == [] then [] else CallsOf(Decimal(i), items[0]) + ItemCalls(items[1..], i + 1)
  }

  // ------------------------------------------------------------ reading them back

  /** `w` stands in the list at `at`. */
  predicate Stands(toks: seq<Bcon>, at: nat, w: seq<Bcon>) { at + |w| <= |toks| && toks[at..at + |w|] == w }

  lemma StandsSplit(toks: seq<Bcon>, at: nat, a: seq<Bcon>, b: seq<Bcon>)
    requires Stands(toks, at, a + b)
    ensures Stands(toks, at, a) && Stands(toks, at + |a|, b)
  {
    assert toks[at..at + |a|] == (a + b)[..|a|] && toks[at + |a|..at + |a| + |b|] == (a + b)[|a|..];
  }

  lemma StandsOne(toks: seq<Bcon>, at: nat, b: Bcon)
    requires Stands(toks, at, [b])
    ensures at < |toks| && toks[at] == b
  {
    assert toks[at..at + 1][0] == b;
  }

  lemma StandsTwo(toks: seq<Bcon>, at: nat, a: Bcon, b: Bcon)
    requires Stands(toks, at, [a, b])
    ensures at + 1 < |toks| && toks[at] == a && toks[at + 1] == b
  {
    assert toks[at..at + 2][0] == a && toks[at..at + 2][1] == b;
  }

  /** What a value begins with is neither a full stop nor, in an array, a closing bracket. */
  lemma FirstEntry(t: Tree, depth: nat, inArray: bool, toks: seq<Bcon>, at: nat)
    requires Writable(t, depth, inArray) && Stands(toks, at, Written(t))
    ensures at < |toks| && toks[at].S? && toks[at].s != "." && (inArray ==> toks[at].s != "]")
  {
    hide FieldsWritten, ItemsWritten, FieldsWritable, ItemsWritable;
    assert toks[at..at + |Written(t)|][0] == Written(t)[0];
  }

  lemma {:induction false} ReadBraced(key: string, t: Tree, depth: nat, inArray: bool, toks: seq<Bcon>, at: nat)
    requires t.Document? && Writable(t, depth, inArray) && Stands(toks, at, Written(t))
    ensures ValueOf(key, depth, toks, at) == Parse(CallsOf(key, t), at + |Written(t)|, 0)
    decreases t, 0
  {
    hide Members, Items, Translate, FieldsWritten, FieldCalls, FieldsWritable;
    var w := FieldsWritten(t.fields);
    StandsSplit(toks, at, [S("{")] + w, [S("}")]);
    StandsSplit(toks, at, [S("{")], w);
    StandsOne(toks, at, S("{"));
    StandsOne(toks, at + 1 + |w|, S("}"));
    ReadFields(t.fields, depth + 1, toks, at + 1);
  }

  lemma {:induction false} ReadBracketed(key: string, t: Tree, depth: nat, inArray: bool, toks: seq<Bcon>, at: nat)
    requires t.Array? && Writable(t, depth, inArray) && Stands(toks, at, Written(t))
    ensures ValueOf(key, depth, toks, at) == Parse(CallsOf(key, t), at + |Written(t)|, 0)
    decreases t, 0
  {
    hide Members, Items, Translate, ItemsWritten, ItemCalls, ItemsWritable;
    var w := ItemsWritten(t.items);
    StandsSplit(toks, at, [S("[")] + w, [S("]")]);
    StandsSplit(toks, at, [S("[")], w);
    StandsOne(toks, at, S("["));
    StandsOne(toks, at + 1 + |w|, S("]"));
    ReadItems(t.items, 0, depth + 1, toks, at + 1);
  }

  lemma ReadPlain(key: string, t: Tree, depth: nat, inArray: bool, toks: seq<Bcon>, at: nat)
    requires t.Plain? || t.Marked? || t.Typed? || t.Absent?
    requires Writable(t, depth, inArray) && Stands(toks, at, Written(t))
    ensures ValueOf(key, depth, toks, at) == Parse(CallsOf(key, t), at + |Written(t)|, 0)
  {
    hide Members, Items, Translate;
    if t.Plain? {
      StandsOne(toks, at, S(t.s));
    } else if t.Marked? {
      StandsTwo(toks, at, S(Specifier('_', '_')), S(t.s));
    } else if t.Typed? {
      StandsTwo(toks, at, S(Specifier(t.how, Letter(t.value))), t.value);
    } else {
      StandsTwo(toks, at, S(Specifier('P', t.letter)), Nil);
    }
  }

  lemma {:induction false} ReadInner(key: string, t: Tree, depth: nat, inArray: bool, toks: seq<Bcon>, at: nat)
    requires t.InnerDocument? || t.InnerArray?
    requires Writable(t, depth, inArray) && Stands(toks, at, Written(t))
    ensures ValueOf(key, depth, toks, at) == Parse(CallsOf(key, t), at + |Written(t)|, 0)
    decreases t, 0
  {
    hide Members, Items, Translate, FieldsWritten, FieldCalls, FieldsWritable, ItemsWritten, ItemCalls, ItemsWritable;
    if t.InnerDocument? {
      StandsTwo(toks, at, S(Specifier(t.how, 'D')), D(FieldsWritten(t.fields) + [S(".")]));
      ReadDocument(t.fields);
    } else {
      StandsTwo(toks, at, S(Specifier(t.how, 'A')), A(ItemsWritten(t.items) + [S(".")]));
      ReadArray(t.items);
    }
  }

  lemma {:induction false} ReadValue(key: string, t: Tree, depth: nat, inArray: bool, toks: seq<Bcon>, at: nat)
    requires Writable(t, depth, inArray) && Stands(toks, at, Written(t))
    ensures ValueOf(key, depth, toks, at) == Parse(CallsOf(key, t), at + |Written(t)|, 0)
    decreases t, 1
  {
    hide ValueOf, Written, CallsOf, Writable;
    if t.Document? {
      ReadBraced(key, t, depth, inArray, toks, at);
    } else if t.Array? {
      ReadBracketed(key, t, depth, inArray, toks, at);
    } else if t.InnerDocument? || t.InnerArray? {
      ReadInner(key, t, depth, inArray, toks, at);
    } else {
      ReadPlain(key, t, depth, inArray, toks, at);
    }
  }

  lemma NextMember(depth: nat, toks: seq<Bcon>, at: nat)
    requires at < |toks| && toks[at].S? && toks[at].s != "}" && toks[at].s != "."
    ensures
      var v := ValueOf(toks[at].s, depth, toks, at + 1);
      && Members(depth, toks, at).Parse? == (v.Parse? && Members(depth, toks, v.end).Parse?)
      && (Members(depth, toks, at).Parse? ==>
            var m := Members(depth, toks, v.end); Members(depth, toks, at) == Parse(v.calls + m.calls, m.end, 0))
  {
    hide ValueOf;
  }

  lemma NextItem(depth: nat, i: nat, toks: seq<Bcon>, at: nat)
    requires at < |toks| && toks[at].S? && toks[at].s != "]" && toks[at].s != "."
    ensures
      var v := ValueOf(Decimal(i), depth, toks, at);
      && Items(depth, i, toks, at).Parse? == (v.Parse? && Items(depth, i + 1, toks, v.end).Parse?)
      && (Items(depth, i, toks, at).Parse? ==>
            var m := Items(depth, i + 1, toks, v.end); Items(depth, i, toks, at) == Parse(v.calls + m.calls, m.end, m.next))
  {
    hide ValueOf, Decimal;
  }

  lemma StandsThree(toks: seq<Bcon>, at: nat, a: Bcon, b: seq<Bcon>, c: seq<Bcon>)
    requires Stands(toks, at, [a] + b + c)
    ensures at < |toks| && toks[at] == a && Stands(toks, at + 1, b) && Stands(toks, at + 1 + |b|, c)
  {
    StandsSplit(toks, at, [a] + b, c);
    StandsSplit(toks, at, [a], b);
    StandsOne(toks, at, a);
  }

  /** The end of a list of members, and one more of them in front */
  lemma LastMember(depth: nat, toks: seq<Bcon>, at: nat)
    requires at < |toks| && (toks[at] == S("}") || toks[at] == S("."))
    ensures Members(depth, toks, at) == Parse([], at, 0)
  {
  }

  lemma FirstFieldWritable(fields: seq<Field>, depth: nat)
    requires fields != [] && FieldsWritable(fields, depth)
    ensures fields[0].key != "}" && fields[0].key != "." && Writable(fields[0].value, depth, false)
    ensures FieldsWritable(fields[1..], depth)
  {
    hide Writable;
  }

  lemma {:induction false} ReadFields(fields: seq<Field>, depth: nat, toks: seq<Bcon>, at: nat)
    requires FieldsWritable(fields, depth) && Stands(toks, at, FieldsWritten(fields))
    requires var end := at + |FieldsWritten(fields)|; end < |toks| && (toks[end] == S("}") || toks[end] == S("."))
    ensures Members(depth, toks, at) == Parse(FieldCalls(fields), at + |FieldsWritten(fields)|, 0)
    decreases fields, 0
  {
    hide ValueOf, Written, CallsOf, Writable, Members, TokenOf, FieldsWritable, Stands;
    if fields == [] {
      LastMember(depth, toks, at);
    } else {
      var f, rest := fields[0], FieldsWritten(fields[1..]);
      StandsThree(toks, at, S(f.key), Written(f.value), rest);
      FirstFieldWritable(fields, depth);
      ReadValue(f.key, f.value, depth, false, toks, at + 1);
      ReadFields(fields[1..], depth, toks, at + 1 + |Written(f.value)|);
      NextMember(depth, toks, at);
    }
  }

  lemma LastItem(depth: nat, i: nat, toks: seq<Bcon>, at: nat)
    requires at < |toks| && (toks[at] == S("]") || toks[at] == S("."))
    ensures Items(depth, i, toks, at) == Parse([], at, i)
  {
  }

  lemma FirstItemWritable(items: seq<Tree>, depth: nat)
    requires items != [] && ItemsWritable(items, depth)
    ensures Writable(items[0], depth, true) && ItemsWritable(items[1..], depth)
  {
    hide Writable;
  }

  lemma {:induction false} ReadItems(items: seq<Tree>, i: nat, depth: nat, toks: seq<Bcon>, at: nat)
    requires ItemsWritable(items, depth) && Stands(toks, at, ItemsWritten(items))
    requires var end := at + |ItemsWritten(items)|; end < |toks| && (toks[end] == S("]") || toks[end] == S("."))
    ensures Items(depth, i, toks, at) == Parse(ItemCalls(items, i), at + |ItemsWritten(items)|, i + |items|)
    decreases items, 0
  {
    hide ValueOf, Written, CallsOf, Writable, Items, TokenOf, ItemsWritable, Stands, Decimal;
    if items == [] {
      LastItem(depth, i, toks, at);
    } else {
      var rest := ItemsWritten(items[1..]);
      StandsSplit(toks, at, Written(items[0]), rest);
      FirstItemWritable(items, depth);
      FirstEntry(items[0], depth, true, toks, at);
      ReadValue(Decimal(i), items[0], depth, true, toks, at);
      ReadItems(items[1..], i + 1, depth, toks, at + |Written(items[0])|);
      NextItem(depth, i, toks, at);
    }
  }

  lemma {:induction false} ReadDocument(fields: seq<Field>)
    requires FieldsWritable(fields, 1)
    ensures var p := Translate(false, FieldsWritten(fields) + [S(".")]); p.Parse? && p.calls == FieldCalls(fields)
    decreases fields, 1
  {
    hide Members, FieldsWritten, FieldCalls, FieldsWritable;
    ReadFields(fields, 1, FieldsWritten(fields) + [S(".")], 0);
  }

  lemma {:induction false} ReadArray(items: seq<Tree>)
    requires ItemsWritable(items, 1)
    ensures var p := Translate(true, ItemsWritten(items) + [S(".")]); p.Parse? && p.calls == ItemCalls(items, 0)
    decreases items, 1
  {
    hide Items, ItemsWritten, ItemCalls, ItemsWritable;
    ReadItems(items, 0, 1, ItemsWritten(items) + [S(".")], 0);
  }

  /** Compiling what has been written for a document succeeds and makes exactly its calls. */
  method CompileDocument(fields: seq<Field>) returns (calls: seq<Call>, ok: bool)
    requires FieldsWritable(fields, 1)
    ensures ok && calls == FieldCalls(fields)
  {
    hide ScanLevel, FieldsWritten, FieldCalls, FieldsWritable;
    var toks := FieldsWritten(fields) + [S(".")];
    ReadDocument(fields);
    MachineRefinesTranslation(false, toks);
    var result, docLeft, indexLeft := AppendBcon(toks, false);
    calls, ok := result.0, result.1;
  }

  /** And for an array */
  method CompileArray(items: seq<Tree>) returns (calls: seq<Call>, ok: bool)
    requires ItemsWritable(items, 1)
    ensures ok && calls == ItemCalls(items, 0)
  {
    hide ScanLevel, ItemsWritten, ItemCalls, ItemsWritable;
    var toks := ItemsWritten(items) + [S(".")];
    ReadArray(items);
    MachineRefinesTranslation(true, toks);
    var result, docLeft, indexLeft := AppendBcon(toks, true);
    calls, ok := result.0, result.1;
  }
}

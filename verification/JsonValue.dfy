/** JSON value trees and the order on them. */
module JsonValue {
  /**
    A value. Strings and names are C strings: a NUL ends them. The members of an object are kept
    as the map keeps them, ascending by name. A real stands for a finite double. `NoStr` is a
    string without characters to point to, as `Value( stringValue )` makes it.
   */
  datatype Json =
    | Null
    | Int(i: int)
    | UInt(u: nat)
    | Real(r: real)
    | NoStr
    | Str(s: string)
    | Bool(b: bool)
    | Arr(items: seq<Json>)
    | Obj(members: seq<Member>)

  datatype Member = Member(name: string, value: Json)

  /** ValueType */
  function TypeOf(v: Json): nat {
    match v
    case Null => 0
    case Int(_) => 1
    case UInt(_) => 2
    case Real(_) => 3
    case NoStr => 4
    case Str(_) => 4
    case Bool(_) => 5
    case Arr(_) => 6
    case Obj(_) => 7
  }

  // ------------------------------------------------------------------------ strcmp

  /** The C string's character at `i`; 0 past the end */
  function At(s: string, i: nat): char { if i < |s| then s[i] else '\0' }

  /** The sign of strcmp from position `i` on */
  function StrcmpFrom(s: string, t: string, i: nat): (c: int)
    ensures -1 <= c <= 1
    decreases |s| - i
  {
    if At(s, i) < At(t, i) then -1
    else if At(s, i) > At(t, i) then 1
    else if i >= |s| || s[i] == '\0' then 0
    else StrcmpFrom(s, t, i + 1)
  }

  function Strcmp(s: string, t: string): (c: int)
    ensures -1 <= c <= 1
  {
    StrcmpFrom(s, t, 0)
  }

  lemma {:induction false} StrcmpSwaps(s: string, t: string, i: nat)
    ensures StrcmpFrom(t, s, i) == -StrcmpFrom(s, t, i)
    decreases |s| - i
  {
    if At(s, i) == At(t, i) && i < |s| && s[i] != '\0' {
      StrcmpSwaps(s, t, i + 1);
    }
  }

  lemma {:induction false} StrcmpChains(s: string, t: string, u: string, i: nat)
    requires StrcmpFrom(s, t, i) <= 0 && StrcmpFrom(t, u, i) <= 0
    ensures StrcmpFrom(s, u, i) <= 0
    ensures StrcmpFrom(s, u, i) == 0 <==> StrcmpFrom(s, t, i) == 0 && StrcmpFrom(t, u, i) == 0
    decreases |s| - i
  {
    if At(s, i) == At(t, i) == At(u, i) && i < |s| && s[i] != '\0' {
      StrcmpChains(s, t, u, i + 1);
    }
  }

  /** At `k` the strings differ, and they are the same, without an end, up to there. */
  predicate FirstDifference(s: string, t: string, k: nat) {
    At(s, k) != At(t, k) && forall j :: 0 <= j < k ==> At(s, j) == At(t, j) != '\0'
  }

  lemma {:induction false} StrcmpFromDifference(s: string, t: string, i: nat, k: nat)
    requires i <= k && FirstDifference(s, t, k)
    ensures StrcmpFrom(s, t, i) == if At(s, k) < At(t, k) then -1 else 1
    decreases k - i
  {
    if i < k {
      StrcmpFromDifference(s, t, i + 1, k);
    }
  }

  lemma {:induction false} DifferenceFrom(s: string, t: string, i: nat) returns (k: nat)
    requires StrcmpFrom(s, t, i) != 0 && forall j :: 0 <= j < i ==> At(s, j) == At(t, j) != '\0'
    ensures FirstDifference(s, t, k)
    decreases |s| - i
  {
    if At(s, i) != At(t, i) {
      k := i;
    } else {
      k := DifferenceFrom(s, t, i + 1);
    }
  }

  /** The order of strings: the smaller one has the smaller character at the first difference,
      where an end counts as NUL. */
  lemma StrcmpMeans(s: string, t: string)
    ensures Strcmp(s, t) < 0 <==> exists k: nat :: FirstDifference(s, t, k) && At(s, k) < At(t, k)
    ensures Strcmp(s, t) > 0 <==> exists k: nat :: FirstDifference(s, t, k) && At(s, k) > At(t, k)
  {
    if Strcmp(s, t) != 0 {
      var k := DifferenceFrom(s, t, 0);
      StrcmpFromDifference(s, t, 0, k);
    }
    forall k: nat | FirstDifference(s, t, k) ensures Strcmp(s, t) == if At(s, k) < At(t, k) then -1 else 1 {
      StrcmpFromDifference(s, t, 0, k);
    }
  }

  // ------------------------------------------------------- the operators < and ==

  function Size(v: Json): (n: nat)
    ensures n > 0
    ensures v.Arr? ==> forall k :: 0 <= k < |v.items| ==> Size(v.items[k]) < n
    ensures v.Obj? ==> forall k :: 0 <= k < |v.members| ==> Size(v.members[k].value) < n
  {
    match v
    case Arr(items) => 1 + ItemsSize(items)
    case Obj(members) => 1 + MembersSize(members)
    case _ => 1
  }

  function ItemsSize(items: seq<Json>): (n: nat)
    ensures forall k :: 0 <= k < |items| ==> Size(items[k]) <= n
  {
    if items == [] then 0 else Size(items[0]) + ItemsSize(items[1..])
  }

  function MembersSize(members: seq<Member>): (n: nat)
    ensures forall k :: 0 <= k < |members| ==> Size(members[k].value) <= n
  {
    if members == [] then 0 else Size(members[0].value) + MembersSize(members[1..])
  }

  /** operator< */
  predicate Less(a: Json, b: Json)
    decreases Size(a) + Size(b), 0
  {
    if TypeOf(a) != TypeOf(b) then TypeOf(a) < TypeOf(b)
    else
      match a
      case Null => false
      case Int(i) => i < b.i
      case UInt(u) => u < b.u
      case Real(r) => r < b.r
      case Bool(x) => !x && b.b
      case NoStr => b.Str?
      case Str(s) => b.Str? && Strcmp(s, b.s) < 0
      case Arr(items) => if |items| != |b.items| then |items| < |b.items| else ItemsLess(a, b, 0)
      case Obj(members) => if |members| != |b.members| then |members| < |b.members| else MembersLess(a, b, 0)
  }

  /** Lexicographic comparison from position `i` on; the indices are the same on both sides. */
  predicate ItemsLess(a: Json, b: Json, i: nat)
    requires a.Arr? && b.Arr? && |a.items| == |b.items| && i <= |a.items|
    decreases Size(a) + Size(b) - 1, |a.items| - i
  {
    i < |a.items| &&
    (Less(a.items[i], b.items[i]) || (!Less(b.items[i], a.items[i]) && ItemsLess(a, b, i + 1)))
  }

  /** Lexicographic comparison, by name and then by value, from position `i` on */
  predicate MembersLess(a: Json, b: Json, i: nat)
    requires a.Obj? && b.Obj? && |a.members| == |b.members| && i <= |a.members|
    decreases Size(a) + Size(b) - 1, |a.members| - i
  {
    i < |a.members| &&
    var m, n := a.members[i], b.members[i];
    PairLess(m, n) || (!PairLess(n, m) && MembersLess(a, b, i + 1))
  }

  /** operator< of pairs */
  predicate PairLess(m: Member, n: Member)
    decreases Size(m.value) + Size(n.value), 1
  {
    Strcmp(m.name, n.name) < 0 || (!(Strcmp(n.name, m.name) < 0) && Less(m.value, n.value))
  }

  /** operator== */
  predicate Equal(a: Json, b: Json)
    decreases a, 1
  {
    TypeOf(a) == TypeOf(b) &&
    match a
    case Null => true
    case Int(i) => i == b.i
    case UInt(u) => u == b.u
    case Real(r) => r == b.r
    case Bool(x) => x == b.b
    case NoStr => b.NoStr?
    case Str(s) => b.Str? && Strcmp(s, b.s) == 0
    case Arr(items) => |items| == |b.items| && forall k :: 0 <= k < |items| ==> Equal(items[k], b.items[k])
    case Obj(members) =>
      |members| == |b.members| && forall k :: 0 <= k < |members| ==>
        Strcmp(members[k].name, b.members[k].name) == 0 && Equal(members[k].value, b.members[k].value)
  }

  /** compare */
  function Compare(a: Json, b: Json): int {
    if Less(a, b) then -1 else if Less(b, a) then 1 else 0
  }

  // ------------------------------------------------------- one three-way comparison

  function NumCmp(x: real, y: real): (c: int)
    ensures -1 <= c <= 1
  {
    if x < y then -1 else if x > y then 1 else 0
  }

  /** The order as one comparison: by type, then by value; containers by size, then by the first
      position at which they differ. */
  function Cmp(a: Json, b: Json): (c: int)
    ensures -1 <= c <= 1
    decreases a, 1
  {
    if TypeOf(a) != TypeOf(b) then NumCmp(TypeOf(a) as real, TypeOf(b) as real)
    else
      match a
      case Null => 0
      case Int(i) => NumCmp(i as real, b.i as real)
      case UInt(u) => NumCmp(u as real, b.u as real)
      case Real(r) => NumCmp(r, b.r)
      case Bool(x) => if x == b.b then 0 else if x then 1 else -1
      case NoStr => if b.Str? then -1 else 0
      case Str(s) => if b.Str? then Strcmp(s, b.s) else 1
      case Arr(items) =>
        if |items| != |b.items| then NumCmp(|items| as real, |b.items| as real) else ItemsCmp(items, b.items, 0)
      case Obj(members) =>
        if |members| != |b.members| then NumCmp(|members| as real, |b.members| as real)
        else MembersCmp(members, b.members, 0)
  }

  function ItemsCmp(a: seq<Json>, b: seq<Json>, i: nat): (c: int)
    requires |a| == |b| && i <= |a|
    ensures -1 <= c <= 1
    decreases a, |a| - i
  {
    if i == |a| then 0
    else
      var c := Cmp(a[i], b[i]);
      if c != 0 then c else ItemsCmp(a, b, i + 1)
  }

  function MembersCmp(a: seq<Member>, b: seq<Member>, i: nat): (c: int)
    requires |a| == |b| && i <= |a|
    ensures -1 <= c <= 1
    decreases a, |a| - i
  {
    if i == |a| then 0
    else
      var c := PairCmp(a[i], b[i]);
      if c != 0 then c else MembersCmp(a, b, i + 1)
  }

  function PairCmp(m: Member, n: Member): (c: int)
    ensures -1 <= c <= 1
    decreases m
  {
    var c := Strcmp(m.name, n.name);
    if c != 0 then c else Cmp(m.value, n.value)
  }

  lemma {:induction false} CmpSwaps(a: Json, b: Json)
    ensures Cmp(b, a) == -Cmp(a, b)
    decreases a, 1
  {
    if TypeOf(a) == TypeOf(b) {
      match a
      case Str(s) =>
        if b.Str? {
          StrcmpSwaps(s, b.s, 0);
        }
      case Arr(items) =>
        if |items| == |b.items| {
          ItemsSwap(items, b.items, 0);
        }
      case Obj(members) =>
        if |members| == |b.members| {
          MembersSwap(members, b.members, 0);
        }
      case _ =>
    }
  }

  lemma {:induction false} ItemsSwap(a: seq<Json>, b: seq<Json>, i: nat)
    requires |a| == |b| && i <= |a|
    ensures ItemsCmp(b, a, i) == -ItemsCmp(a, b, i)
    decreases a, |a| - i
  {
    if i < |a| {
      CmpSwaps(a[i], b[i]);
      ItemsSwap(a, b, i + 1);
    }
  }

  lemma {:induction false} MembersSwap(a: seq<Member>, b: seq<Member>, i: nat)
    requires |a| == |b| && i <= |a|
    ensures MembersCmp(b, a, i) == -MembersCmp(a, b, i)
    decreases a, |a| - i
  {
    if i < |a| {
      StrcmpSwaps(a[i].name, b[i].name, 0);
      CmpSwaps(a[i].value, b[i].value);
      MembersSwap(a, b, i + 1);
    }
  }

  lemma {:induction false} CmpChains(a: Json, b: Json, c: Json)
    requires Cmp(a, b) <= 0 && Cmp(b, c) <= 0
    ensures Cmp(a, c) <= 0
    ensures Cmp(a, c) == 0 <==> Cmp(a, b) == 0 && Cmp(b, c) == 0
    decreases a, 1
  {
    if TypeOf(a) == TypeOf(b) == TypeOf(c) {
      match a
      case Str(s) =>
        if b.Str? && c.Str? {
          StrcmpChains(s, b.s, c.s, 0);
        }
      case Arr(items) =>
        if |items| == |b.items| == |c.items| {
          ItemsChain(items, b.items, c.items, 0);
        }
      case Obj(members) =>
        if |members| == |b.members| == |c.members| {
          MembersChain(members, b.members, c.members, 0);
        }
      case _ =>
    }
  }

  lemma {:induction false} ItemsChain(a: seq<Json>, b: seq<Json>, c: seq<Json>, i: nat)
    requires |a| == |b| == |c| && i <= |a|
    requires ItemsCmp(a, b, i) <= 0 && ItemsCmp(b, c, i) <= 0
    ensures ItemsCmp(a, c, i) <= 0
    ensures ItemsCmp(a, c, i) == 0 <==> ItemsCmp(a, b, i) == 0 && ItemsCmp(b, c, i) == 0
    decreases a, |a| - i
  {
    if i < |a| {
      CmpChains(a[i], b[i], c[i]);
      if Cmp(a[i], b[i]) == 0 && Cmp(b[i], c[i]) == 0 {
        ItemsChain(a, b, c, i + 1);
      }
    }
  }

  lemma {:induction false} MembersChain(a: seq<Member>, b: seq<Member>, c: seq<Member>, i: nat)
    requires |a| == |b| == |c| && i <= |a|
    requires MembersCmp(a, b, i) <= 0 && MembersCmp(b, c, i) <= 0
    ensures MembersCmp(a, c, i) <= 0
    ensures MembersCmp(a, c, i) == 0 <==> MembersCmp(a, b, i) == 0 && MembersCmp(b, c, i) == 0
    decreases a, |a| - i
  {
    if i < |a| {
      PairsChain(a[i], b[i], c[i]);
      if PairCmp(a[i], b[i]) == 0 && PairCmp(b[i], c[i]) == 0 {
        MembersChain(a, b, c, i + 1);
      }
    }
  }

  lemma {:induction false} PairsChain(m: Member, n: Member, o: Member)
    requires PairCmp(m, n) <= 0 && PairCmp(n, o) <= 0
    ensures PairCmp(m, o) <= 0
    ensures PairCmp(m, o) == 0 <==> PairCmp(m, n) == 0 && PairCmp(n, o) == 0
    decreases m
  {
    StrcmpChains(m.name, n.name, o.name, 0);
    if Strcmp(m.name, n.name) == 0 && Strcmp(n.name, o.name) == 0 {
      CmpChains(m.value, n.value, o.value);
    }
  }

  /** operator< and operator== are that comparison. */
  lemma {:induction false} OperatorsAreCmp(a: Json, b: Json)
    ensures Less(a, b) <==> Cmp(a, b) < 0
    ensures Less(b, a) <==> Cmp(a, b) > 0
    ensures Equal(a, b) <==> Cmp(a, b) == 0
    decreases a, 1
  {
    if TypeOf(a) == TypeOf(b) {
      match a
      case Str(s) =>
        if b.Str? {
          StrcmpSwaps(s, b.s, 0);
        }
      case Arr(items) =>
        if |items| == |b.items| {
          ItemsAreCmp(a, b, 0);
        }
      case Obj(members) =>
        if |members| == |b.members| {
          MembersAreCmp(a, b, 0);
        }
      case _ =>
    }
  }

  lemma {:induction false} ItemsAreCmp(a: Json, b: Json, i: nat)
    requires a.Arr? && b.Arr? && |a.items| == |b.items| && i <= |a.items|
    ensures ItemsLess(a, b, i) <==> ItemsCmp(a.items, b.items, i) < 0
    ensures ItemsLess(b, a, i) <==> ItemsCmp(a.items, b.items, i) > 0
    ensures (forall k :: i <= k < |a.items| ==> Equal(a.items[k], b.items[k])) <==> ItemsCmp(a.items, b.items, i) == 0
    decreases a, 0, |a.items| - i
  {
    if i < |a.items| {
      OperatorsAreCmp(a.items[i], b.items[i]);
      ItemsAreCmp(a, b, i + 1);
    }
  }

  lemma {:induction false} MembersAreCmp(a: Json, b: Json, i: nat)
    requires a.Obj? && b.Obj? && |a.members| == |b.members| && i <= |a.members|
    ensures MembersLess(a, b, i) <==> MembersCmp(a.members, b.members, i) < 0
    ensures MembersLess(b, a, i) <==> MembersCmp(a.members, b.members, i) > 0
    ensures (forall k :: i <= k < |a.members| ==>
              Strcmp(a.members[k].name, b.members[k].name) == 0 && Equal(a.members[k].value, b.members[k].value))
            <==> MembersCmp(a.members, b.members, i) == 0
    decreases a, 0, |a.members| - i
  {
    if i < |a.members| {
      var m, n := a.members[i], b.members[i];
      StrcmpSwaps(m.name, n.name, 0);
      OperatorsAreCmp(m.value, n.value);
      MembersAreCmp(a, b, i + 1);
    }
  }

  /** The order is strict and total: exactly one of a < b, a == b and b < a holds, through any
      nesting, and < is transitive and compatible with ==. */
  lemma StrictTotalOrder(a: Json, b: Json, c: Json)
    ensures !Less(a, a) && Equal(a, a)
    ensures Less(a, b) ==> !Equal(a, b) && !Less(b, a)
    ensures Equal(a, b) ==> Equal(b, a) && !Less(a, b) && !Less(b, a)
    ensures Less(a, b) || Equal(a, b) || Less(b, a)
    ensures Less(a, b) && Less(b, c) ==> Less(a, c)
    ensures Equal(a, b) && Less(b, c) ==> Less(a, c)
    ensures Less(a, b) && Equal(b, c) ==> Less(a, c)
    ensures Equal(a, b) && Equal(b, c) ==> Equal(a, c)
  {
    hide Less, Equal, Cmp;
    CmpSwaps(a, a);
    OperatorsAreCmp(a, a);
    CmpSwaps(a, b);
    OperatorsAreCmp(a, b);
    OperatorsAreCmp(b, a);
    OperatorsAreCmp(b, c);
    OperatorsAreCmp(a, c);
    if Cmp(a, b) <= 0 && Cmp(b, c) <= 0 {
      CmpChains(a, b, c);
    }
  }

  /** The order in detail: the types in the order of ValueType, numbers by value, strings by
      characters with the null string first, false before true, containers by size first */
  lemma OrderByKind(i: int, u: nat, r: real, s: string, b: bool, items: seq<Json>, ms: seq<Member>)
    ensures Less(Null, Int(i)) && Less(Int(i), UInt(u)) && Less(UInt(u), Real(r)) && Less(Real(r), NoStr)
    ensures Less(NoStr, Str(s)) && Less(Str(s), Bool(b)) && Less(Bool(b), Arr(items)) && Less(Arr(items), Obj(ms))
    ensures forall j :: Less(Int(i), Int(j)) <==> i < j
    ensures forall v: nat :: Less(UInt(u), UInt(v)) <==> u < v
    ensures forall q :: Less(Real(r), Real(q)) <==> r < q
    ensures forall t :: Less(Str(s), Str(t)) <==> exists k: nat :: FirstDifference(s, t, k) && At(s, k) < At(t, k)
    ensures Less(Bool(false), Bool(true))
    ensures forall more: seq<Json> :: |items| < |more| ==> Less(Arr(items), Arr(more))
    ensures forall more: seq<Member> :: |ms| < |more| ==> Less(Obj(ms), Obj(more))
  {
    forall t ensures Less(Str(s), Str(t)) <==> exists k: nat :: FirstDifference(s, t, k) && At(s, k) < At(t, k) {
      StrcmpMeans(s, t);
    }
  }

  /** compare is the same comparison, so its three answers tell <, == and > apart. */
  lemma CompareIsCmp(a: Json, b: Json)
    ensures Compare(a, b) == Cmp(a, b)
    ensures Compare(a, b) == 0 <==> Equal(a, b)
  {
    hide Less, Equal, Cmp;
    OperatorsAreCmp(a, b);
  }
}

// The order in which the terms of a sum are kept, and totals over lists of terms.
module NodeOrder {
  import opened Words
  import opened LogicalNodes

  // Position of a kind in the enumeration.
  function Rank(k: Kind): nat {
    match k
    case SubSignature => 0
    case And => 1
    case Or => 2
    case Eq => 3
    case Gt => 4
    case Lt => 5
    case AddBoth => 6
    case Not => 7
    case True => 8
    case False => 9
    case Add => 10
    case AddSum => 11
    case AddUniq => 12
  }

  predicate Less(t: Table, a: nat, b: nat)
    requires a < |t| && b < |t| && Downward(t)
    decreases a, 0
  {
    var x, y := t[a], t[b];
    if x.kind != y.kind then Rank(x.kind) < Rank(y.kind)
    else if x.op0 != y.op0 then x.op0 < y.op0
    else if x.op1 != y.op1 then x.op0 < y.op0
    else if |x.children| != |y.children| then |x.children| < |y.children|
    else LessChildren(t, x.children, y.children, a, b)
  }

  // The first position where two child lists differ decides.
  predicate LessChildren(t: Table, xs: seq<nat>, ys: seq<nat>, a: nat, b: nat)
    requires a < |t| && b < |t| && Downward(t) && |xs| == |ys|
    requires (forall c :: c in xs ==> c < a) && (forall c :: c in ys ==> c < b)
    decreases a, 0, |xs|
  {
    if xs == [] then false
    else
      TailIn(xs); TailIn(ys);
      if xs[0] == ys[0] then LessChildren(t, xs[1..], ys[1..], a, b)
      else Less(t, xs[0], ys[0])
  }

  predicate Downward(t: Table) {
    forall i :: 0 <= i < |t| ==> forall c :: c in t[i].children ==> c < i
  }

  // Every node of the expression carries the default second operand.
  predicate DefaultTree(t: Table, a: nat)
    requires a < |t| && Downward(t)
    decreases a
  {
    t[a].op1 == ALL_ONES && forall c :: c in t[a].children ==> DefaultTree(t, c)
  }

  lemma {:induction false} LessIrreflexive(t: Table, a: nat)
    requires a < |t| && Downward(t)
    ensures !Less(t, a, a)
  {
    SameChildren(t, t[a].children, a, a);
  }

  lemma {:induction false} SameChildren(t: Table, xs: seq<nat>, a: nat, b: nat)
    requires a < |t| && b < |t| && Downward(t)
    requires (forall c :: c in xs ==> c < a) && (forall c :: c in xs ==> c < b)
    ensures !LessChildren(t, xs, xs, a, b)
  {
    if xs != [] { TailIn(xs); SameChildren(t, xs[1..], a, b); }
  }

  // Distinct entries compare one way or the other: this is where uniquing matters.
  lemma {:induction false} LessTotal(t: Table, a: nat, b: nat)
    requires a < |t| && b < |t| && Downward(t) && Unique(t) && a != b
    requires DefaultTree(t, a) && DefaultTree(t, b)
    ensures Less(t, a, b) || Less(t, b, a)
    decreases a, 1
  {
    assert t[a] != t[b] by { if a < b { assert t[a] != t[b]; } else { assert t[b] != t[a]; } }
    if t[a].kind == t[b].kind && t[a].op0 == t[b].op0 && |t[a].children| == |t[b].children| {
      RankInjective(t[a].kind, t[b].kind);
      LessChildrenTotal(t, t[a].children, t[b].children, a, b);
    } else {
      RankInjective(t[a].kind, t[b].kind);
    }
  }

  lemma {:induction false} RankInjective(j: Kind, k: Kind)
    ensures Rank(j) == Rank(k) ==> j == k
  {
  }

  lemma {:induction false} LessChildrenTotal(t: Table, xs: seq<nat>, ys: seq<nat>, a: nat, b: nat)
    requires a < |t| && b < |t| && Downward(t) && Unique(t) && |xs| == |ys| && xs != ys
    requires (forall c :: c in xs ==> c < a) && (forall c :: c in ys ==> c < b)
    requires (forall c :: c in xs ==> DefaultTree(t, c)) && (forall c :: c in ys ==> DefaultTree(t, c))
    ensures LessChildren(t, xs, ys, a, b) || LessChildren(t, ys, xs, b, a)
    decreases a, 0, |xs|
  {
    assert xs != [];
    TailIn(xs); TailIn(ys);
    if xs[0] == ys[0] {
      LessChildrenTotal(t, xs[1..], ys[1..], a, b);
    } else {
      LessTotal(t, xs[0], ys[0]);
    }
  }

  lemma {:induction false} LessTransitive(t: Table, a: nat, b: nat, c: nat)
    requires a < |t| && b < |t| && c < |t| && Downward(t) && Less(t, a, b) && Less(t, b, c)
    requires DefaultTree(t, a) && DefaultTree(t, b) && DefaultTree(t, c)
    ensures Less(t, a, c)
    decreases a, 1
  {
    RankInjective(t[a].kind, t[c].kind);
    if t[a].kind == t[b].kind == t[c].kind && t[a].op0 == t[b].op0 == t[c].op0
      && |t[a].children| == |t[b].children| == |t[c].children|
    {
      ChildrenTransitive(t, t[a].children, t[b].children, t[c].children, a, b, c);
    }
  }

  lemma {:induction false} ChildrenTransitive(t: Table, xs: seq<nat>, ys: seq<nat>, zs: seq<nat>, a: nat, b: nat, c: nat)
    requires a < |t| && b < |t| && c < |t| && Downward(t) && |xs| == |ys| == |zs|
    requires (forall i :: i in xs ==> i < a && DefaultTree(t, i)) && (forall i :: i in ys ==> i < b && DefaultTree(t, i))
    requires forall i :: i in zs ==> i < c && DefaultTree(t, i)
    requires LessChildren(t, xs, ys, a, b) && LessChildren(t, ys, zs, b, c)
    ensures LessChildren(t, xs, zs, a, c)
    decreases a, 0, |xs|
  {
    assert xs != [];
    TailIn(xs); TailIn(ys); TailIn(zs);
    if xs[0] == ys[0] == zs[0] {
      ChildrenTransitive(t, xs[1..], ys[1..], zs[1..], a, b, c);
    } else if xs[0] != ys[0] && ys[0] != zs[0] {
      LessTransitive(t, xs[0], ys[0], zs[0]);
      LessIrreflexive(t, xs[0]);
    }
  }

  // ---- sorting the terms of a sum ----

  ghost predicate Defaults(t: Table, xs: seq<nat>)
    requires Downward(t)
  {
    forall x :: x in xs ==> x < |t| && DefaultTree(t, x)
  }

  function Insert(t: Table, x: nat, ys: seq<nat>): (s: seq<nat>)
    requires Downward(t) && x < |t| && forall y :: y in ys ==> y < |t|
    ensures multiset(s) == multiset{x} + multiset(ys)
    ensures forall y :: y in s <==> y == x || y in ys
  {
    if ys == [] then [x]
    else
      TailIn(ys);
      if Less(t, ys[0], x) then [ys[0]] + Insert(t, x, ys[1..]) else [x] + ys
  }

  function Sort(t: Table, xs: seq<nat>): (s: seq<nat>)
    requires Downward(t) && forall x :: x in xs ==> x < |t|
    ensures multiset(s) == multiset(xs) && |s| == |xs|
    ensures forall x :: x in s <==> x in xs
  {
    if xs == [] then []
    else
      TailIn(xs);
      var s := Insert(t, xs[0], Sort(t, xs[1..]));
      assert |multiset(s)| == |multiset(xs)|;
      s
  }

  // No later term precedes an earlier one.
  ghost predicate Ordered(t: Table, xs: seq<nat>)
    requires Downward(t) && forall x :: x in xs ==> x < |t|
  {
    xs == [] || (TailIn(xs); (forall y :: y in xs[1..] ==> !Less(t, y, xs[0])) && Ordered(t, xs[1..]))
  }

  // Not preceding is transitive on expressions with default operands.
  lemma {:induction false} NotLessTransitive(t: Table, z: nat, y: nat, x: nat)
    requires Downward(t) && Unique(t) && z < |t| && y < |t| && x < |t|
    requires DefaultTree(t, z) && DefaultTree(t, y) && DefaultTree(t, x)
    requires !Less(t, z, y) && !Less(t, y, x)
    ensures !Less(t, z, x)
  {
    if z != y && Less(t, z, x) {
      LessTotal(t, z, y);
      LessTransitive(t, y, z, x);
    }
  }

  lemma {:induction false} InsertOrdered(t: Table, x: nat, ys: seq<nat>)
    requires Downward(t) && Unique(t) && x < |t| && DefaultTree(t, x) && Defaults(t, ys)
    requires (forall y :: y in ys ==> y < |t|) && Ordered(t, ys)
    ensures Ordered(t, Insert(t, x, ys))
  {
    if ys != [] {
      TailIn(ys);
      var y := ys[0];
      if Less(t, y, x) {
        InsertOrdered(t, x, ys[1..]);
        var zs := Insert(t, x, ys[1..]);
        assert ([y] + zs)[1..] == zs;
        forall z | z in zs ensures !Less(t, z, y) {
          if z == x && Less(t, x, y) { LessTransitive(t, x, y, x); LessIrreflexive(t, x); }
        }
      } else {
        assert ([x] + ys)[1..] == ys;
        forall z | z in ys ensures !Less(t, z, x) {
          if z != y { NotLessTransitive(t, z, y, x); }
        }
      }
    }
  }

  lemma {:induction false} SortOrders(t: Table, xs: seq<nat>)
    requires Downward(t) && Unique(t) && Defaults(t, xs) && forall x :: x in xs ==> x < |t|
    ensures Ordered(t, Sort(t, xs))
  {
    if xs != [] {
      TailIn(xs);
      SortOrders(t, xs[1..]);
      InsertOrdered(t, xs[0], Sort(t, xs[1..]));
    }
  }

  // There is one ordered arrangement of a bag of terms.
  lemma {:induction false} OrderedUnique(t: Table, xs: seq<nat>, ys: seq<nat>)
    requires Downward(t) && Unique(t) && Defaults(t, xs) && Defaults(t, ys)
    requires (forall x :: x in xs ==> x < |t|) && (forall y :: y in ys ==> y < |t|)
    requires Ordered(t, xs) && Ordered(t, ys) && multiset(xs) == multiset(ys)
    ensures xs == ys
  {
    assert |multiset(xs)| == |xs| && |multiset(ys)| == |ys|;
    if xs != [] {
      TailIn(xs);
      TailIn(ys);
      if xs[0] != ys[0] {
        assert xs[0] in multiset(ys) && ys[0] in multiset(xs);
        assert xs[0] in ys[1..] && ys[0] in xs[1..];
        LessTotal(t, xs[0], ys[0]);
      }
      assert multiset(xs[1..]) == multiset(xs) - multiset{xs[0]};
      assert multiset(ys[1..]) == multiset(ys) - multiset{ys[0]};
      OrderedUnique(t, xs[1..], ys[1..]);
    }
  }

  // The terms of a sum come out in the same order whatever order they were added in.
  lemma {:induction false} SortCanonical(t: Table, xs: seq<nat>, ys: seq<nat>)
    requires Downward(t) && Unique(t) && Defaults(t, xs) && multiset(xs) == multiset(ys)
    requires (forall x :: x in xs ==> x < |t|) && (forall y :: y in ys ==> y < |t|)
    ensures Sort(t, xs) == Sort(t, ys)
  {
    forall y | y in ys ensures DefaultTree(t, y) { assert y in multiset(xs); }
    SortOrders(t, xs);
    SortOrders(t, ys);
    OrderedUnique(t, Sort(t, xs), Sort(t, ys));
  }

  // Two equalities that differ in their second number alone are a tie, so that sums over them depend on
  // the order of addition.
  lemma {:induction false} LessTies(t: Table, a: nat, b: nat)
    requires Downward(t) && a < |t| && b < |t| && t[a].op1 != t[b].op1 && t[a] == t[b].(op1 := t[a].op1)
    ensures !Less(t, a, b) && !Less(t, b, a) && Sort(t, [a, b]) != Sort(t, [b, a])
  {
    assert [a, b][1..] == [b] && [b, a][1..] == [a] && [a][1..] == [] && [b][1..] == [];
    assert Sort(t, [a]) == [a] && Sort(t, [b]) == [b];
  }

  // ---- totals over lists of terms ----

  ghost function Total(t: Table, ids: seq<nat>, m: Counts): nat
    requires Acyclic(t) && Arity(t) && In(t, ids)
  {
    if ids == [] then 0 else TailIn(ids); Val(t, ids[0], m) + Total(t, ids[1..], m)
  }

  ghost function Matched(t: Table, ids: seq<nat>, m: Counts): nat
    requires Acyclic(t) && Arity(t) && In(t, ids)
  {
    if ids == [] then 0 else TailIn(ids); Bit(Truth(t, ids[0], m)) + Matched(t, ids[1..], m)
  }

  lemma {:induction false} TotalsOfVals(t: Table, ids: seq<nat>, bound: nat, m: Counts)
    requires Acyclic(t) && Arity(t) && In(t, ids) && bound <= |t| && forall c :: c in ids ==> c < bound
    ensures Sum(Vals(t, ids, bound, m)) == Total(t, ids, m)
    ensures Nonzero(Vals(t, ids, bound, m)) == Matched(t, ids, m)
  {
    if ids != [] {
      TailIn(ids);
      TotalsOfVals(t, ids[1..], bound, m);
      assert Vals(t, ids, bound, m)[1..] == Vals(t, ids[1..], bound, m);
    }
  }

  lemma {:induction false} TotalAppend(t: Table, a: seq<nat>, b: seq<nat>, m: Counts)
    requires Acyclic(t) && Arity(t) && In(t, a) && In(t, b) && In(t, a + b)
    ensures Total(t, a + b, m) == Total(t, a, m) + Total(t, b, m)
    ensures Matched(t, a + b, m) == Matched(t, a, m) + Matched(t, b, m)
  {
    if a == [] {
      assert a + b == b;
    } else {
      TailIn(a);
      assert (a + b)[0] == a[0] && (a + b)[1..] == a[1..] + b;
      TailIn(a + b);
      TotalAppend(t, a[1..], b, m);
    }
  }

  lemma {:induction false} InsertTotal(t: Table, x: nat, ys: seq<nat>, m: Counts)
    requires Acyclic(t) && Arity(t) && Downward(t) && x < |t| && In(t, ys)
    ensures In(t, Insert(t, x, ys))
    ensures Total(t, Insert(t, x, ys), m) == Val(t, x, m) + Total(t, ys, m)
    ensures Matched(t, Insert(t, x, ys), m) == Bit(Truth(t, x, m)) + Matched(t, ys, m)
  {
    if ys == [] || !(ys[0] in ys && Less(t, ys[0], x)) {
      assert ([x] + ys)[1..] == ys;
      if ys != [] { TailIn(ys); }
    } else {
      TailIn(ys);
      InsertTotal(t, x, ys[1..], m);
      assert ([ys[0]] + Insert(t, x, ys[1..]))[1..] == Insert(t, x, ys[1..]);
    }
  }

  // Sorting changes neither total.
  lemma {:induction false} SortTotal(t: Table, xs: seq<nat>, m: Counts)
    requires Acyclic(t) && Arity(t) && Downward(t) && In(t, xs)
    ensures In(t, Sort(t, xs))
    ensures Total(t, Sort(t, xs), m) == Total(t, xs, m) && Matched(t, Sort(t, xs), m) == Matched(t, xs, m)
  {
    if xs != [] {
      TailIn(xs);
      SortTotal(t, xs[1..], m);
      InsertTotal(t, xs[0], Sort(t, xs[1..]), m);
    }
  }

  // The order looks only at existing entries.
  lemma {:induction false} LessExtends(t: Table, t': Table, a: nat, b: nat)
    requires Downward(t) && Downward(t') && t <= t' && a < |t| && b < |t|
    ensures Less(t', a, b) <==> Less(t, a, b)
    decreases a, 1
  {
    if |t[a].children| == |t[b].children| { ChildrenExtend(t, t', t[a].children, t[b].children, a, b); }
  }

  lemma {:induction false} ChildrenExtend(t: Table, t': Table, xs: seq<nat>, ys: seq<nat>, a: nat, b: nat)
    requires Downward(t) && Downward(t') && t <= t' && a < |t| && b < |t| && |xs| == |ys|
    requires (forall c :: c in xs ==> c < a) && (forall c :: c in ys ==> c < b)
    ensures LessChildren(t', xs, ys, a, b) <==> LessChildren(t, xs, ys, a, b)
    decreases a, 0, |xs|
  {
    if xs != [] {
      TailIn(xs); TailIn(ys);
      if xs[0] == ys[0] { ChildrenExtend(t, t', xs[1..], ys[1..], a, b); } else { LessExtends(t, t', xs[0], ys[0]); }
    }
  }

  lemma {:induction false} InsertExtends(t: Table, t': Table, x: nat, ys: seq<nat>)
    requires Downward(t) && Downward(t') && t <= t' && x < |t| && In(t, ys) && In(t', ys)
    ensures Insert(t', x, ys) == Insert(t, x, ys)
  {
    if ys != [] {
      TailIn(ys);
      LessExtends(t, t', ys[0], x);
      InsertExtends(t, t', x, ys[1..]);
    }
  }

  lemma {:induction false} SortExtends(t: Table, t': Table, xs: seq<nat>)
    requires Downward(t) && Downward(t') && t <= t' && In(t, xs) && In(t', xs)
    ensures Sort(t', xs) == Sort(t, xs)
  {
    if xs != [] {
      TailIn(xs);
      SortExtends(t, t', xs[1..]);
      InsertExtends(t, t', xs[0], Sort(t, xs[1..]));
    }
  }
}

// The modifiers of an equality over a sum: when negating or merging them says the right thing.
module SumModifiers {
  import opened Words
  import opened LogicalNodes
  import opened NodeOrder

  // Kinds that mean a condition, so that a sum of them counts those that hold.
  predicate ConditionKind(k: Kind) { Connective(k) || k == Eq || k == Gt || k == Lt || k == Not || Constant(k) }

  ghost predicate Conditions(t: Table, c: nat)
    requires Acyclic(t) && c < |t|
  {
    forall d :: d in t[c].children ==> d < c && ConditionKind(t[d].kind)
  }

  // Different match counts and nothing else.
  ghost predicate PlainCounts(t: Table, c: nat)
    requires Acyclic(t) && c < |t|
  {
    && Unique(t[c].children) && 0 < |t[c].children| < TWO32 - 1
    && forall d :: d in t[c].children ==> d < c && t[d] == Plain(SubSignature, t[d].op0, [])
  }

  // ---- negation reads an equality by its value alone ----

  ghost predicate Attains(t: Table, c: nat, v: u32)
    requires Acyclic(t) && Arity(t) && c < |t|
  {
    exists m: Counts :: Val(t, c, m) == v
  }

  ghost predicate ValueSays(t: Table, i: nat)
    requires Acyclic(t) && Arity(t) && i < |t| && t[i].kind == Eq && t[i].children[0] < |t|
  {
    forall m: Counts :: Truth(t, i, m) <==> Val(t, t[i].children[0], m) == t[i].op0
  }

  // When an equality is true exactly at its value. Over conditions both numbers are the same, so =Y,Y is
  // and =X,Y never holds; over match counts only a single one can be, as =0,0 or =X,1 with X above one.
  ghost predicate ValueOnly(t: Table, i: nat)
    requires Acyclic(t) && Arity(t) && i < |t| && t[i].kind == Eq
  {
    var c := t[i].children[0];
    assert c in t[i].children;
    var x, y := t[i].op0, t[i].op1;
    y == ALL_ONES || t[c].kind != AddBoth
    || (if Conditions(t, c) then x == y || !Attains(t, c, x)
        else if PlainCounts(t, c) then |t[c].children| == 1 && ((x == 0 && y == 0) || (x >= 2 && y == 1))
        else ValueSays(t, i))
  }

  lemma {:induction false} BitsTotal(vs: seq<nat>)
    requires forall v :: v in vs ==> v <= 1
    ensures Sum(vs) == Nonzero(vs)
  {
    if vs != [] {
      TailIn(vs);
      BitsTotal(vs[1..]);
    }
  }

  lemma {:induction false} ConditionBit(t: Table, d: nat, m: Counts)
    requires Acyclic(t) && Arity(t) && d < |t| && ConditionKind(t[d].kind)
    ensures Val(t, d, m) <= 1
  {
  }

  lemma {:induction false} ConditionTotal(t: Table, c: nat, m: Counts)
    requires Acyclic(t) && Arity(t) && c < |t| && Conditions(t, c)
    ensures Sum(Vals(t, t[c].children, c, m)) == Nonzero(Vals(t, t[c].children, c, m))
  {
    var vs := Vals(t, t[c].children, c, m);
    forall v | v in vs ensures v <= 1 {
      var k :| 0 <= k < |vs| && vs[k] == v;
      assert t[c].children[k] in t[c].children;
      ConditionBit(t, t[c].children[k], m);
    }
    BitsTotal(vs);
  }

  // Counting conditions, the total and the number of different terms agree.
  lemma {:induction false} ConditionsAgree(t: Table, c: nat, m: Counts)
    requires Acyclic(t) && Arity(t) && c < |t| && t[c].kind == AddBoth && Conditions(t, c)
    ensures Val(t, c, m) == Different(t, c, m)
  {
    ConditionTotal(t, c, m);
  }

  // ---- match counts with given values ----

  lemma {:induction false} DistinctSignatures(t: Table, c: nat, i: nat, j: nat)
    requires Acyclic(t) && Unique(t) && c < |t| && PlainCounts(t, c) && i < j < |t[c].children|
    ensures t[c].children[i] in t[c].children && t[c].children[j] in t[c].children
    ensures t[t[c].children[i]].op0 != t[t[c].children[j]].op0
  {
  }

  ghost predicate PositionOf(t: Table, c: nat, sig: int, j: nat)
    requires Acyclic(t) && c < |t|
  {
    j < |t[c].children| && t[c].children[j] < |t| && t[t[c].children[j]].op0 == sig
  }

  ghost function CountOf(t: Table, c: nat, vs: seq<u32>, sig: int): u32
    requires Acyclic(t) && c < |t| && |vs| == |t[c].children|
  {
    if j: nat :| PositionOf(t, c, sig, j) then vs[j] else 0
  }

  // Match counts that give the terms of c the values vs.
  ghost function CountsFor(t: Table, c: nat, vs: seq<u32>): Counts
    requires Acyclic(t) && c < |t| && |vs| == |t[c].children|
  {
    seq<u32>(TWO32, s => CountOf(t, c, vs, s))
  }

  lemma {:induction false} CountsAt(t: Table, c: nat, vs: seq<u32>, j: nat)
    requires WellFormed(t) && c < |t| && PlainCounts(t, c) && |vs| == |t[c].children| && j < |vs|
    ensures t[c].children[j] in t[c].children && Val(t, t[c].children[j], CountsFor(t, c, vs)) == vs[j]
  {
    var d := t[c].children[j];
    assert d in t[c].children && PositionOf(t, c, t[d].op0, j);
    forall k: nat | PositionOf(t, c, t[d].op0, k) ensures k == j {
      if k < j { DistinctSignatures(t, c, k, j); } else if j < k { DistinctSignatures(t, c, j, k); }
    }
    assert CountOf(t, c, vs, t[d].op0) == vs[j];
  }

  lemma {:induction false} CountsListed(t: Table, c: nat, vs: seq<u32>)
    requires WellFormed(t) && c < |t| && PlainCounts(t, c) && |vs| == |t[c].children|
    ensures Vals(t, t[c].children, c, CountsFor(t, c, vs)) == vs
  {
    hide CountsFor, PlainCounts;
    var m, ids := CountsFor(t, c, vs), t[c].children;
    forall j | 0 <= j < |ids| ensures Vals(t, ids, c, m)[j] == vs[j] { CountsAt(t, c, vs, j); }
  }

  lemma {:induction false} CountsGive(t: Table, c: nat, vs: seq<u32>)
    requires WellFormed(t) && c < |t| && t[c].kind == AddBoth && PlainCounts(t, c) && |vs| == |t[c].children|
    ensures var m := CountsFor(t, c, vs); Val(t, c, m) == Wrap(Sum(vs)) && Different(t, c, m) == Wrap(Nonzero(vs))
  {
    hide CountsFor, PlainCounts;
    CountsListed(t, c, vs);
  }

  // Two values and then zeros.
  function Pair(p: u32, q: u32, n: nat): (vs: seq<u32>)
    requires n >= 2
    ensures |vs| == n
  {
    [p, q] + seq(n - 2, _ => 0)
  }

  lemma {:induction false} Zeros(vs: seq<u32>)
    requires forall v :: v in vs ==> v == 0
    ensures Sum(vs) == 0 && Nonzero(vs) == 0
  {
    if vs != [] {
      TailIn(vs);
      Zeros(vs[1..]);
    }
  }

  lemma {:induction false} PairTotal(p: u32, q: u32, n: nat)
    requires n >= 2
    ensures Sum(Pair(p, q, n)) == p + q && Nonzero(Pair(p, q, n)) == Bit(p != 0) + Bit(q != 0)
  {
    var vs := Pair(p, q, n);
    Zeros(vs[2..]);
    assert vs[1..][0] == q && vs[1..][1..] == vs[2..];
    assert Sum(vs[1..]) == q + Sum(vs[2..]) && Nonzero(vs[1..]) == Bit(q != 0) + Nonzero(vs[2..]);
  }

  // A first value, then ones up to position y, then zeros.
  function Ones(first: u32, y: nat, n: nat): (vs: seq<u32>)
    requires 1 <= y <= n
    ensures |vs| == n && vs[0] == first && forall j :: 0 < j < n ==> vs[j] == if j < y then 1 else 0
  {
    seq(n, j => if j == 0 then first else if j < y then 1 else 0)
  }

  lemma {:induction false} OnesTotal(vs: seq<u32>, y: nat)
    requires y <= |vs| && forall j :: 0 <= j < |vs| ==> vs[j] == if j < y then 1 else 0
    ensures Sum(vs) == y && Nonzero(vs) == y
  {
    if vs != [] { OnesTotal(vs[1..], if y == 0 then 0 else y - 1); }
  }

  lemma {:induction false} NoneNonzero(vs: seq<nat>)
    ensures Nonzero(vs) <= |vs| && (Nonzero(vs) == 0 ==> Sum(vs) == 0)
  {
    if vs != [] { NoneNonzero(vs[1..]); }
  }

  // ---- when =X,Y says no more and no less than its value ----

  lemma {:induction false} OneCount(t: Table, c: nat, m: Counts)
    requires WellFormed(t) && c < |t| && t[c].kind == AddBoth && PlainCounts(t, c) && |t[c].children| == 1
    ensures Different(t, c, m) == Bit(Val(t, c, m) != 0)
  {
    var vs := Vals(t, t[c].children, c, m);
    assert vs == [vs[0]] && vs[1..] == [];
    assert Sum(vs) == vs[0] && Nonzero(vs) == Bit(vs[0] != 0);
  }

  // Counts at which one and the same value goes with different numbers of terms.
  function Telling(x: u32, y: u32, n: nat): (vs: seq<u32>)
    requires n > 0
    ensures |vs| == n
  {
    if n == 1 then [if x == y == 1 then 2 else x]
    else if x == 0 then (if y == 0 then Pair(0x8000_0000, 0x8000_0000, n) else Pair(0, 0, n))
    else if y != 1 then Pair(x, 0, n)
    else if x == 1 then Pair(ALL_ONES, 2, n)
    else Pair(1, x - 1, n)
  }

  lemma {:induction false} CountsTell(t: Table, i: nat, c: nat)
    requires WellFormed(t) && i < |t| && SumEq(t, i) && t[i].children == [c] && c < i && PlainCounts(t, c)
    requires t[i].op1 != ALL_ONES && !ValueOnly(t, i) && !Conditions(t, c)
    ensures !ValueSays(t, i)
  {
    hide PlainCounts, Conditions, Val, Different, CountsFor, Canonical;
    var x, y, n := t[i].op0, t[i].op1, |t[c].children|;
    assert n > 0 by { SomeTerms(t, c); }
    var vs := Telling(x, y, n);
    var m := CountsFor(t, c, vs);
    CountsGive(t, c, vs);
    SumEqTruth(t, i, m);
    if n == 1 {
      assert Sum(vs) == vs[0] + Sum(vs[1..]) && vs[1..] == [];
      assert Nonzero(vs) == Bit(vs[0] != 0) + Nonzero(vs[1..]);
    } else {
      PairTotal(vs[0], vs[1], n);
      assert vs == Pair(vs[0], vs[1], n);
    }
    assert Truth(t, i, m) != (Val(t, c, m) == x);
  }

  lemma {:induction false} SomeTerms(t: Table, c: nat)
    requires Acyclic(t) && c < |t| && PlainCounts(t, c)
    ensures |t[c].children| > 0 && !Conditions(t, c)
  {
    assert t[c].children[0] in t[c].children;
  }

  lemma {:induction false} ValueOnlyExact(t: Table, i: nat)
    requires WellFormed(t) && i < |t| && t[i].kind == Eq
    ensures t[i].children[0] in t[i].children && (ValueOnly(t, i) <==> ValueSays(t, i))
  {
    var c := t[i].children[0];
    assert c in t[i].children && t[i].children == [c];
    if t[i].op1 != ALL_ONES && t[c].kind == AddBoth {
      forall m: Counts ensures Truth(t, i, m) <==>
        Different(t, c, m) == t[i].op1 && (t[i].op0 != t[i].op1 ==> Val(t, c, m) == t[i].op0)
      { SumEqTruth(t, i, m); }
      hide Val, Different;
      if Conditions(t, c) {
        forall m: Counts ensures Val(t, c, m) == Different(t, c, m) { ConditionsAgree(t, c, m); }
      } else if PlainCounts(t, c) {
        if ValueOnly(t, i) {
          forall m: Counts ensures Different(t, c, m) == Bit(Val(t, c, m) != 0) { OneCount(t, c, m); }
        } else {
          CountsTell(t, i, c);
        }
      }
    } else {
      forall m: Counts ensures Truth(t, i, m) <==> Val(t, c, m) == t[i].op0 {}
    }
  }

  lemma {:induction false} ValueOnlyTruth(t: Table, i: nat, m: Counts)
    requires WellFormed(t) && i < |t| && t[i].kind == Eq && ValueOnly(t, i)
    ensures t[i].children[0] in t[i].children && (Truth(t, i, m) <==> Val(t, t[i].children[0], m) == t[i].op0)
  {
    ValueOnlyExact(t, i);
  }

  // The disjunction the negation of an equality builds, below or above its value, is the negation
  // exactly then.
  lemma {:induction false} NegationExact(t: Table, i: nat, a: nat, b: nat, r: nat)
    requires WellFormed(t) && i < |t| && t[i].kind == Eq && t[i].children[0] < |t|
    requires a < |t| && b < |t| && r < |t| && Disjoins(t, r, [a, b])
    requires LtMeans(t, a, t[i].children[0], t[i].op0) && GtMeans(t, b, t[i].children[0], t[i].op0)
    ensures Negates(t, r, i) <==> ValueOnly(t, i)
  {
    ValueOnlyExact(t, i);
    var c := t[i].children[0];
    hide ValueOnly;
    forall m: Counts ensures Truth(t, r, m) <==> Val(t, c, m) != t[i].op0 { NegatedAt(t, c, t[i].op0, a, b, r, m); }
    hide Val, LtMeans, GtMeans, Disjoins;
    if Negates(t, r, i) {
      forall m: Counts ensures Truth(t, i, m) <==> Val(t, c, m) == t[i].op0 {
        assert Truth(t, r, m) <==> !Truth(t, i, m);
      }
    }
  }

  lemma {:induction false} NegatedAt(t: Table, c: nat, v: u32, a: nat, b: nat, r: nat, m: Counts)
    requires Acyclic(t) && Arity(t) && c < |t| && a < |t| && b < |t| && r < |t|
    requires LtMeans(t, a, c, v) && GtMeans(t, b, c, v) && Disjoins(t, r, [a, b])
    ensures Truth(t, r, m) <==> Val(t, c, m) != v
  {
    hide Val, Truth;
    assert a in [a, b] && b in [a, b];
    assert AnyTrue(t, [a, b], m) <==> Truth(t, a, m) || Truth(t, b, m);
    assert Truth(t, a, m) <==> Val(t, c, m) < v;
    assert Truth(t, b, m) <==> Val(t, c, m) > v;
  }

  // ---- merging =X with =Y,Y ----

  // An =X or =Y,Y over the sum c.
  predicate Mergeable(t: Table, i: nat, c: nat) {
    i < |t| && SumEq(t, i) && t[i].children[0] == c && (t[i].op1 == ALL_ONES || t[i].op0 == t[i].op1)
  }

  // =X and =X,X over the same terms: the merged =X,X no longer constrains the total.
  predicate Clash(t: Table, a: nat, b: nat)
    requires a < |t| && b < |t|
  {
    && SumEq(t, a) && SumEq(t, b) && t[a].children == t[b].children
    && t[a].op1 == ALL_ONES && t[b].op0 == t[b].op1 == t[a].op0
    && t[b].op1 != ALL_ONES
  }

  // Where x different terms match, the total is x: always so for conditions, and for match counts just
  // when none match or there are not that many.
  ghost predicate KeepsTotal(t: Table, c: nat, x: u32)
    requires Acyclic(t) && Arity(t) && c < |t|
  {
    if Conditions(t, c) then true
    else if PlainCounts(t, c) then x == 0 || x > |t[c].children|
    else forall m: Counts :: Different(t, c, m) == x ==> Val(t, c, m) == x
  }

  ghost predicate Lossy(t: Table, a: nat, b: nat)
    requires Acyclic(t) && Arity(t) && a < |t| && b < |t|
  {
    Clash(t, a, b) && !KeepsTotal(t, t[a].children[0], t[a].op0)
  }

  lemma {:induction false} KeepsTotalExact(t: Table, c: nat, x: u32)
    requires WellFormed(t) && c < |t| && t[c].kind == AddBoth
    ensures KeepsTotal(t, c, x) <==> forall m: Counts :: Different(t, c, m) == x ==> Val(t, c, m) == x
  {
    if Conditions(t, c) {
      forall m: Counts ensures Val(t, c, m) == Different(t, c, m) { ConditionsAgree(t, c, m); }
    } else if PlainCounts(t, c) {
      if x == 0 || x > |t[c].children| {
        forall m: Counts | Different(t, c, m) == x ensures Val(t, c, m) == x {
          NoneNonzero(Vals(t, t[c].children, c, m));
        }
      } else {
        var vs := Ones(2, x, |t[c].children|);
        OnesTotal(vs[1..], x - 1);
        CountsGive(t, c, vs);
        var m := CountsFor(t, c, vs);
        assert Different(t, c, m) == x && Val(t, c, m) == x + 1;
      }
    }
  }

  // The merged equality says what the two say exactly unless it is lossy; it is always implied.
  lemma {:induction false} MergeExact(t: Table, n1: nat, n2: nat, e: nat, c: nat)
    requires WellFormed(t) && Mergeable(t, n1, c) && Mergeable(t, n2, c) && e < |t|
    requires t[n1].op1 == ALL_ONES && t[n2].op1 != ALL_ONES
    requires t[e] == Node(Eq, t[n1].op0, t[n2].op1, [c])
    ensures forall m: Counts :: Truth(t, n1, m) && Truth(t, n2, m) ==> Truth(t, e, m)
    ensures (forall m: Counts :: Truth(t, e, m) <==> Truth(t, n1, m) && Truth(t, n2, m)) <==> !Lossy(t, n1, n2)
  {
    var x, y := t[n1].op0, t[n2].op1;
    assert t[n1].children == [c] && t[n2].children == [c] && SumEq(t, e);
    forall m: Counts
      ensures Truth(t, n1, m) <==> Val(t, c, m) == x
      ensures Truth(t, n2, m) <==> Different(t, c, m) == y
      ensures Truth(t, e, m) <==> Different(t, c, m) == y && (x != y ==> Val(t, c, m) == x)
    {
      SumEqTruth(t, n1, m);
      SumEqTruth(t, n2, m);
      SumEqTruth(t, e, m);
    }
    KeepsTotalExact(t, c, x);
    hide Val, Different, KeepsTotal;
  }

  ghost predicate AndGuard(t: Table, ids: seq<nat>)
    requires Acyclic(t) && Arity(t) && In(t, ids)
  {
    forall i, j, a, b ::
      i in ids && j in ids && a in Atoms(t, i) && b in Atoms(t, j) ==> a <= i && b <= j && !Lossy(t, a, b)
  }

  // Where none match, or more than there are, the total is kept whatever the terms.
  lemma {:induction false} BeyondTerms(t: Table, c: nat, x: u32)
    requires WellFormed(t) && c < |t| && t[c].kind == AddBoth && |t[c].children| < TWO32
    requires x == 0 || x > |t[c].children|
    ensures KeepsTotal(t, c, x)
  {
    forall m: Counts | Different(t, c, m) == x ensures Val(t, c, m) == x {
      NoneNonzero(Vals(t, t[c].children, c, m));
    }
  }

  // ---- the numbers a conjunct may bring together ----

  // Totals X of conjuncts =X, and the numbers Y of conjuncts =Y,Y that do not keep the total.
  datatype Numbers = Numbers(totals: set<u32>, uniqs: set<u32>)

  function Both(a: Numbers, b: Numbers): Numbers { Numbers(a.totals + b.totals, a.uniqs + b.uniqs) }

  const NO_NUMBERS := Numbers({}, {})

  // No total of the one is a number of the other.
  predicate Apart(a: Numbers, b: Numbers) { a.totals !! b.uniqs && b.totals !! a.uniqs }

  ghost predicate Brings(t: Table, a: nat, ns: Numbers)
    requires Acyclic(t) && Arity(t) && a < |t|
  {
    SumEq(t, a) ==>
      if t[a].op1 == ALL_ONES then t[a].op0 in ns.totals
      else t[a].op0 == t[a].op1 && !KeepsTotal(t, t[a].children[0], t[a].op0) ==> t[a].op0 in ns.uniqs
  }

  ghost predicate NumbersIn(t: Table, i: nat, ns: Numbers)
    requires Acyclic(t) && Arity(t) && i < |t|
  {
    forall a :: a in Atoms(t, i) ==> a <= i && Brings(t, a, ns)
  }

  ghost predicate AllNumbersIn(t: Table, ids: seq<nat>, ns: Numbers)
    requires Acyclic(t) && Arity(t) && In(t, ids)
  {
    forall i :: i in ids ==> NumbersIn(t, i, ns)
  }

  // Joined with itself it loses nothing.
  ghost predicate Lossless(t: Table, i: nat)
    requires Acyclic(t) && Arity(t) && i < |t|
  {
    AndGuard(t, [i])
  }

  // No conjunct of the one is lossy with one of the other.
  ghost predicate Harmless(t: Table, i: nat, j: nat)
    requires Acyclic(t) && Arity(t) && i < |t| && j < |t|
  {
    forall a, b :: a in Atoms(t, i) && b in Atoms(t, j) ==> a <= i && b <= j && !Lossy(t, a, b)
  }

  lemma {:induction false} LosslessPairs(t: Table, i: nat)
    requires Acyclic(t) && Arity(t) && i < |t|
    ensures Lossless(t, i) <==> Harmless(t, i, i)
  {
    hide Lossy;
    assert i in [i];
  }

  lemma {:induction false} PairGuard(t: Table, i: nat, j: nat)
    requires Acyclic(t) && Arity(t) && i < |t| && j < |t|
    requires Harmless(t, i, i) && Harmless(t, i, j) && Harmless(t, j, i) && Harmless(t, j, j)
    ensures AndGuard(t, [i, j])
  {
    hide Lossy;
    forall x, y, a, b | x in [i, j] && y in [i, j] && a in Atoms(t, x) && b in Atoms(t, y)
      ensures a <= x && b <= y && !Lossy(t, a, b)
    {
      assert Harmless(t, x, y);
    }
  }

  lemma {:induction false} ApartHarmless(t: Table, i: nat, j: nat, ns: Numbers, ns': Numbers)
    requires Acyclic(t) && Arity(t) && i < |t| && j < |t| && NumbersIn(t, i, ns) && NumbersIn(t, j, ns')
    requires ns.totals !! ns'.uniqs
    ensures Harmless(t, i, j)
  {
    hide KeepsTotal;
    forall a, b | a in Atoms(t, i) && b in Atoms(t, j) ensures a <= i && b <= j && !Lossy(t, a, b) {
      assert Brings(t, a, ns) && Brings(t, b, ns');
    }
  }

  // Two conjuncts may be joined when each is lossless and their numbers are apart.
  lemma {:induction false} ApartGuard(t: Table, i: nat, j: nat, ns: Numbers, ns': Numbers)
    requires Acyclic(t) && Arity(t) && i < |t| && j < |t| && Lossless(t, i) && Lossless(t, j)
    requires NumbersIn(t, i, ns) && NumbersIn(t, j, ns') && Apart(ns, ns')
    ensures AndGuard(t, [i, j])
  {
    hide Harmless, NumbersIn, Lossless, AndGuard;
    LosslessPairs(t, i);
    LosslessPairs(t, j);
    ApartHarmless(t, i, j, ns, ns');
    ApartHarmless(t, j, i, ns', ns);
    PairGuard(t, i, j);
  }

  // Something lossless may be joined with what has no equality over a sum.
  lemma {:induction false} LosslessGuard(t: Table, i: nat, j: nat)
    requires Acyclic(t) && Arity(t) && i < |t| && j < |t| && Lossless(t, i) && SumFree(t, j)
    ensures AndGuard(t, [i, j])
  {
    LosslessPairs(t, i);
    SumFreeHarmless(t, i, j);
    hide Harmless, Lossless, AndGuard, SumFree;
    PairGuard(t, i, j);
  }

  lemma {:induction false} SumFreeHarmless(t: Table, i: nat, j: nat)
    requires Acyclic(t) && Arity(t) && i < |t| && j < |t| && Harmless(t, i, i) && SumFree(t, j)
    ensures Harmless(t, i, j) && Harmless(t, j, i) && Harmless(t, j, j)
  {
    hide KeepsTotal;
    forall a | a in Atoms(t, i) ensures a <= i { assert !Lossy(t, a, a); }
  }

  lemma {:induction false} NumbersWiden(t: Table, i: nat, ns: Numbers, ns': Numbers)
    requires Acyclic(t) && Arity(t) && i < |t| && NumbersIn(t, i, ns) && ns.totals <= ns'.totals && ns.uniqs <= ns'.uniqs
    ensures NumbersIn(t, i, ns')
  {
    forall a | a in Atoms(t, i) ensures a <= i && Brings(t, a, ns') { assert Brings(t, a, ns); }
  }

  // Without equalities over sums there are no numbers.
  lemma {:induction false} SumFreeNumbers(t: Table, i: nat, ns: Numbers)
    requires Acyclic(t) && Arity(t) && i < |t| && SumFree(t, i)
    ensures NumbersIn(t, i, ns) && Lossless(t, i)
  {
  }

  // ---- these conditions look only at existing entries ----

  lemma {:induction false} SumExtends(t: Table, t': Table, c: nat)
    requires Acyclic(t) && Arity(t) && Acyclic(t') && Arity(t') && t <= t' && c < |t|
    ensures forall m: Counts :: Val(t', c, m) == Val(t, c, m) && Different(t', c, m) == Different(t, c, m)
  {
    forall m: Counts ensures Val(t', c, m) == Val(t, c, m) && Different(t', c, m) == Different(t, c, m) {
      ValExtends(t, t', c, m);
      forall d | d in t[c].children ensures Val(t', d, m) == Val(t, d, m) { ValExtends(t, t', d, m); }
      assert Vals(t', t'[c].children, c, m) == Vals(t, t[c].children, c, m);
    }
  }

  lemma {:induction false} KeepsTotalExtends(t: Table, t': Table, c: nat, x: u32)
    requires Acyclic(t) && Arity(t) && Acyclic(t') && Arity(t') && t <= t' && c < |t|
    ensures KeepsTotal(t', c, x) <==> KeepsTotal(t, c, x)
  {
    SumExtends(t, t', c);
    hide Val, Different;
    assert Conditions(t', c) <==> Conditions(t, c);
    assert PlainCounts(t', c) <==> PlainCounts(t, c);
  }

  lemma {:induction false} SumEqExtends(t: Table, t': Table, a: nat)
    requires Acyclic(t) && t <= t' && a < |t|
    ensures SumEq(t', a) <==> SumEq(t, a)
  {
    if |t[a].children| == 1 { assert t[a].children[0] in t[a].children; }
  }

  lemma {:induction false} LossyExtends(t: Table, t': Table, a: nat, b: nat)
    requires Acyclic(t) && Arity(t) && Acyclic(t') && Arity(t') && t <= t' && a < |t| && b < |t|
    ensures Lossy(t', a, b) <==> Lossy(t, a, b)
  {
    SumEqExtends(t, t', a);
    SumEqExtends(t, t', b);
    if Clash(t, a, b) {
      assert t[a].children[0] in t[a].children;
      KeepsTotalExtends(t, t', t[a].children[0], t[a].op0);
    }
  }

  lemma {:induction false} ValueOnlyExtends(t: Table, t': Table, i: nat)
    requires Acyclic(t) && Arity(t) && Acyclic(t') && Arity(t') && t <= t' && i < |t| && t[i].kind == Eq
    ensures ValueOnly(t', i) <==> ValueOnly(t, i)
  {
    var c := t[i].children[0];
    assert c in t[i].children;
    SumExtends(t, t', c);
    SumExtends(t, t', i);
    hide Val, Different;
    assert Conditions(t', c) <==> Conditions(t, c);
    assert PlainCounts(t', c) <==> PlainCounts(t, c);
    assert Attains(t', c, t[i].op0) <==> Attains(t, c, t[i].op0);
    assert ValueSays(t', i) <==> ValueSays(t, i);
  }

  lemma {:induction false} BringsExtends(t: Table, t': Table, a: nat, ns: Numbers)
    requires Acyclic(t) && Arity(t) && Acyclic(t') && Arity(t') && t <= t' && a < |t|
    ensures Brings(t', a, ns) <==> Brings(t, a, ns)
  {
    SumEqExtends(t, t', a);
    if SumEq(t, a) {
      assert t[a].children[0] in t[a].children;
      KeepsTotalExtends(t, t', t[a].children[0], t[a].op0);
    }
  }

  lemma {:induction false} NumbersExtend(t: Table, t': Table, i: nat, ns: Numbers)
    requires Acyclic(t) && Arity(t) && Acyclic(t') && Arity(t') && t <= t' && i < |t|
    ensures NumbersIn(t, i, ns) ==> NumbersIn(t', i, ns)
    ensures Lossless(t, i) ==> Lossless(t', i)
  {
    hide Lossy, Brings;
    if NumbersIn(t, i, ns) {
      forall a | a in Atoms(t', i) ensures a <= i && Brings(t', a, ns) {
        assert Brings(t, a, ns);
        BringsExtends(t, t', a, ns);
      }
    }
    if Lossless(t, i) {
      assert i in [i];
      forall a, b | a in Atoms(t', i) && b in Atoms(t', i) ensures a <= i && b <= i && !Lossy(t', a, b) {
        assert !Lossy(t, a, b);
        LossyExtends(t, t', a, b);
      }
    }
  }
}

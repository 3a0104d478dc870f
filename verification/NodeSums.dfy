// Sums of counts: what an addition of two logical nodes comes to.
module NodeSums {
  import opened Words
  import opened LogicalNodes
  import opened NodeOrder
  import opened NodeRules

  // An addition ends in a node, is refused, or is built over a missing operand.
  datatype Addition = Entered(node: nat) | Mismatch | NullOperand

  // How far an addition is off: the left offset counts once more for every offset layer on the right.
  function Drift(t: Table, l: nat, r: nat): u32
    requires Downward(t) && l < |t| && r < |t|
    decreases r
  {
    if t[l].kind == Add && t[r].kind == Add && t[r].children != [] then
      assert t[r].children[0] in t[r].children;
      Plus(Drift(t, l, t[r].children[0]), t[l].op0)
    else 0
  }

  // Exact unless both sides carry an offset; with one layer on the right, exact just when the left
  // offset is nothing.
  lemma {:induction false} DriftFree(t: Table, l: nat, r: nat)
    requires Downward(t) && Arity(t) && l < |t| && r < |t|
    ensures t[l].kind != Add || t[r].kind != Add ==> Drift(t, l, r) == 0
    ensures t[l].kind == Add && t[r].kind == Add ==> t[r].children[0] in t[r].children
    ensures t[l].kind == Add && t[r].kind == Add && t[t[r].children[0]].kind != Add ==> Drift(t, l, r) == t[l].op0
  {
    if t[r].kind == Add { assert t[r].children[0] in t[r].children; }
  }

  // The total a term contributes.
  function Terms(t: Table, i: nat): seq<nat>
    requires i < |t|
  {
    if t[i].kind == AddSum || t[i].kind == AddUniq then t[i].children else [i]
  }

  ghost function Amount(t: Table, i: nat, m: Counts): nat
    requires Acyclic(t) && Arity(t) && i < |t| && In(t, Terms(t, i))
  {
    if t[i].kind == AddUniq then Matched(t, Terms(t, i), m) else Total(t, Terms(t, i), m)
  }

  lemma {:induction false} AmountOf(t: Table, i: nat, m: Counts)
    requires Acyclic(t) && Arity(t) && i < |t| && In(t, Terms(t, i))
    ensures Val(t, i, m) == Wrap(Amount(t, i, m))
  {
    if t[i].kind == AddSum || t[i].kind == AddUniq {
      TotalsOfVals(t, t[i].children, i, m);
    } else {
      assert Total(t, [i], m) == Val(t, i, m) + Total(t, [i][1..], m);
    }
  }

  // A sum node over the sorted terms of both sides: it is an AddUniq just when both sides are.
  ghost predicate SumOf(t: Table, s: nat, l: nat, r: nat)
    requires Acyclic(t) && Arity(t) && Downward(t) && l < |t| && r < |t| && s < |t|
  {
    && In(t, Terms(t, l)) && In(t, Terms(t, r)) && In(t, Terms(t, l) + Terms(t, r))
    && t[s].children == Sort(t, Terms(t, l) + Terms(t, r)) && In(t, t[s].children)
    && ((t[s].kind == t[l].kind == t[r].kind == AddUniq)
        || (t[s].kind == AddSum && t[l].kind != AddUniq && t[r].kind != AddUniq))
  }

  lemma {:induction false} AmountSum(t: Table, l: nat, r: nat, s: nat, m: Counts)
    requires Acyclic(t) && Arity(t) && Downward(t) && l < |t| && r < |t| && s < |t| && SumOf(t, s, l, r)
    ensures Amount(t, s, m) == Amount(t, l, m) + Amount(t, r, m)
  {
    SortTotal(t, Terms(t, l) + Terms(t, r), m);
    TotalAppend(t, Terms(t, l), Terms(t, r), m);
    assert Terms(t, s) == t[s].children;
  }

  lemma {:induction false} SumMeaningAt(t: Table, l: nat, r: nat, s: nat, m: Counts)
    requires Acyclic(t) && Arity(t) && Downward(t) && l < |t| && r < |t| && s < |t| && SumOf(t, s, l, r)
    ensures Val(t, s, m) == Plus(Plus(Val(t, l, m), Val(t, r, m)), 0)
  {
    hide Val, Amount, Sort, SumOf;
    AmountOf(t, l, m);
    AmountOf(t, r, m);
    AmountOf(t, s, m);
    AmountSum(t, l, r, s, m);
    WrapPlus(Amount(t, l, m), Amount(t, r, m));
  }

  lemma {:induction false} SumMeaning(t: Table, l: nat, r: nat, s: nat)
    requires Acyclic(t) && Arity(t) && Downward(t) && l < |t| && r < |t| && s < |t| && SumOf(t, s, l, r)
    ensures Adds(t, s, l, r, 0)
  {
    forall m: Counts ensures Val(t, s, m) == Plus(Plus(Val(t, l, m), Val(t, r, m)), 0) {
      SumMeaningAt(t, l, r, s, m);
    }
  }

  // The parts of a new sum: its terms exist and keep their order when the table grows.
  lemma {:induction false} NewSum(t0: Table, t: Table, l: nat, r: nat, s: nat, kind: Kind)
    requires WellFormed(t0) && WellFormed(t) && t0 <= t && Downward(t0) && l < |t0| && r < |t0| && s < |t|
    requires In(t0, Terms(t0, l) + Terms(t0, r))
    requires t[s] == Plain(kind, ALL_ONES, Sort(t0, Terms(t0, l) + Terms(t0, r)))
    requires (kind == t0[l].kind == t0[r].kind == AddUniq)
          || (kind == AddSum && t0[l].kind != AddUniq && t0[r].kind != AddUniq)
    ensures Downward(t) && SumOf(t, s, l, r)
  {
    var terms := Terms(t0, l) + Terms(t0, r);
    assert Downward(t);
    assert Terms(t, l) == Terms(t0, l) && Terms(t, r) == Terms(t0, r);
    assert forall c :: c in Terms(t, l) || c in Terms(t, r) ==> c in terms;
    SortExtends(t0, t, terms);
  }

  ghost predicate Adds(t: Table, s: nat, l: nat, r: nat, drift: u32)
    requires Acyclic(t) && Arity(t) && s < |t| && l < |t| && r < |t|
  {
    forall m: Counts :: Val(t, s, m) == Plus(Plus(Val(t, l, m), Val(t, r, m)), drift)
  }

  // Offset node s over the inner sum n of l and the child of r.
  lemma {:induction false} OffsetMeaning(t: Table, l: nat, r: nat, n: nat, s: nat, drift: u32, off: u32)
    requires WellFormed(t) && l < |t| && r < |t| && n < |t| && s < |t|
    requires t[r].kind == Add && t[r].children[0] in t[r].children
    requires t[s] == Plain(Add, Plus(t[r].op0, off), [n])
    requires Adds(t, n, l, t[r].children[0], drift)
    ensures Adds(t, s, l, r, Plus(drift, off))
  {
    var c := t[r].children[0];
    forall m: Counts ensures Val(t, s, m) == Plus(Plus(Val(t, l, m), Val(t, r, m)), Plus(drift, off)) {
      assert n in t[s].children && Val(t, s, m) == Plus(Val(t, n, m), t[s].op0) && Val(t, r, m) == Plus(Val(t, c, m), t[r].op0);
      hide Val, Canonical;
      assert Val(t, n, m) == Plus(Plus(Val(t, l, m), Val(t, c, m)), drift);
      Rearranged(Val(t, l, m), Val(t, c, m), drift, t[r].op0, off);
    }
  }

  lemma {:induction false} Rearranged(a: u32, b: u32, d: u32, x: u32, y: u32)
    ensures Plus(Plus(Plus(a, b), d), Plus(x, y)) == Plus(Plus(a, Plus(b, x)), Plus(d, y))
  {
  }

  lemma {:induction false} AddsExtends(t: Table, t': Table, s: nat, l: nat, r: nat, drift: u32)
    requires Acyclic(t) && Arity(t) && Acyclic(t') && Arity(t') && t <= t' && s < |t| && l < |t| && r < |t|
    requires Adds(t, s, l, r, drift)
    ensures Adds(t', s, l, r, drift)
  {
    forall m: Counts ensures Val(t', s, m) == Plus(Plus(Val(t', l, m), Val(t', r, m)), drift) {
      ValExtends(t, t', s, m);
      ValExtends(t, t', l, m);
      ValExtends(t, t', r, m);
    }
  }

  lemma {:induction false} AddsCommutes(t: Table, s: nat, l: nat, r: nat)
    requires Acyclic(t) && Arity(t) && s < |t| && l < |t| && r < |t| && Adds(t, s, l, r, 0)
    ensures Adds(t, s, r, l, 0)
  {
  }

  lemma {:induction false} TermsIn(t: Table, l: nat, r: nat)
    requires WellFormed(t) && l < |t| && r < |t|
    ensures Downward(t) && In(t, Terms(t, l) + Terms(t, r))
  {
  }

  // ---- one node for one bag of terms ----

  // The children are the given bag of terms in order.
  ghost predicate Collects(t: Table, s: nat, kind: Kind, terms: multiset<nat>)
    requires Downward(t)
  {
    s < |t| && exists xs: seq<nat> :: In(t, xs) && multiset(xs) == terms && t[s] == Plain(kind, ALL_ONES, Sort(t, xs))
  }

  // In whatever order and grouping default terms were added, uniquing gives one node.
  lemma {:induction false} OneSum(t: Table, a: nat, b: nat, kind: Kind, terms: multiset<nat>)
    requires Downward(t) && Unique(t) && Collects(t, a, kind, terms) && Collects(t, b, kind, terms)
    requires forall x :: x in terms ==> x < |t| && DefaultTree(t, x)
    ensures a == b
  {
    var xs: seq<nat> :| In(t, xs) && multiset(xs) == terms && t[a] == Plain(kind, ALL_ONES, Sort(t, xs));
    var ys: seq<nat> :| In(t, ys) && multiset(ys) == terms && t[b] == Plain(kind, ALL_ONES, Sort(t, ys));
    forall x | x in xs ensures x in terms { assert x in multiset(xs); }
    SortCanonical(t, xs, ys);
    SameEntry(t, a, b);
  }

  lemma {:induction false} SameEntry(t: Table, a: nat, b: nat)
    requires Unique(t) && a < |t| && b < |t| && t[a] == t[b]
    ensures a == b
  {
  }

  lemma {:induction false} CollectsExtends(t: Table, t': Table, s: nat, kind: Kind, terms: multiset<nat>)
    requires Downward(t) && Downward(t') && t <= t' && Collects(t, s, kind, terms)
    ensures Collects(t', s, kind, terms)
  {
    var xs: seq<nat> :| In(t, xs) && multiset(xs) == terms && t[s] == Plain(kind, ALL_ONES, Sort(t, xs));
    SortExtends(t, t', xs);
    assert In(t', xs) && t'[s] == Plain(kind, ALL_ONES, Sort(t', xs));
  }

  // A sum has the terms it collects, so that adding further collects them too.
  lemma {:induction false} CollectedTerms(t: Table, s: nat, kind: Kind, terms: multiset<nat>)
    requires Downward(t) && Collects(t, s, kind, terms) && (kind == AddSum || kind == AddUniq)
    ensures multiset(Terms(t, s)) == terms
  {
    var xs: seq<nat> :| In(t, xs) && multiset(xs) == terms && t[s] == Plain(kind, ALL_ONES, Sort(t, xs));
  }

  // (x + y) + z and x + (y + z) are the same node.
  lemma {:induction false} SumsAssociate(t: Table, kind: Kind, x: nat, y: nat, z: nat, xy: nat, yz: nat, a: nat, b: nat)
    requires Downward(t) && Unique(t) && x < |t| && y < |t| && z < |t| && (kind == AddSum || kind == AddUniq)
    requires Collects(t, xy, kind, multiset(Terms(t, x)) + multiset(Terms(t, y)))
    requires Collects(t, yz, kind, multiset(Terms(t, y)) + multiset(Terms(t, z)))
    requires Collects(t, a, kind, multiset(Terms(t, xy)) + multiset(Terms(t, z)))
    requires Collects(t, b, kind, multiset(Terms(t, x)) + multiset(Terms(t, yz)))
    requires forall c :: c in Terms(t, x) || c in Terms(t, y) || c in Terms(t, z) ==> c < |t| && DefaultTree(t, c)
    ensures a == b
  {
    hide Terms, Collects, DefaultTree, Sort;
    var p, q, r := multiset(Terms(t, x)), multiset(Terms(t, y)), multiset(Terms(t, z));
    CollectedTerms(t, xy, kind, p + q);
    CollectedTerms(t, yz, kind, q + r);
    forall c | c in p + q + r ensures c < |t| && DefaultTree(t, c) {
      assert c in p || c in q || c in r;
      assert c in Terms(t, x) || c in Terms(t, y) || c in Terms(t, z);
    }
    assert (p + q) + r == p + (q + r);
    OneSum(t, a, b, kind, p + q + r);
  }

  lemma {:induction false} NewCollects(t0: Table, t: Table, l: nat, r: nat, s: nat, kind: Kind)
    requires Downward(t0) && Downward(t) && t0 <= t && l < |t0| && r < |t0| && s < |t|
    requires In(t0, Terms(t0, l) + Terms(t0, r)) && In(t, Terms(t0, l) + Terms(t0, r))
    requires t[s] == Plain(kind, ALL_ONES, Sort(t0, Terms(t0, l) + Terms(t0, r)))
    ensures Collects(t, s, kind, multiset(Terms(t, l)) + multiset(Terms(t, r)))
  {
    var xs := Terms(t0, l) + Terms(t0, r);
    SortExtends(t0, t, xs);
    assert multiset(xs) == multiset(Terms(t, l)) + multiset(Terms(t, r));
  }

  // What entering a sum gives: it adds both sides, and collects their terms.
  lemma {:induction false} SumEnterable(t: Table, l: nat, r: nat, kind: Kind)
    requires WellFormed(t) && l < |t| && r < |t| && Additive(kind) && Downward(t) && In(t, Terms(t, l) + Terms(t, r))
    ensures Enterable(t, Plain(kind, ALL_ONES, Sort(t, Terms(t, l) + Terms(t, r))))
  {
    hide Canonical, Sort, Terms;
  }

  lemma {:induction false} SumEntered(t0: Table, t: Table, l: nat, r: nat, s: nat, kind: Kind)
    requires WellFormed(t0) && WellFormed(t) && t0 <= t && Downward(t0) && l < |t0| && r < |t0| && s < |t|
    requires In(t0, Terms(t0, l) + Terms(t0, r))
    requires t[s] == Plain(kind, ALL_ONES, Sort(t0, Terms(t0, l) + Terms(t0, r)))
    requires (kind == t0[l].kind == t0[r].kind == AddUniq)
          || (kind == AddSum && t0[l].kind != AddUniq && t0[r].kind != AddUniq)
    ensures Downward(t) && Adds(t, s, l, r, 0) && Collects(t, s, kind, multiset(Terms(t, l)) + multiset(Terms(t, r)))
  {
    NewSum(t0, t, l, r, s, kind);
    SumMeaning(t, l, r, s);
    NewCollects(t0, t, l, r, s, kind);
  }

  lemma {:induction false} BagsCommute(t: Table, l: nat, r: nat)
    requires l < |t| && r < |t|
    ensures multiset(Terms(t, l)) + multiset(Terms(t, r)) == multiset(Terms(t, r)) + multiset(Terms(t, l))
  {
  }

  // Sums that are added without an offset, and what comes of it.
  predicate Addable(t: Table, l: nat, r: nat)
    requires l < |t| && r < |t|
  {
    || (t[l].kind == AddUniq && t[r].kind == AddUniq)
    || ((t[l].kind == SubSignature || t[l].kind == AddSum) && (t[r].kind == SubSignature || t[r].kind == AddSum))
  }

  function SumKind(t: Table, l: nat): Kind
    requires l < |t|
  {
    if t[l].kind == AddUniq then AddUniq else AddSum
  }
}

// The table of logical nodes behind a signature, and what its entries mean for a vector of match counts.
module LogicalNodes {
  import opened Words

  datatype Kind =
    | SubSignature | And | Or | Eq | Gt | Lt
    | AddBoth                          // total of the matches and number of different signatures matched
    | Not | True | False | Add         // folded away before printing
    | AddSum                           // total of the counts
    | AddUniq                          // number of different signatures matched

  // Children are positions in the table, so a node is named by its position alone.
  datatype Node = Node(kind: Kind, op0: u32, op1: u32, children: seq<nat>)

  function Plain(kind: Kind, op0: u32, children: seq<nat>): Node {
    Node(kind, op0, ALL_ONES, children)
  }

  type Table = seq<Node>

  // Match counts by signature number; a signature without an entry never matched.
  type Counts = seq<u32>

  function Count(m: Counts, sig: u32): u32 { if sig < |m| then m[sig] else 0 }

  predicate Unary(k: Kind) { k == Eq || k == Gt || k == Lt || k == Not || k == Add }

  predicate Connective(k: Kind) { k == And || k == Or }

  predicate Constant(k: Kind) { k == True || k == False }

  predicate Additive(k: Kind) { k == AddSum || k == AddUniq || k == AddBoth }

  ghost predicate Acyclic(t: Table) {
    forall i, c :: 0 <= i < |t| && c in t[i].children ==> c < i
  }

  ghost predicate Arity(t: Table) {
    forall i :: 0 <= i < |t| && Unary(t[i].kind) ==> |t[i].children| == 1
  }

  // Connectives are flat, have two or more distinct operands, and never a constant one.
  ghost predicate FlatAt(t: Table, i: nat)
    requires Acyclic(t) && i < |t|
  {
    Connective(t[i].kind) ==>
      && |t[i].children| >= 2
      && Unique(t[i].children)
      && forall c :: c in t[i].children ==> c < i && t[c].kind != t[i].kind && !Constant(t[c].kind)
  }

  // Ordered compares have had their offset and their trivial bound folded away.
  ghost predicate FoldedAt(t: Table, i: nat)
    requires Acyclic(t) && Arity(t) && i < |t|
  {
    t[i].kind == Gt || t[i].kind == Lt ==>
      t[i].op0 != 0 && t[i].children[0] in t[i].children && t[t[i].children[0]].kind != Add
  }

  // No two entries have the same kind, operands and children: equal positions are equal expressions.
  ghost predicate Canonical(t: Table)
    requires Acyclic(t) && Arity(t)
  {
    Unique(t) && forall i :: 0 <= i < |t| ==> FlatAt(t, i) && FoldedAt(t, i)
  }

  ghost predicate WellFormed(t: Table) {
    Acyclic(t) && Arity(t) && Canonical(t)
  }

  // No sum has more than one term, so nothing is added up.
  ghost predicate OneTerm(t: Table) {
    forall i :: 0 <= i < |t| && Additive(t[i].kind) ==> |t[i].children| <= 1
  }

  // The table grew, without any sum of several terms.
  ghost predicate Grown(t: Table, t': Table) { t <= t' && (OneTerm(t) ==> OneTerm(t')) }

  // ---- meaning ----

  ghost function Val(t: Table, i: nat, m: Counts): u32
    requires Acyclic(t) && Arity(t) && i < |t|
    decreases i, 1
  {
    var n := t[i];
    if n.kind == SubSignature then Count(m, n.op0)
    else if n.kind == True then 1
    else if n.kind == False then 0
    else if n.kind == And then Bit(forall c :: c in n.children ==> Val(t, c, m) != 0)
    else if n.kind == Or then Bit(exists c :: c in n.children && Val(t, c, m) != 0)
    else if n.kind == AddUniq then Wrap(Nonzero(Vals(t, n.children, i, m)))
    else if n.kind == AddSum || n.kind == AddBoth then Wrap(Sum(Vals(t, n.children, i, m)))
    else
      assert Unary(n.kind);
      var c := n.children[0];
      assert c in n.children;
      var v := Val(t, c, m);
      if n.kind == Not then Bit(v == 0)
      else if n.kind == Gt then Bit(v > n.op0)
      else if n.kind == Lt then Bit(v < n.op0)
      else if n.kind == Add then Plus(v, n.op0)
      else if t[c].kind == AddBoth && n.op1 != ALL_ONES then
        // =Y,Y constrains only the number of different signatures, =X,Y constrains both
        Bit(Wrap(Nonzero(Vals(t, t[c].children, c, m))) == n.op1 && (n.op0 != n.op1 ==> v == n.op0))
      else
        Bit(v == n.op0)
  }

  // The values of a list of entries below a bound.
  ghost function Vals(t: Table, ids: seq<nat>, bound: nat, m: Counts): (vs: seq<u32>)
    requires Acyclic(t) && Arity(t) && bound <= |t|
    requires forall c :: c in ids ==> c < bound
    ensures |vs| == |ids| && forall k :: 0 <= k < |ids| ==> ids[k] in ids && vs[k] == Val(t, ids[k], m)
    decreases bound, 0
  {
    seq(|ids|, k requires 0 <= k < |ids| => assert ids[k] in ids; Val(t, ids[k], m))
  }

  ghost predicate Truth(t: Table, i: nat, m: Counts)
    requires Acyclic(t) && Arity(t) && i < |t|
  {
    Val(t, i, m) != 0
  }

  ghost predicate In(t: Table, ids: seq<nat>) {
    forall i :: i in ids ==> i < |t|
  }

  ghost predicate AllTrue(t: Table, ids: seq<nat>, m: Counts)
    requires Acyclic(t) && Arity(t) && In(t, ids)
  {
    forall i :: i in ids ==> Truth(t, i, m)
  }

  ghost predicate AnyTrue(t: Table, ids: seq<nat>, m: Counts)
    requires Acyclic(t) && Arity(t) && In(t, ids)
  {
    exists i :: i in ids && Truth(t, i, m)
  }

  ghost predicate SameVals(t: Table, t': Table, ids: seq<nat>, m: Counts)
    requires Acyclic(t) && Arity(t) && Acyclic(t') && Arity(t') && In(t, ids) && In(t', ids)
  {
    forall c :: c in ids ==> Val(t', c, m) == Val(t, c, m)
  }

  // Appending entries changes no existing meaning.
  lemma {:induction false} ValExtends(t: Table, t': Table, i: nat, m: Counts)
    requires Acyclic(t) && Arity(t) && Acyclic(t') && Arity(t')
    requires t <= t' && i < |t|
    ensures Val(t', i, m) == Val(t, i, m)
    decreases i
  {
    var n := t[i];
    assert t'[i] == n;
    forall c | c in n.children ensures Val(t', c, m) == Val(t, c, m) {
      ValExtends(t, t', c, m);
    }
    assert SameVals(t, t', n.children, m);
    if Additive(n.kind) {
      assert Vals(t', n.children, i, m) == Vals(t, n.children, i, m);
    } else if Unary(n.kind) {
      var c := n.children[0];
      assert c in n.children;
      forall d | d in t[c].children ensures Val(t', d, m) == Val(t, d, m) {
        ValExtends(t, t', d, m);
      }
      UnaryExtends(t, t', i, m);
    }
  }

  lemma {:induction false} UnaryExtends(t: Table, t': Table, i: nat, m: Counts)
    requires Acyclic(t) && Arity(t) && Acyclic(t') && Arity(t')
    requires t <= t' && i < |t| && Unary(t[i].kind)
    requires t[i].children[0] in t[i].children
    requires SameVals(t, t', t[i].children, m)
    requires SameVals(t, t', t[t[i].children[0]].children, m)
    ensures Val(t', i, m) == Val(t, i, m)
  {
    var c := t[i].children[0];
    assert t'[i] == t[i] && t'[c] == t[c];
    assert Vals(t', t[c].children, c, m) == Vals(t, t[c].children, c, m);
  }

  lemma {:induction false} AllExtend(t: Table, t': Table)
    requires Acyclic(t) && Arity(t) && Acyclic(t') && Arity(t') && t <= t'
    ensures forall i: nat, m: Counts :: i < |t| ==> Val(t', i, m) == Val(t, i, m)
  {
    forall i: nat, m: Counts | i < |t| ensures Val(t', i, m) == Val(t, i, m) {
      ValExtends(t, t', i, m);
    }
  }

  // ---- what a node built from others promises, for every vector of match counts ----

  ghost predicate EqMeans(t: Table, r: nat, i: nat, v: u32)
    requires Acyclic(t) && Arity(t) && r < |t| && i < |t|
  {
    forall m: Counts :: Truth(t, r, m) <==> Val(t, i, m) == v
  }

  ghost predicate LtMeans(t: Table, r: nat, i: nat, v: u32)
    requires Acyclic(t) && Arity(t) && r < |t| && i < |t|
  {
    forall m: Counts :: Truth(t, r, m) <==> Val(t, i, m) < v
  }

  ghost predicate LtCovers(t: Table, r: nat, i: nat, v: u32)
    requires Acyclic(t) && Arity(t) && r < |t| && i < |t|
  {
    forall m: Counts :: Val(t, i, m) < v ==> Truth(t, r, m)
  }

  ghost predicate GtMeans(t: Table, r: nat, i: nat, v: u32)
    requires Acyclic(t) && Arity(t) && r < |t| && i < |t|
  {
    forall m: Counts :: Truth(t, r, m) <==> Val(t, i, m) > v
  }

  ghost predicate GtCovers(t: Table, r: nat, i: nat, v: u32)
    requires Acyclic(t) && Arity(t) && r < |t| && i < |t|
  {
    forall m: Counts :: Val(t, i, m) > v ==> Truth(t, r, m)
  }

  ghost predicate RangeMeans(t: Table, r: nat, i: nat, lo: u32, hi: u32)
    requires Acyclic(t) && Arity(t) && r < |t| && i < |t|
  {
    forall m: Counts :: Truth(t, r, m) <==> lo <= Val(t, i, m) <= hi
  }

  ghost predicate RangeCovers(t: Table, r: nat, i: nat, lo: u32, hi: u32)
    requires Acyclic(t) && Arity(t) && r < |t| && i < |t|
  {
    forall m: Counts :: lo <= Val(t, i, m) <= hi ==> Truth(t, r, m)
  }

  ghost predicate Negates(t: Table, r: nat, i: nat)
    requires Acyclic(t) && Arity(t) && r < |t| && i < |t|
  {
    forall m: Counts :: Truth(t, r, m) <==> !Truth(t, i, m)
  }

  ghost predicate Conjoins(t: Table, r: nat, ids: seq<nat>)
    requires Acyclic(t) && Arity(t) && r < |t| && In(t, ids)
  {
    forall m: Counts :: Truth(t, r, m) <==> AllTrue(t, ids, m)
  }

  ghost predicate Implied(t: Table, r: nat, ids: seq<nat>)
    requires Acyclic(t) && Arity(t) && r < |t| && In(t, ids)
  {
    forall m: Counts :: AllTrue(t, ids, m) ==> Truth(t, r, m)
  }

  ghost predicate Disjoins(t: Table, r: nat, ids: seq<nat>)
    requires Acyclic(t) && Arity(t) && r < |t| && In(t, ids)
  {
    forall m: Counts :: Truth(t, r, m) <==> AnyTrue(t, ids, m)
  }

  // ---- conjuncts and the =X / =Y,Y modifiers ----

  function Atoms(t: Table, i: nat): seq<nat>
    requires i < |t|
  {
    if t[i].kind == And then t[i].children else [i]
  }

  // An equality over AddBoth, the only kind of conjunct that may be merged with another.
  predicate SumEq(t: Table, i: nat)
    requires i < |t|
  {
    t[i].kind == Eq && |t[i].children| == 1 && t[i].children[0] < |t| && t[t[i].children[0]].kind == AddBoth
  }

  ghost predicate SumFree(t: Table, i: nat)
    requires Acyclic(t) && i < |t|
  {
    forall a :: a in Atoms(t, i) ==> a <= i && !SumEq(t, a)
  }

  // The number of different terms of a sum that matched.
  ghost function Different(t: Table, c: nat, m: Counts): u32
    requires Acyclic(t) && Arity(t) && c < |t|
  {
    Wrap(Nonzero(Vals(t, t[c].children, c, m)))
  }

  lemma {:induction false} SumEqTruth(t: Table, i: nat, m: Counts)
    requires Acyclic(t) && Arity(t) && i < |t| && SumEq(t, i)
    ensures var c := t[i].children[0];
      c < i &&
      (Truth(t, i, m) <==>
        if t[i].op1 == ALL_ONES then Val(t, c, m) == t[i].op0
        else Different(t, c, m) == t[i].op1 && (t[i].op0 != t[i].op1 ==> Val(t, c, m) == t[i].op0))
  {
    assert t[i].children[0] in t[i].children;
  }
}

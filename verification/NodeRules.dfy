// When the smart constructors are exact, and the facts about tables their proofs share.
module NodeRules {
  import opened Words
  import opened LogicalNodes
  import opened WrappedRanges
  import opened SumModifiers

  // ---- when a constructor is exact: conditions on its arguments, checkable before the call ----

  predicate EqGuard(t: Table, i: nat, v: u32)
    requires i < |t|
  {
    // =~0,~0 would read as =~0 on the total
    if t[i].kind == Add && |t[i].children| == 1 && t[i].children[0] < |t| then
      t[t[i].children[0]].kind == AddUniq ==> Minus(v, t[i].op0) != ALL_ONES
    else
      t[i].kind == AddUniq ==> v != ALL_ONES
  }

  ghost predicate LtGuard(t: Table, i: nat, v: u32)
    requires Acyclic(t) && Arity(t) && i < |t|
    decreases i, 0
  {
    v == 0 || t[i].kind != Add ||
    (var c := t[i].children[0];
     var r := Below(v).Subtract(t[i].op0);
     assert c in t[i].children;
     LtFolds(t[i].op0, v) && RangeGuard(t, c, r.Min(), r.Max()))
  }

  ghost predicate GtGuard(t: Table, i: nat, v: u32)
    requires Acyclic(t) && Arity(t) && i < |t|
    decreases i, 0
  {
    v == 0 || t[i].kind != Add ||
    (var c := t[i].children[0];
     var r := Above(v).Subtract(t[i].op0);
     assert c in t[i].children;
     GtFolds(t[i].op0, v) && RangeGuard(t, c, r.Min(), r.Max()))
  }

  ghost predicate RangeGuard(t: Table, i: nat, lo: u32, hi: u32)
    requires Acyclic(t) && Arity(t) && i < |t|
    decreases i, 1
  {
    && SumFree(t, i)
    && (lo != 0 ==> GtGuard(t, i, lo - 1))
    && (hi != ALL_ONES ==> LtGuard(t, i, hi + 1))
  }

  // The kinds a negation is defined for.
  ghost predicate Negatable(t: Table, i: nat)
    requires Acyclic(t) && i < |t|
  {
    if Connective(t[i].kind) then forall c :: c in t[i].children ==> Negatable(t, c)
    else t[i].kind != Add && !Additive(t[i].kind)
  }

  // A negation is exact unless it meets a modifier that says more than the value or an inexact compare.
  ghost predicate NotGuard(t: Table, i: nat)
    requires Acyclic(t) && Arity(t) && i < |t|
  {
    if Connective(t[i].kind) then forall c :: c in t[i].children ==> NotGuard(t, c)
    else if Unary(t[i].kind) then
      var c := t[i].children[0];
      assert c in t[i].children;
      if t[i].kind == Eq then
        ValueOnly(t, i) && SumFree(t, c) && LtGuard(t, c, t[i].op0) && GtGuard(t, c, t[i].op0)
      else if t[i].kind == Not then SumFree(t, c)
      else EqGuard(t, c, t[i].op0)
    else true
  }

  lemma {:induction false} ConnectiveParts(t: Table, i: nat)
    requires WellFormed(t) && i < |t| && Connective(t[i].kind)
    ensures |t[i].children| >= 2 && In(t, t[i].children) && forall c :: c in t[i].children ==> c < i
  {
    assert FlatAt(t, i);
  }

  lemma {:induction false} ConnectiveGuards(t: Table, i: nat)
    requires Acyclic(t) && Arity(t) && i < |t| && Connective(t[i].kind)
    ensures NotGuard(t, i) <==> forall c :: c in t[i].children ==> NotGuard(t, c)
    ensures Negatable(t, i) <==> forall c :: c in t[i].children ==> Negatable(t, c)
  {
  }

  lemma {:induction false} OrderGuards(t: Table, i: nat)
    requires WellFormed(t) && i < |t| && (t[i].kind == Gt || t[i].kind == Lt)
    ensures var c := t[i].children[0];
      c in t[i].children && c < i && t[c].kind != Add && t[i].op0 != 0 && (NotGuard(t, i) ==> EqGuard(t, c, t[i].op0))
  {
    assert FoldedAt(t, i) && t[i].children[0] in t[i].children;
  }

  // A record that may be entered: its children exist and it is in folded form.
  ghost predicate Enterable(t: Table, n: Node)
    requires WellFormed(t)
  {
    && (forall c :: c in n.children ==> c < |t|)
    && (Unary(n.kind) ==> |n.children| == 1)
    && (Connective(n.kind) ==>
          && |n.children| >= 2 && Unique(n.children)
          && forall c :: c in n.children ==> t[c].kind != n.kind && !Constant(t[c].kind))
    && (n.kind == Gt || n.kind == Lt ==>
          n.op0 != 0 && n.children[0] in n.children && t[n.children[0]].kind != Add)
  }

  lemma {:induction false} AppendKeepsForm(t: Table, n: Node)
    requires WellFormed(t) && Enterable(t, n) && n !in t
    ensures WellFormed(t + [n])
  {
    var t' := t + [n];
    assert t'[|t|] == n && forall i :: 0 <= i < |t| ==> t'[i] == t[i];
    forall i | 0 <= i < |t'| ensures FlatAt(t', i) && FoldedAt(t', i) {
      if i < |t| { assert FlatAt(t, i) && FoldedAt(t, i); }
    }
  }

  ghost predicate SetTrue(t: Table, s: set<nat>, m: Counts)
    requires Acyclic(t) && Arity(t) && forall i :: i in s ==> i < |t|
  {
    forall i :: i in s ==> Truth(t, i, m)
  }

  ghost predicate SetAny(t: Table, s: set<nat>, m: Counts)
    requires Acyclic(t) && Arity(t) && forall i :: i in s ==> i < |t|
  {
    exists i :: i in s && Truth(t, i, m)
  }

  function Elements(xs: seq<nat>): (s: set<nat>)
    ensures forall x :: x in xs <==> x in s
  {
    set x | x in xs
  }

  lemma {:induction false} TwoElements(xs: seq<nat>, s: set<nat>)
    requires |xs| >= 2 && Unique(xs) && forall x :: x in xs ==> x in s
    ensures |s| >= 2
  {
    assert xs[0] in s && xs[1] in s && xs[0] != xs[1];
    assert {xs[0], xs[1]} <= s;
    SubsetSize({xs[0], xs[1]}, s);
  }

  // The flattened terms of the operands ids of a disjunction.
  ghost predicate TermsOf(t: Table, ids: seq<nat>, nodes: set<nat>)
    requires WellFormed(t) && In(t, ids)
  {
    && (forall c :: c in nodes ==> c < |t| && t[c].kind != Or && !Constant(t[c].kind))
    && (forall m: Counts :: SetAny(t, nodes, m) <==> AnyTrue(t, ids, m))
    && (forall c :: c in nodes ==> c in ids || |nodes| >= 2)
    && (forall i :: i in ids && t[i].kind != Or ==> i in nodes || Constant(t[i].kind))
  }

  function OrTermsAfter(t: Table, nodes: set<nat>, s: nat): set<nat>
    requires s < |t|
  {
    if t[s].kind == Or then nodes + Elements(t[s].children)
    else if t[s].kind == False then nodes else nodes + {s}
  }

  lemma {:induction false} OrStep(t: Table, nodes: set<nat>, done: seq<nat>, s: nat)
    requires WellFormed(t) && s < |t| && In(t, done) && TermsOf(t, done, nodes) && t[s].kind != True
    ensures In(t, done + [s]) && TermsOf(t, done + [s], OrTermsAfter(t, nodes, s))
  {
    hide Val, Truth, AnyTrue, SetAny;
    var after := OrTermsAfter(t, nodes, s);
    OrTermsFlat(t, nodes, done, s, after);
    forall m: Counts ensures SetAny(t, after, m) <==> AnyTrue(t, done + [s], m) {
      assert SetAny(t, nodes, m) <==> AnyTrue(t, done, m);
      OrStepMeaning(t, nodes, after, done, s, m);
    }
  }

  lemma {:induction false} OrTermsFlat(t: Table, nodes: set<nat>, done: seq<nat>, s: nat, after: set<nat>)
    requires WellFormed(t) && s < |t| && t[s].kind != True && after == OrTermsAfter(t, nodes, s)
    requires (forall c :: c in nodes ==> c < |t| && t[c].kind != Or && !Constant(t[c].kind))
    requires (forall c :: c in nodes ==> c in done || |nodes| >= 2)
    requires (forall i :: i in done ==> i < |t| && (t[i].kind != Or ==> i in nodes || Constant(t[i].kind)))
    ensures (forall c :: c in after ==> c < |t| && t[c].kind != Or && !Constant(t[c].kind))
    ensures (forall c :: c in after ==> c in done + [s] || |after| >= 2)
    ensures (forall i :: i in done + [s] ==> i < |t| && (t[i].kind != Or ==> i in after || Constant(t[i].kind)))
  {
    assert FlatAt(t, s);
    hide Canonical;
    SubsetSize(nodes, after);
    if t[s].kind == Or { TwoElements(t[s].children, after); }
  }

  // One more operand of a disjunction taken into the set of terms.
  lemma {:induction false} OrStepMeaning(t: Table, before: set<nat>, after: set<nat>, done: seq<nat>, s: nat, m: Counts)
    requires Acyclic(t) && Arity(t) && s < |t| && In(t, done) && In(t, done + [s])
    requires (forall i :: i in before ==> i < |t|) && (forall i :: i in after ==> i < |t|)
    requires after == OrTermsAfter(t, before, s)
    requires SetAny(t, before, m) <==> AnyTrue(t, done, m)
    ensures SetAny(t, after, m) <==> AnyTrue(t, done + [s], m)
  {
    if SetAny(t, after, m) {
      var c :| c in after && Truth(t, c, m);
      if c in before {
        var d :| d in done && Truth(t, d, m);
        assert d in done + [s];
      } else {
        assert Truth(t, s, m);
        assert s in done + [s];
      }
    }
    if AnyTrue(t, done + [s], m) {
      var d :| d in done + [s] && Truth(t, d, m);
      if d in done {
        var c :| c in before && Truth(t, c, m);
        assert c in after;
      } else if t[s].kind == Or {
        var c :| c in t[s].children && Val(t, c, m) != 0;
        assert c in after && Truth(t, c, m);
      } else {
        assert s in after;
      }
    }
  }

  lemma {:induction false} OrResult(t0: Table, ids: seq<nat>, nodes: set<nat>, t: Table, r: nat)
    requires WellFormed(t0) && In(t0, ids) && WellFormed(t) && t0 <= t && r < |t| && In(t, ids) && TermsOf(t0, ids, nodes)
    requires forall m: Counts :: Truth(t, r, m) <==> SetAny(t, nodes, m)
    ensures Disjoins(t, r, ids)
  {
    hide Val, Canonical;
    AllExtend(t0, t);
    forall m: Counts ensures Truth(t, r, m) <==> AnyTrue(t, ids, m) {
      assert SetAny(t0, nodes, m) <==> AnyTrue(t0, ids, m);
      assert AnyTrue(t, ids, m) <==> AnyTrue(t0, ids, m);
      assert SetAny(t, nodes, m) <==> SetAny(t0, nodes, m);
    }
  }

  lemma {:induction false} OrTermsIn(t: Table, ids: seq<nat>, nodes: set<nat>)
    requires WellFormed(t) && In(t, ids) && TermsOf(t, ids, nodes)
    ensures forall c :: c in nodes ==> c < |t| && t[c].kind != Or && !Constant(t[c].kind)
  {
  }

  lemma {:induction false} TopDisjoins(t: Table, ids: seq<nat>, r: nat)
    requires Acyclic(t) && Arity(t) && In(t, ids) && r in ids && t[r].kind == True
    ensures Disjoins(t, r, ids)
  {
    forall m: Counts ensures Truth(t, r, m) && AnyTrue(t, ids, m) {}
  }

  // No operand is a disjunction itself.
  ghost predicate NoneNested(t: Table, ids: seq<nat>) { forall i :: i in ids ==> i < |t| && t[i].kind != Or }

  // Every operand is FALSE or the term b.
  ghost predicate OnlyTerm(t: Table, ids: seq<nat>, b: nat) {
    b < |t| && t[b].kind != Or && !Constant(t[b].kind) && forall i :: i in ids ==> i == b || (i < |t| && t[i].kind == False)
  }

  lemma {:induction false} OnlyTermOf(t: Table, ids: seq<nat>, nodes: set<nat>, b: nat)
    requires WellFormed(t) && In(t, ids) && TermsOf(t, ids, nodes) && b in ids && OnlyTerm(t, ids, b)
    requires NoneNested(t, ids) ==> forall c :: c in nodes ==> c in ids
    ensures nodes == {b} && |nodes| == 1
  {
    assert nodes == {b};
  }

  lemma {:induction false} TwoTermsOf(t: Table, ids: seq<nat>, nodes: set<nat>)
    requires WellFormed(t) && In(t, ids) && TermsOf(t, ids, nodes)
    requires |ids| == 2 && ids[0] != ids[1] && forall i :: i in ids ==> t[i].kind != Or && !Constant(t[i].kind)
    ensures |nodes| >= 2
  {
    assert ids[0] in ids && ids[1] in ids;
    TwoElements(ids, nodes);
  }

  lemma {:induction false} OneTermOf(t: Table, ids: seq<nat>, nodes: set<nat>, r: nat)
    requires WellFormed(t) && In(t, ids) && TermsOf(t, ids, nodes) && |nodes| == 1 && nodes == {r}
    ensures r in ids
  {
    assert r in nodes;
  }

  // The equality node r was built for entry i after stripping one offset and going over to AddBoth.
  lemma {:induction false} EqBuilt(t: Table, i: nat, value: u32, base: nat, v: u32, node: nat, uniq: u32, r: nat)
    requires Acyclic(t) && Arity(t) && i < |t| && base < |t| && node < |t| && r < |t|
    requires if t[i].kind == Add then base == t[i].children[0] && v == Minus(value, t[i].op0) else base == i && v == value
    requires uniq == if t[base].kind == AddUniq then v else ALL_ONES
    requires if t[base].kind == AddUniq || t[base].kind == AddSum
             then t[node].kind == AddBoth && t[node].children == t[base].children
             else node == base
    requires t[r] == Node(Eq, v, uniq, [node])
    ensures EqGuard(t, i, value) ==> EqMeans(t, r, i, value)
  {
    hide Val, Sum, Nonzero;
    if EqGuard(t, i, value) {
      forall m: Counts ensures Truth(t, r, m) <==> Val(t, i, m) == value {
        OffsetStripped(t, i, value, base, v, m);
        EqOverBase(t, base, v, node, uniq, r, m);
      }
    }
  }

  lemma {:induction false} OffsetStripped(t: Table, i: nat, value: u32, base: nat, v: u32, m: Counts)
    requires Acyclic(t) && Arity(t) && i < |t| && base < |t|
    requires if t[i].kind == Add then base == t[i].children[0] && v == Minus(value, t[i].op0) else base == i && v == value
    ensures Val(t, i, m) == value <==> Val(t, base, m) == v
  {
    if t[i].kind == Add { assert base in t[i].children; }
  }

  lemma {:induction false} EqOverBase(t: Table, base: nat, v: u32, node: nat, uniq: u32, r: nat, m: Counts)
    requires Acyclic(t) && Arity(t) && base < |t| && node < |t| && r < |t|
    requires uniq == if t[base].kind == AddUniq then v else ALL_ONES
    requires t[base].kind == AddUniq ==> v != ALL_ONES
    requires if t[base].kind == AddUniq || t[base].kind == AddSum
             then t[node].kind == AddBoth && t[node].children == t[base].children
             else node == base
    requires t[r] == Node(Eq, v, uniq, [node])
    ensures Truth(t, r, m) <==> Val(t, base, m) == v
  {
    hide Sum, Nonzero;
    assert Vals(t, t[node].children, node, m) == Vals(t, t[base].children, base, m);
    if t[base].kind == AddUniq {
      SumEqTruth(t, r, m);
    } else {
      assert Val(t, node, m) == Val(t, base, m);
      assert node in t[r].children;
    }
  }

  // What a connective over a set of terms means: none, one or more of them.
  lemma {:induction false} NoneConnected(t: Table, r: nat, kind: Kind)
    requires Acyclic(t) && Arity(t) && r < |t| && Connective(kind) && t[r].kind == if kind == And then True else False
    ensures forall m: Counts :: Truth(t, r, m) <==> if kind == And then SetTrue(t, {}, m) else SetAny(t, {}, m)
  {
  }

  lemma {:induction false} OneConnected(t: Table, r: nat, kind: Kind)
    requires Acyclic(t) && Arity(t) && r < |t| && Connective(kind)
    ensures forall m: Counts :: Truth(t, r, m) <==> if kind == And then SetTrue(t, {r}, m) else SetAny(t, {r}, m)
  {
  }

  lemma {:induction false} AllConnected(t: Table, r: nat, kind: Kind, terms: set<nat>)
    requires Acyclic(t) && Arity(t) && r < |t| && Connective(kind) && t[r].kind == kind && Elements(t[r].children) == terms
    requires forall c :: c in terms ==> c < |t|
    ensures forall m: Counts :: Truth(t, r, m) <==> if kind == And then SetTrue(t, terms, m) else SetAny(t, terms, m)
  {
    forall m: Counts ensures Truth(t, r, m) <==> if kind == And then SetTrue(t, terms, m) else SetAny(t, terms, m) {
      assert forall c :: c in t[r].children <==> c in terms;
    }
  }

  // ---- conjunctions ----

  // An operand a conjunction node may hold.
  ghost predicate AndTerm(t: Table, i: nat) { i < |t| && t[i].kind != And && !Constant(t[i].kind) }

  ghost predicate AllTerms(t: Table, s: set<nat>) { forall i :: i in s ==> i < |t| && AndTerm(t, i) }

  ghost predicate NoLoss(t: Table, ids: seq<nat>)
    requires Acyclic(t) && Arity(t) && In(t, ids)
  {
    forall a, b :: a in ids && b in ids ==> !Lossy(t, a, b)
  }

  ghost predicate AtomOf(t: Table, ids: seq<nat>, a: nat)
    requires In(t, ids)
  {
    exists i :: i in ids && a in Atoms(t, i)
  }

  type Sums = map<nat, seq<nat>>

  ghost predicate SumsIn(t: Table, sums: Sums) {
    forall c, s :: c in sums && s in sums[c] ==> s < |t|
  }

  ghost predicate SumsTrue(t: Table, sums: Sums, keys: set<nat>, m: Counts)
    requires Acyclic(t) && Arity(t) && keys <= sums.Keys && SumsIn(t, sums)
  {
    forall c, s :: c in keys && s in sums[c] ==> Truth(t, s, m)
  }

  // What the worklist of a conjunction keeps: the operands ids are the pending entries, the plain
  // terms and the equalities set aside by the sum they constrain.
  ghost predicate ConjunctsOf(t: Table, ids: seq<nat>, pending: seq<nat>, others: set<nat>, sums: Sums)
    requires WellFormed(t) && In(t, ids)
  {
    && In(t, pending)
    && (forall c :: c in others ==> AndTerm(t, c))
    && SumsIn(t, sums) && (forall c, s :: c in sums && s in sums[c] ==> Mergeable(t, s, c))
    && (forall m: Counts :: AllTrue(t, ids, m) <==>
          AllTrue(t, pending, m) && SetTrue(t, others, m) && SumsTrue(t, sums, sums.Keys, m))
    && (forall p, a :: p in pending && a in Atoms(t, p) ==> AtomOf(t, ids, a))
    && (forall c :: c in others ==> AtomOf(t, ids, c))
    && (forall c, s :: c in sums && s in sums[c] ==> AtomOf(t, ids, s))
    && (forall c :: c in sums ==> sums[c] != [])
  }

  // No term of the conjunction is dropped on the way.
  ghost predicate NoneDropped(t: Table, ids: seq<nat>, pending: seq<nat>, others: set<nat>, sums: Sums)
    requires In(t, ids) && In(t, pending)
  {
    forall a :: AtomOf(t, ids, a) && AndTerm(t, a) ==> Somewhere(t, a, pending, others, sums)
  }

  ghost predicate Somewhere(t: Table, a: nat, pending: seq<nat>, others: set<nat>, sums: Sums)
    requires In(t, pending)
  {
    a in others || AtomOf(t, pending, a) || exists c :: c in sums && a in sums[c]
  }

  function SetAside(sums: Sums, c: nat, s: nat): Sums {
    sums[c := (if c in sums then sums[c] else []) + [s]]
  }

  lemma {:induction false} AndStepNested(t: Table, ids: seq<nat>, pending: seq<nat>, s: nat, others: set<nat>, sums: Sums)
    requires WellFormed(t) && In(t, ids) && In(t, pending + [s]) && ConjunctsOf(t, ids, pending + [s], others, sums)
    requires s < |t| && t[s].kind == And
    ensures In(t, pending + t[s].children) && ConjunctsOf(t, ids, pending + t[s].children, others, sums)
  {
    var next := pending + t[s].children;
    assert s in pending + [s];
    assert forall p :: p in pending ==> p in pending + [s];
    assert FlatAt(t, s);
    forall m: Counts ensures AllTrue(t, pending + [s], m) <==> AllTrue(t, next, m) {
      if AllTrue(t, pending + [s], m) {
        assert Truth(t, s, m);
        forall c | c in next ensures Truth(t, c, m) {
          if c in pending { assert c in pending + [s]; }
        }
      }
      if AllTrue(t, next, m) {
        assert forall c :: c in t[s].children ==> c in next && Truth(t, c, m);
        assert Truth(t, s, m);
        assert forall c :: c in pending ==> c in next;
      }
    }
    forall p, a | p in next && a in Atoms(t, p) ensures AtomOf(t, ids, a) {
      if p in pending {
        assert p in pending + [s];
      } else {
        assert t[p].kind != And && p in Atoms(t, s);
      }
    }
  }

  lemma {:induction false} AndStepTerm(t: Table, ids: seq<nat>, pending: seq<nat>, s: nat, others: set<nat>, sums: Sums)
    requires WellFormed(t) && In(t, ids) && In(t, pending + [s]) && ConjunctsOf(t, ids, pending + [s], others, sums)
    requires s < |t| && (AndTerm(t, s) || t[s].kind == True)
    ensures In(t, pending)
    ensures ConjunctsOf(t, ids, pending, if t[s].kind == True then others else others + {s}, sums)
  {
    assert s in pending + [s] && s in Atoms(t, s);
    assert forall p :: p in pending ==> p in pending + [s];
    var next := if t[s].kind == True then others else others + {s};
    forall m: Counts
      ensures AllTrue(t, pending + [s], m) && SetTrue(t, others, m) <==> AllTrue(t, pending, m) && SetTrue(t, next, m)
    {
      if AllTrue(t, pending, m) && SetTrue(t, next, m) { assert Truth(t, s, m); }
    }
  }

  lemma {:induction false} AndStepSum(t: Table, ids: seq<nat>, pending: seq<nat>, s: nat, others: set<nat>,
      sums: Sums, c: nat)
    requires WellFormed(t) && In(t, ids) && In(t, pending + [s]) && ConjunctsOf(t, ids, pending + [s], others, sums)
    requires Mergeable(t, s, c)
    ensures In(t, pending)
    ensures ConjunctsOf(t, ids, pending, others, SetAside(sums, c, s))
  {
    assert s in pending + [s] && s in Atoms(t, s);
    assert forall p :: p in pending ==> p in pending + [s];
    var next := SetAside(sums, c, s);
    assert s in next[c];
    assert forall d, x :: d in next && x in next[d] ==> (x == s && d == c) || (d in sums && x in sums[d]);
    forall m: Counts
      ensures AllTrue(t, pending + [s], m) && SumsTrue(t, sums, sums.Keys, m)
         <==> AllTrue(t, pending, m) && SumsTrue(t, next, next.Keys, m)
    {
      if AllTrue(t, pending, m) && SumsTrue(t, next, next.Keys, m) {
        assert Truth(t, s, m);
        forall d, x | d in sums && x in sums[d] ensures Truth(t, x, m) { assert d in next && x in next[d]; }
      }
    }
  }

  lemma {:induction false} NoneDroppedNested(t: Table, ids: seq<nat>, pending: seq<nat>, s: nat, others: set<nat>,
      sums: Sums)
    requires WellFormed(t) && In(t, ids) && In(t, pending + [s]) && NoneDropped(t, ids, pending + [s], others, sums)
    requires s < |t| && t[s].kind == And && In(t, pending + t[s].children)
    ensures NoneDropped(t, ids, pending + t[s].children, others, sums)
  {
    var next := pending + t[s].children;
    assert FlatAt(t, s);
    forall a | AtomOf(t, ids, a) && AndTerm(t, a) ensures Somewhere(t, a, next, others, sums) {
      assert Somewhere(t, a, pending + [s], others, sums);
      if AtomOf(t, pending + [s], a) {
        var p :| p in pending + [s] && a in Atoms(t, p);
        if p in pending { assert p in next; } else { assert a in next && a in Atoms(t, a); }
      }
    }
  }

  lemma {:induction false} NoneDroppedStep(t: Table, ids: seq<nat>, pending: seq<nat>, s: nat, others: set<nat>,
      sums: Sums,
                      others': set<nat>, sums': Sums)
    requires WellFormed(t) && In(t, ids) && In(t, pending + [s]) && NoneDropped(t, ids, pending + [s], others, sums)
    requires s < |t| && t[s].kind != And && In(t, pending) && others <= others'
    requires forall c, x :: c in sums && x in sums[c] ==> c in sums' && x in sums'[c]
    requires t[s].kind == True || s in others' || exists c :: c in sums' && s in sums'[c]
    ensures NoneDropped(t, ids, pending, others', sums')
  {
    forall a | AtomOf(t, ids, a) && AndTerm(t, a) ensures Somewhere(t, a, pending, others', sums') {
      assert Somewhere(t, a, pending + [s], others, sums);
      if AtomOf(t, pending + [s], a) {
        var p :| p in pending + [s] && a in Atoms(t, p);
        if p in pending { assert AtomOf(t, pending, a); } else { assert a == s; }
      }
    }
  }

  // A conjunction of conditions that match at most once, or of two different terms that are no
  // equalities, is a conjunction or one of these.
  ghost predicate Joins(t: Table, ids: seq<nat>)
    requires In(t, ids)
  {
    || (forall i :: i in ids ==> t[i].kind == And || t[i].kind == Eq || t[i].kind == Gt || t[i].kind == Lt)
    || (|ids| == 2 && ids[0] != ids[1] && forall i :: i in ids ==> AndTerm(t, i) && t[i].kind != Eq)
  }

  lemma {:induction false} NoFalse(t: Table, ids: seq<nat>, s: nat)
    requires WellFormed(t) && In(t, ids) && ids != [] && AtomOf(t, ids, s) && t[s].kind == False
    ensures !Joins(t, ids)
  {
    var i :| i in ids && s in Atoms(t, i);
    assert FlatAt(t, i);
  }

  lemma {:induction false} StartConjuncts(t: Table, ids: seq<nat>)
    requires WellFormed(t) && In(t, ids)
    ensures ConjunctsOf(t, ids, ids, {}, map[]) && NoneDropped(t, ids, ids, {}, map[])
  {
  }

  // FALSE among the operands settles the conjunction.
  lemma {:induction false} FalseConjunct(t: Table, ids: seq<nat>, pending: seq<nat>, s: nat, others: set<nat>, sums: Sums)
    requires WellFormed(t) && In(t, ids) && In(t, pending + [s]) && ConjunctsOf(t, ids, pending + [s], others, sums)
    requires s < |t| && t[s].kind == False
    ensures forall m: Counts :: !AllTrue(t, ids, m)
    ensures ids != [] ==> !Joins(t, ids)
  {
    assert s in pending + [s] && s in Atoms(t, s);
    forall m: Counts ensures !AllTrue(t, ids, m) { assert !Truth(t, s, m); }
    if ids != [] { NoFalse(t, ids, s); }
  }

  // Placed terms: the plain ones, and equalities besides.
  ghost predicate WithEqs(t: Table, others: set<nat>, out: set<nat>) {
    others <= out && forall c :: c in out ==> c in others || (c < |t| && t[c].kind == Eq)
  }

  ghost predicate HasEq(t: Table, out: set<nat>) { exists c :: c in out && c < |t| && t[c].kind == Eq }

  lemma {:induction false} PlacedNothing(t: Table, others: set<nat>, out: set<nat>, t': Table)
    requires t <= t'
    ensures WithEqs(t', out, out)
  {
  }

  lemma {:induction false} MergeableEq(t: Table, i: nat, c: nat)
    requires Mergeable(t, i, c)
    ensures t[i].kind == Eq
  {
  }

  lemma {:induction false} PlacedEq(t: Table, others: set<nat>, out: set<nat>, t': Table, e: nat)
    requires WithEqs(t, others, out) && t <= t' && e < |t'| && t'[e].kind == Eq
    ensures WithEqs(t', others, out + {e}) && HasEq(t', out + {e})
  {
    assert e in out + {e};
  }

  lemma {:induction false} PlacedEqs(t: Table, others: set<nat>, out: set<nat>, c: nat, eqs: seq<nat>)
    requires WithEqs(t, others, out) && AllMergeable(t, eqs, c)
    ensures WithEqs(t, others, out + Elements(eqs))
    ensures eqs != [] || HasEq(t, out) ==> HasEq(t, out + Elements(eqs))
  {
    if eqs != [] { assert eqs[0] in eqs && eqs[0] in out + Elements(eqs); }
    else { assert out + Elements(eqs) == out; }
  }

  lemma {:induction false} PlacedMore(t: Table, others: set<nat>, mid: set<nat>, t': Table, out: set<nat>)
    requires WithEqs(t, others, mid) && t <= t' && WithEqs(t', mid, out)
    ensures WithEqs(t', others, out) && (HasEq(t, mid) ==> HasEq(t', out))
  {
    if HasEq(t, mid) { var c :| c in mid && c < |t| && t[c].kind == Eq; assert c in out && t'[c].kind == Eq; }
  }

  lemma {:induction false} PlacedTerm(t0: Table, ids: seq<nat>, others: set<nat>, sums: Sums, out: set<nat>,
      t: Table, a: nat)
    requires WellFormed(t0) && In(t0, ids) && WellFormed(t) && t0 <= t
    requires ConjunctsOf(t0, ids, [], others, sums) && NoneDropped(t0, ids, [], others, sums)
    requires WithEqs(t, others, out) && (sums != map[] ==> HasEq(t, out))
    requires AtomOf(t0, ids, a) && AndTerm(t0, a)
    ensures a in out || HasEq(t, out)
  {
    assert Somewhere(t0, a, [], others, sums);
  }

  lemma {:induction false} TwoTerms(t: Table, ids: seq<nat>) returns (a: nat, b: nat)
    requires WellFormed(t) && In(t, ids) && ids != [] && Joins(t, ids)
    ensures AtomOf(t, ids, a) && AtomOf(t, ids, b) && AndTerm(t, a) && AndTerm(t, b)
    ensures a == b ==> t[a].kind == Eq || t[a].kind == Gt || t[a].kind == Lt
  {
    a, b := ids[0], ids[0];
    assert a in ids;
    if t[ids[0]].kind == And {
      assert FlatAt(t, ids[0]);
      a, b := t[ids[0]].children[0], t[ids[0]].children[1];
      assert a in Atoms(t, ids[0]) && b in Atoms(t, ids[0]);
    } else {
      if |ids| == 2 { b := ids[1]; assert b in ids; }
      if t[b].kind == And { b := a; }
      assert b in ids && a in Atoms(t, a) && b in Atoms(t, b);
    }
  }

  lemma {:induction false} JoinedKind(t0: Table, ids: seq<nat>, others: set<nat>, sums: Sums, out: set<nat>,
      t: Table, r: nat)
    requires WellFormed(t0) && In(t0, ids) && ids != [] && WellFormed(t) && t0 <= t && r < |t| && Joins(t0, ids)
    requires ConjunctsOf(t0, ids, [], others, sums) && NoneDropped(t0, ids, [], others, sums)
    requires WithEqs(t, others, out) && (sums != map[] ==> HasEq(t, out))
    requires |out| == 1 ==> out == {r}
    requires |out| > 1 ==> t[r].kind == And
    ensures t[r].kind == And || t[r].kind == Eq || t[r].kind == Gt || t[r].kind == Lt
  {
    var a, b := TwoTerms(t0, ids);
    hide Joins, Canonical;
    hide ConjunctsOf, NoneDropped;
    PlacedTerm(t0, ids, others, sums, out, t, a);
    PlacedTerm(t0, ids, others, sums, out, t, b);
    if HasEq(t, out) {
      var e :| e in out && e < |t| && t[e].kind == Eq;
      OnlyElement(out, e);
    } else {
      OnlyElement(out, a);
      if a != b { SubsetSize({a, b}, out); }
    }
  }

  lemma {:induction false} OnlyElement(s: set<nat>, e: nat)
    requires e in s
    ensures |s| >= 1 && (|s| == 1 ==> s == {e})
  {
    SubsetSize({e}, s);
  }

  // The work left on a conjunction's worklist.
  function Weight(t: Table, ids: seq<nat>): nat {
    if ids == [] then 0
    else (if ids[0] < |t| && t[ids[0]].kind == And then |t[ids[0]].children| + 1 else 1) + Weight(t, ids[1..])
  }

  lemma {:induction false} WeightAppend(t: Table, a: seq<nat>, b: seq<nat>)
    ensures Weight(t, a + b) == Weight(t, a) + Weight(t, b)
  {
    if a == [] {
      assert a + b == b;
    } else {
      assert (a + b)[0] == a[0] && (a + b)[1..] == a[1..] + b;
      WeightAppend(t, a[1..], b);
    }
  }

  lemma {:induction false} WeightStep(t: Table, rest: seq<nat>, s: nat)
    requires WellFormed(t) && s < |t|
    ensures Weight(t, rest) < Weight(t, rest + [s])
    ensures t[s].kind == And ==> Weight(t, rest + t[s].children) < Weight(t, rest + [s])
  {
    WeightAppend(t, rest, [s]);
    assert Weight(t, [s]) == (if t[s].kind == And then |t[s].children| + 1 else 1) + Weight(t, [s][1..]);
    if t[s].kind == And {
      assert FlatAt(t, s);
      WeightAppend(t, rest, t[s].children);
      WeightFlat(t, t[s].children);
    }
  }

  lemma {:induction false} WeightFlat(t: Table, ids: seq<nat>)
    requires forall i :: i in ids ==> i < |t| && t[i].kind != And
    ensures Weight(t, ids) == |ids|
  {
    if ids != [] {
      assert ids[0] in ids;
      assert forall i :: i in ids[1..] ==> i in ids;
      WeightFlat(t, ids[1..]);
    }
  }

  // ---- merging =X with =Y,Y ----

  ghost predicate AllMergeable(t: Table, ids: seq<nat>, c: nat) {
    forall i :: i in ids ==> Mergeable(t, i, c)
  }

  ghost predicate Together(t: Table, out: set<nat>, eqs: seq<nat>, m: Counts)
    requires Acyclic(t) && Arity(t) && In(t, eqs) && AllTerms(t, out)
  {
    SetTrue(t, out, m) && AllTrue(t, eqs, m)
  }

  // Waiting equalities over c: the totals =X and the distinct counts =Y,Y.
  ghost predicate Waiting(t: Table, totals: seq<nat>, uniqs: seq<nat>, c: nat)
  {
    && AllMergeable(t, totals, c) && AllMergeable(t, uniqs, c) && In(t, totals) && In(t, uniqs)
    && (forall i :: i in totals ==> i < |t| && t[i].op1 == ALL_ONES)
    && (forall i :: i in uniqs ==> i < |t| && t[i].op1 != ALL_ONES)
  }

  // Terms placed, totals and distinct counts still to place.
  ghost predicate Holding(t: Table, out: set<nat>, totals: seq<nat>, uniqs: seq<nat>, m: Counts)
    requires Acyclic(t) && Arity(t) && In(t, totals) && In(t, uniqs) && AllTerms(t, out)
  {
    SetTrue(t, out, m) && AllTrue(t, totals, m) && AllTrue(t, uniqs, m)
  }

  // The placing loop: nothing that held is lost, and nothing is forgotten when no two numbers are lossy together.
  ghost predicate Placing(t0: Table, others: set<nat>, totals0: seq<nat>, uniqs0: seq<nat>,
                           t: Table, out: set<nat>, totals: seq<nat>, uniqs: seq<nat>, c: nat, exact: bool)
    requires WellFormed(t0) && WellFormed(t)
  {
    && Waiting(t0, totals0, uniqs0, c) && AllTerms(t0, others)
    && Waiting(t, totals, uniqs, c) && AllTerms(t, out)
    && (forall i :: i in totals ==> i in totals0) && (forall i :: i in uniqs ==> i in uniqs0)
    && (exact ==> forall a, b :: a in totals0 && b in uniqs0 ==> !Lossy(t0, a, b))
    && (forall m: Counts :: Holding(t0, others, totals0, uniqs0, m) ==> Holding(t, out, totals, uniqs, m))
    && (exact ==> forall m: Counts :: Holding(t, out, totals, uniqs, m) ==> Holding(t0, others, totals0, uniqs0, m))
  }

  // The next of the waiting equalities.
  lemma {:induction false} PlacingHeads(t0: Table, others: set<nat>, totals0: seq<nat>, uniqs0: seq<nat>,
                           t: Table, out: set<nat>, totals: seq<nat>, uniqs: seq<nat>, c: nat, exact: bool)
    requires WellFormed(t0) && WellFormed(t) && Placing(t0, others, totals0, uniqs0, t, out, totals, uniqs, c, exact)
    ensures AllTerms(t, out) && AllMergeable(t, uniqs, c)
    ensures totals != [] ==> Mergeable(t, totals[0], c)
    ensures uniqs != [] ==> Mergeable(t, uniqs[|uniqs| - 1], c)
  {
    assert totals != [] ==> totals[0] in totals;
    assert uniqs != [] ==> uniqs[|uniqs| - 1] in uniqs;
  }

  lemma {:induction false} StartPlacing(t: Table, others: set<nat>, totals: seq<nat>, uniqs: seq<nat>, c: nat,
      eqs: seq<nat>)
    requires WellFormed(t) && Waiting(t, totals, uniqs, c) && AllTerms(t, others) && In(t, eqs)
    requires forall i :: i in eqs <==> i in totals || i in uniqs
    ensures Placing(t, others, totals, uniqs, t, others, totals, uniqs, c, NoLoss(t, eqs))
  {
  }

  lemma {:induction false} MergePlacing(t0: Table, others: set<nat>, totals0: seq<nat>, uniqs0: seq<nat>,
                      t: Table, out: set<nat>, n1: nat, totals: seq<nat>, n2: nat, uniqs: seq<nat>,
                      t': Table, e: nat, c: nat, exact: bool)
    requires WellFormed(t0) && WellFormed(t) && WellFormed(t') && t0 <= t <= t'
    requires Placing(t0, others, totals0, uniqs0, t, out, [n1] + totals, uniqs + [n2], c, exact)
    requires n1 < |t| && n2 < |t| && e < |t'| && t'[e] == Node(Eq, t[n1].op0, t[n2].op1, [c])
    ensures Placing(t0, others, totals0, uniqs0, t', out + {e}, totals, uniqs, c, exact)
  {
    assert n1 in [n1] + totals && n2 in uniqs + [n2];
    assert forall i :: i in totals ==> i in [n1] + totals;
    assert forall i :: i in uniqs ==> i in uniqs + [n2];
    assert Mergeable(t, n1, c) && Mergeable(t, n2, c);
    assert exact ==> !Lossy(t0, n1, n2);
    if exact { LossyExtends(t0, t', n1, n2); }
    assert AllTerms(t', out + {e}) && Waiting(t', totals, uniqs, c);
    forall m: Counts
      ensures Holding(t, out, [n1] + totals, uniqs + [n2], m) ==> Holding(t', out + {e}, totals, uniqs, m)
      ensures exact && Holding(t', out + {e}, totals, uniqs, m) ==> Holding(t, out, [n1] + totals, uniqs + [n2], m)
    {
      MergedHolding(t, out, n1, totals, n2, uniqs, t', e, c, m);
    }
  }

  lemma {:induction false} MergedHolding(t: Table, out: set<nat>, n1: nat, totals: seq<nat>, n2: nat, uniqs: seq<nat>,
                      t': Table, e: nat, c: nat, m: Counts)
    requires WellFormed(t) && WellFormed(t') && t <= t' && AllTerms(t, out) && AllTerms(t', out + {e})
    requires Waiting(t, [n1] + totals, uniqs + [n2], c) && Waiting(t, totals, uniqs, c) && Waiting(t', totals, uniqs, c)
    requires n1 < |t| && n2 < |t| && Mergeable(t', n1, c) && Mergeable(t', n2, c)
    requires t[n1].op1 == ALL_ONES && t[n2].op1 != ALL_ONES
    requires e < |t'| && t'[e] == Node(Eq, t[n1].op0, t[n2].op1, [c])
    ensures Holding(t, out, [n1] + totals, uniqs + [n2], m) ==> Holding(t', out + {e}, totals, uniqs, m)
    ensures !Lossy(t', n1, n2) && Holding(t', out + {e}, totals, uniqs, m) ==>
      Holding(t, out, [n1] + totals, uniqs + [n2], m)
  {
    AllExtend(t, t');
    MergeExact(t', n1, n2, e, c);
    assert forall i :: i in totals ==> i in [n1] + totals;
    assert forall i :: i in uniqs ==> i in uniqs + [n2];
    if Holding(t, out, [n1] + totals, uniqs + [n2], m) {
      assert n1 in [n1] + totals && n2 in uniqs + [n2];
      assert Truth(t, n1, m) && Truth(t, n2, m);
    }
    if !Lossy(t', n1, n2) && Holding(t', out + {e}, totals, uniqs, m) {
      assert e in out + {e} && Truth(t', e, m);
      assert Truth(t, n1, m) && Truth(t, n2, m);
      forall i | i in [n1] + totals ensures Truth(t, i, m) { if i != n1 { assert i in totals; } }
      forall i | i in uniqs + [n2] ensures Truth(t, i, m) { if i != n2 { assert i in uniqs; } }
      forall i | i in out ensures Truth(t, i, m) { assert i in out + {e}; }
    }
  }

  lemma {:induction false} PlaceOne(t0: Table, others: set<nat>, totals0: seq<nat>, uniqs0: seq<nat>,
                      t: Table, out: set<nat>, n: nat, totals: seq<nat>, uniqs: seq<nat>, c: nat, exact: bool)
    requires WellFormed(t0) && WellFormed(t)
    requires Placing(t0, others, totals0, uniqs0, t, out, [n] + totals, uniqs, c, exact)
    ensures Placing(t0, others, totals0, uniqs0, t, out + {n}, totals, uniqs, c, exact)
  {
    assert n in [n] + totals && Mergeable(t, n, c);
    assert forall i :: i in totals ==> i in [n] + totals;
    forall m: Counts
      ensures Holding(t, out, [n] + totals, uniqs, m) <==> Holding(t, out + {n}, totals, uniqs, m)
    {
      assert n in out + {n};
      assert forall i :: i in [n] + totals ==> i == n || i in totals;
    }
  }

  lemma {:induction false} PlaceRest(t0: Table, others: set<nat>, totals0: seq<nat>, uniqs0: seq<nat>,
                  t: Table, out: set<nat>, uniqs: seq<nat>, c: nat, exact: bool, eqs: seq<nat>)
    requires WellFormed(t0) && WellFormed(t) && In(t0, eqs)
    requires Placing(t0, others, totals0, uniqs0, t, out, [], uniqs, c, exact)
    requires forall i :: i in eqs <==> i in totals0 || i in uniqs0
    ensures AllTerms(t, out + Elements(uniqs))
    ensures forall m: Counts :: Together(t0, others, eqs, m) ==> SetTrue(t, out + Elements(uniqs), m)
    ensures exact ==> forall m: Counts :: SetTrue(t, out + Elements(uniqs), m) ==> Together(t0, others, eqs, m)
  {
    forall m: Counts
      ensures Together(t0, others, eqs, m) ==> SetTrue(t, out + Elements(uniqs), m)
      ensures exact && SetTrue(t, out + Elements(uniqs), m) ==> Together(t0, others, eqs, m)
    {
      if Together(t0, others, eqs, m) { assert Holding(t0, others, totals0, uniqs0, m); }
      if exact && SetTrue(t, out + Elements(uniqs), m) {
        assert forall i :: i in out || i in uniqs ==> i in out + Elements(uniqs);
        assert Holding(t, out, [], uniqs, m);
        assert Holding(t0, others, totals0, uniqs0, m);
      }
    }
  }

  // ---- where the placed terms come from ----

  // e merges an =X with an =Y,Y.
  ghost predicate Paired(t: Table, n1: nat, n2: nat, t': Table, e: nat) {
    && n1 < |t| && n2 < |t| && SumEq(t, n1) && SumEq(t, n2) && t[n1].children == t[n2].children && e < |t'|
    && t[n1].op1 == ALL_ONES && t[n2].op1 == t[n2].op0 != ALL_ONES
    && t'[e] == Node(Eq, t[n1].op0, t[n2].op1, t[n1].children)
  }

  // One of the equalities, or two merged.
  ghost predicate FromEqs(t0: Table, eqs: seq<nat>, t: Table, e: nat) {
    e in eqs || exists n1, n2 :: n1 in eqs && n2 in eqs && Paired(t0, n1, n2, t, e)
  }

  ghost predicate AllFromEqs(t0: Table, others: set<nat>, eqs: seq<nat>, t: Table, out: set<nat>) {
    forall e :: e in out && e !in others ==> FromEqs(t0, eqs, t, e)
  }

  // A conjunct of the operands, or two merged.
  ghost predicate FromAtoms(t0: Table, ids: seq<nat>, t: Table, e: nat)
    requires In(t0, ids)
  {
    AtomOf(t0, ids, e) || exists n1, n2 :: AtomOf(t0, ids, n1) && AtomOf(t0, ids, n2) && Paired(t0, n1, n2, t, e)
  }

  ghost predicate AllFromAtoms(t0: Table, ids: seq<nat>, t: Table, out: set<nat>)
    requires In(t0, ids)
  {
    forall e :: e in out ==> FromAtoms(t0, ids, t, e)
  }

  lemma {:induction false} FromEqsStart(t: Table, others: set<nat>, eqs: seq<nat>)
    ensures AllFromEqs(t, others, eqs, t, others)
  {
  }

  lemma {:induction false} FromEqsStep(t0: Table, others: set<nat>, eqs: seq<nat>, t: Table, out: set<nat>,
      t': Table, e: nat)
    requires t <= t' && AllFromEqs(t0, others, eqs, t, out) && FromEqs(t0, eqs, t', e)
    ensures AllFromEqs(t0, others, eqs, t', out + {e})
  {
    forall x | x in out + {e} && x !in others ensures FromEqs(t0, eqs, t', x) {
      if x != e {
        assert FromEqs(t0, eqs, t, x);
        if x !in eqs {
          var n1, n2 :| n1 in eqs && n2 in eqs && Paired(t0, n1, n2, t, x);
          assert Paired(t0, n1, n2, t', x);
        }
      }
    }
  }

  lemma {:induction false} FromEqsRest(t0: Table, others: set<nat>, eqs: seq<nat>, t: Table, out: set<nat>, rest: seq<nat>)
    requires AllFromEqs(t0, others, eqs, t, out) && forall x :: x in rest ==> x in eqs
    ensures AllFromEqs(t0, others, eqs, t, out + Elements(rest))
  {
  }

  lemma {:induction false} FromEqsAt(t0: Table, eqs: seq<nat>, t: Table, e: nat)
    requires e in eqs
    ensures FromEqs(t0, eqs, t, e)
  {
  }

  lemma {:induction false} PairedFrom(t0: Table, others: set<nat>, eqs: seq<nat>, t: Table, out: set<nat>,
      n1: nat, n2: nat, c: nat, t': Table, e: nat)
    requires Acyclic(t0) && t0 <= t <= t' && AllFromEqs(t0, others, eqs, t, out)
    requires n1 in eqs && n2 in eqs && n1 < |t0| && n2 < |t0| && Mergeable(t, n1, c) && Mergeable(t, n2, c)
    requires t[n1].op1 == ALL_ONES && t[n2].op1 != ALL_ONES && e < |t'| && t'[e] == Node(Eq, t[n1].op0, t[n2].op1, [c])
    ensures AllFromEqs(t0, others, eqs, t', out + {e})
  {
    PairedHere(t0, t, n1, n2, c, t', e);
    assert FromEqs(t0, eqs, t', e);
    hide FromEqs;
    FromEqsStep(t0, others, eqs, t, out, t', e);
  }

  lemma {:induction false} PairedHere(t0: Table, t: Table, n1: nat, n2: nat, c: nat, t': Table, e: nat)
    requires Acyclic(t0) && t0 <= t && Mergeable(t, n1, c) && Mergeable(t, n2, c) && n1 < |t0| && n2 < |t0|
    requires t[n1].op1 == ALL_ONES && t[n2].op1 != ALL_ONES && e < |t'| && t'[e] == Node(Eq, t[n1].op0, t[n2].op1, [c])
    ensures Paired(t0, n1, n2, t', e)
  {
    SumEqExtends(t0, t, n1);
    SumEqExtends(t0, t, n2);
  }

  lemma {:induction false} StartFromAtoms(t: Table, ids: seq<nat>, others: set<nat>, sums: Sums)
    requires WellFormed(t) && In(t, ids) && ConjunctsOf(t, ids, [], others, sums)
    ensures WithEqs(t, others, others) && AllFromAtoms(t, ids, t, others)
  {
  }

  lemma {:induction false} FromAtomsStep(t0: Table, ids: seq<nat>, t: Table, out: set<nat>, eqs: seq<nat>, t': Table, out': set<nat>)
    requires Acyclic(t0) && In(t0, ids) && t0 <= t <= t' && AllFromAtoms(t0, ids, t, out)
    requires AllFromEqs(t, out, eqs, t', out') && forall s :: s in eqs ==> s < |t0| && AtomOf(t0, ids, s)
    ensures AllFromAtoms(t0, ids, t', out')
  {
    hide AtomOf;
    forall e | e in out' ensures FromAtoms(t0, ids, t', e) {
      if e in out {
        assert FromAtoms(t0, ids, t, e);
        if !AtomOf(t0, ids, e) {
          var n1, n2 :| AtomOf(t0, ids, n1) && AtomOf(t0, ids, n2) && Paired(t0, n1, n2, t, e);
          assert Paired(t0, n1, n2, t', e);
        }
      } else if e !in eqs {
        var n1, n2 :| n1 in eqs && n2 in eqs && Paired(t, n1, n2, t', e);
        SumEqExtends(t0, t, n1);
        SumEqExtends(t0, t, n2);
        assert Paired(t0, n1, n2, t', e);
      }
    }
  }

  // What is merged brings no number of its own unless merging loses something.
  lemma {:induction false} PairBrings(t0: Table, n1: nat, n2: nat, t: Table, e: nat, ns: Numbers)
    requires WellFormed(t0) && WellFormed(t) && t0 <= t && Paired(t0, n1, n2, t, e) && !Lossy(t0, n1, n2)
    ensures Brings(t, e, ns) && (SumEq(t, e) ==> t[e].op1 != ALL_ONES)
    ensures SumEq(t, e) && t[e].op0 == t[e].op1 ==> KeepsTotal(t, t[e].children[0], t[e].op0)
  {
    assert t0[n1].children[0] in t0[n1].children;
    KeepsTotalExtends(t0, t, t0[n1].children[0], t0[n1].op0);
  }

  lemma {:induction false} AtomsGuarded(t: Table, ids: seq<nat>, a: nat, b: nat)
    requires Acyclic(t) && Arity(t) && In(t, ids) && AndGuard(t, ids) && AtomOf(t, ids, a) && AtomOf(t, ids, b)
    ensures a < |t| && b < |t| && !Lossy(t, a, b)
  {
  }

  lemma {:induction false} AtomBrings(t: Table, ids: seq<nat>, a: nat, ns: Numbers)
    requires Acyclic(t) && Arity(t) && In(t, ids) && AllNumbersIn(t, ids, ns) && AtomOf(t, ids, a)
    ensures a < |t| && Brings(t, a, ns)
  {
  }

  lemma {:induction false} PlacedBrings(t0: Table, ids: seq<nat>, t: Table, e: nat, ns: Numbers)
    requires WellFormed(t0) && WellFormed(t) && t0 <= t && In(t0, ids) && AndGuard(t0, ids) && AllNumbersIn(t0, ids, ns)
    requires FromAtoms(t0, ids, t, e)
    ensures e < |t| && Brings(t, e, ns)
  {
    hide AndGuard, AllNumbersIn, Brings, Lossy, AtomOf, Canonical;
    if AtomOf(t0, ids, e) {
      AtomBrings(t0, ids, e, ns);
      BringsExtends(t0, t, e, ns);
    } else {
      var n1, n2 :| AtomOf(t0, ids, n1) && AtomOf(t0, ids, n2) && Paired(t0, n1, n2, t, e);
      AtomsGuarded(t0, ids, n1, n2);
      PairBrings(t0, n1, n2, t, e, ns);
    }
  }

  // Placed terms lose nothing together when the operands do not.
  lemma {:induction false} PlacedApart(t0: Table, ids: seq<nat>, t: Table, a: nat, b: nat)
    requires WellFormed(t0) && WellFormed(t) && t0 <= t && In(t0, ids) && AndGuard(t0, ids)
    requires FromAtoms(t0, ids, t, a) && FromAtoms(t0, ids, t, b)
    ensures a < |t| && b < |t| && !Lossy(t, a, b)
  {
    hide AndGuard, KeepsTotal, AtomOf, Canonical;
    if AtomOf(t0, ids, a) && AtomOf(t0, ids, b) {
      AtomsGuarded(t0, ids, a, b);
      LossyExtends(t0, t, a, b);
    } else {
      PlacedPlace(t0, ids, t, a);
      PlacedPlace(t0, ids, t, b);
    }
  }

  // A placed term is a conjunct, or neither an =X nor an =Y,Y that loses a total.
  lemma {:induction false} PlacedPlace(t0: Table, ids: seq<nat>, t: Table, e: nat)
    requires WellFormed(t0) && WellFormed(t) && t0 <= t && In(t0, ids) && AndGuard(t0, ids) && FromAtoms(t0, ids, t, e)
    ensures e < |t|
    ensures !AtomOf(t0, ids, e) && SumEq(t, e) ==> t[e].op1 != ALL_ONES
    ensures !AtomOf(t0, ids, e) && SumEq(t, e) && t[e].op0 == t[e].op1 ==> KeepsTotal(t, t[e].children[0], t[e].op0)
  {
    hide AndGuard, KeepsTotal, AtomOf, Lossy, Canonical;
    if AtomOf(t0, ids, e) {
      AtomsGuarded(t0, ids, e, e);
    } else {
      var n1, n2 :| AtomOf(t0, ids, n1) && AtomOf(t0, ids, n2) && Paired(t0, n1, n2, t, e);
      AtomsGuarded(t0, ids, n1, n2);
      PairBrings(t0, n1, n2, t, e, NO_NUMBERS);
    }
  }

  // The conjuncts of a conjunction of placed terms.
  lemma {:induction false} ConnectedAtoms(t: Table, out: set<nat>, t': Table, r: nat, a: nat)
    requires WellFormed(t) && WellFormed(t') && t <= t' && AllTerms(t, out) && r < |t'| && a in Atoms(t', r)
    requires out == {} ==> Constant(t'[r].kind)
    requires |out| == 1 ==> out == {r}
    requires |out| > 1 ==> t'[r].kind == And && Elements(t'[r].children) == out
    ensures a <= r && (a in out || !SumEq(t', a))
  {
    if out == {r} { assert r in out; }
  }

  // The numbers of a conjunction are those of its operands.
  lemma {:induction false} ConjunctionNumbers(t0: Table, ids: seq<nat>, t: Table, out: set<nat>, t': Table, r: nat)
    requires WellFormed(t0) && WellFormed(t) && WellFormed(t') && t0 <= t <= t' && In(t0, ids) && AndGuard(t0, ids)
    requires AllFromAtoms(t0, ids, t, out) && AllTerms(t, out) && r < |t'|
    requires out == {} ==> Constant(t'[r].kind)
    requires |out| == 1 ==> out == {r}
    requires |out| > 1 ==> t'[r].kind == And && Elements(t'[r].children) == out
    ensures Lossless(t', r) && forall ns :: AllNumbersIn(t0, ids, ns) ==> NumbersIn(t', r, ns)
  {
    hide AndGuard, AllNumbersIn, Brings, AtomOf, FromAtoms, Canonical, KeepsTotal, Lossy, SumEq;
    assert Lossless(t', r) by {
      forall a, b | a in Atoms(t', r) && b in Atoms(t', r) ensures a <= r && b <= r && !Lossy(t', a, b) {
        ConnectedAtoms(t, out, t', r, a);
        ConnectedAtoms(t, out, t', r, b);
        if a in out && b in out {
          PlacedApart(t0, ids, t, a, b);
          LossyExtends(t, t', a, b);
        } else {
          NoClash(t', a, b);
        }
      }
      OwnGuard(t', r);
    }
    forall ns | AllNumbersIn(t0, ids, ns) ensures NumbersIn(t', r, ns) {
      forall a | a in Atoms(t', r) ensures a <= r && Brings(t', a, ns) {
        ConnectedAtoms(t, out, t', r, a);
        if a in out {
          PlacedBrings(t0, ids, t, a, ns);
          BringsExtends(t, t', a, ns);
        } else {
          NoClash(t', a, a);
          NotBrought(t', a, ns);
        }
      }
    }
  }

  lemma {:induction false} NoClash(t: Table, a: nat, b: nat)
    requires Acyclic(t) && Arity(t) && a < |t| && b < |t| && (!SumEq(t, a) || !SumEq(t, b))
    ensures !Lossy(t, a, b)
  {
  }

  lemma {:induction false} NotBrought(t: Table, a: nat, ns: Numbers)
    requires Acyclic(t) && Arity(t) && a < |t| && !SumEq(t, a)
    ensures Brings(t, a, ns)
  {
  }

  lemma {:induction false} OwnGuard(t: Table, i: nat)
    requires Acyclic(t) && Arity(t) && i < |t|
    requires forall a, b :: a in Atoms(t, i) && b in Atoms(t, i) ==> a <= i && b <= i && !Lossy(t, a, b)
    ensures AndGuard(t, [i])
  {
    hide Lossy;
  }

  // A disjunction brings no numbers, one of its operands those it has.
  lemma {:induction false} OrNumbers(t: Table, ids: seq<nat>, t': Table, r: nat, ns: Numbers)
    requires WellFormed(t) && WellFormed(t') && t <= t' && In(t, ids) && r < |t'|
    requires r in ids || t'[r].kind == Or || Constant(t'[r].kind)
    ensures AllNumbersIn(t, ids, ns) ==> NumbersIn(t', r, ns)
    ensures (forall i :: i in ids ==> Lossless(t, i)) ==> Lossless(t', r)
  {
    if r in ids {
      NumbersExtend(t, t', r, ns);
    } else {
      SumFreeNumbers(t', r, ns);
    }
  }

  // Equalities over the sums in rest still to be placed, everything else in out.
  ghost predicate Gathered(t0: Table, ids: seq<nat>, t: Table, out: set<nat>, sums: Sums, rest: set<nat>, exact: bool)
    requires WellFormed(t0) && In(t0, ids) && WellFormed(t)
  {
    && AllTerms(t, out) && rest <= sums.Keys && SumsIn(t0, sums) && SumsIn(t, sums)
    && (forall c, s :: c in sums && s in sums[c] ==> Mergeable(t, s, c) && AtomOf(t0, ids, s))
    && (forall m: Counts :: AllTrue(t0, ids, m) ==> SetTrue(t, out, m) && SumsTrue(t, sums, rest, m))
    && (exact ==> forall m: Counts :: SetTrue(t, out, m) && SumsTrue(t, sums, rest, m) ==> AllTrue(t0, ids, m))
  }

  lemma {:induction false} GatheredAt(t0: Table, ids: seq<nat>, t: Table, out: set<nat>, sums: Sums,
      rest: set<nat>, exact: bool, c: nat)
    requires WellFormed(t0) && In(t0, ids) && WellFormed(t) && t0 <= t
    requires Gathered(t0, ids, t, out, sums, rest, exact) && c in rest
    ensures c in sums && AllMergeable(t, sums[c], c) && In(t, sums[c]) && AllTerms(t, out)
    ensures forall s :: s in sums[c] ==> s < |t0| && AtomOf(t0, ids, s)
  {
  }

  lemma {:induction false} GatherStep(t0: Table, ids: seq<nat>, t: Table, out: set<nat>, sums: Sums,
      rest: set<nat>, exact: bool,
                   c: nat, t': Table, out': set<nat>)
    requires WellFormed(t0) && In(t0, ids) && WellFormed(t) && WellFormed(t') && t0 <= t <= t'
    requires Gathered(t0, ids, t, out, sums, rest, exact) && c in rest && AllTerms(t', out')
    requires In(t, sums[c]) && forall m: Counts :: Together(t, out, sums[c], m) ==> SetTrue(t', out', m)
    requires exact ==> forall m: Counts :: SetTrue(t', out', m) ==> Together(t, out, sums[c], m)
    ensures Gathered(t0, ids, t', out', sums, rest - {c}, exact)
  {
    hide Canonical, Val;
    AllExtend(t, t');
    forall d, s | d in sums && s in sums[d] ensures Mergeable(t', s, d) {
      assert Mergeable(t, s, d);
    }
    forall m: Counts
      ensures Together(t, out, sums[c], m) && SumsTrue(t, sums, rest - {c}, m)
         <==> SetTrue(t, out, m) && SumsTrue(t, sums, rest, m)
      ensures SumsTrue(t', sums, rest - {c}, m) <==> SumsTrue(t, sums, rest - {c}, m)
    {
      if Together(t, out, sums[c], m) && SumsTrue(t, sums, rest - {c}, m) {
        forall d, s | d in rest && s in sums[d] ensures Truth(t, s, m) {
          if d != c { assert d in rest - {c}; }
        }
      }
      assert forall d, s :: d in rest - {c} && s in sums[d] ==> (Truth(t', s, m) <==> Truth(t, s, m));
    }
  }

  lemma {:induction false} GuardedNoLoss(t0: Table, ids: seq<nat>, t: Table, eqs: seq<nat>)
    requires WellFormed(t0) && In(t0, ids) && WellFormed(t) && t0 <= t && In(t, eqs) && AndGuard(t0, ids)
    requires forall s :: s in eqs ==> s < |t0| && AtomOf(t0, ids, s)
    ensures NoLoss(t, eqs)
  {
    forall a, b | a in eqs && b in eqs ensures !Lossy(t, a, b) {
      var i :| i in ids && a in Atoms(t0, i);
      var j :| j in ids && b in Atoms(t0, j);
      assert !Lossy(t0, a, b);
      LossyExtends(t0, t, a, b);
    }
  }

  ghost predicate AllSumFree(t: Table, ids: seq<nat>)
    requires Acyclic(t) && In(t, ids)
  {
    forall i :: i in ids ==> SumFree(t, i)
  }

  lemma {:induction false} SumFreeGuard(t: Table, ids: seq<nat>)
    requires Acyclic(t) && Arity(t) && In(t, ids) && AllSumFree(t, ids)
    ensures AndGuard(t, ids)
  {
  }

  lemma {:induction false} SumFreeExtends(t: Table, t': Table, i: nat)
    requires Acyclic(t) && Acyclic(t') && t <= t' && i < |t|
    ensures SumFree(t', i) <==> SumFree(t, i)
  {
    forall a | a in Atoms(t, i) && a <= i ensures SumEq(t', a) <==> SumEq(t, a) {
      SumEqExtends(t, t', a);
    }
    assert Atoms(t', i) == Atoms(t, i);
  }

  // A conjunction without equalities over sums among its operands has none itself.
  lemma {:induction false} ConnectedSumFree(t0: Table, ids: seq<nat>, out: set<nat>, t: Table, r: nat)
    requires WellFormed(t0) && In(t0, ids) && WellFormed(t) && t0 <= t && r < |t| && AllSumFree(t0, ids)
    requires forall c :: c in out ==> c < |t0| && t0[c].kind != And && AtomOf(t0, ids, c)
    requires out == {} ==> Constant(t[r].kind)
    requires |out| == 1 ==> out == {r}
    requires |out| > 1 ==> t[r].kind == And && Elements(t[r].children) == out
    ensures SumFree(t, r)
  {
    forall c | c in out ensures !SumEq(t, c) {
      var i :| i in ids && c in Atoms(t0, i);
      assert !SumEq(t0, c);
      SumEqExtends(t0, t, c);
    }
    if out != {} && |out| != 1 {
      assert forall c :: c in t[r].children <==> c in out;
    }
  }

  lemma {:induction false} AndResult(t0: Table, ids: seq<nat>, t: Table, out: set<nat>, sums: Sums, exact: bool,
      t': Table, r: nat)
    requires WellFormed(t0) && In(t0, ids) && WellFormed(t) && WellFormed(t') && t0 <= t <= t' && r < |t'|
    requires Gathered(t0, ids, t, out, sums, {}, exact)
    requires forall m: Counts :: Truth(t', r, m) <==> SetTrue(t', out, m)
    ensures Implied(t', r, ids) && (exact ==> Conjoins(t', r, ids))
  {
    AllExtend(t, t');
    AllExtend(t0, t');
    forall m: Counts
      ensures AllTrue(t', ids, m) ==> Truth(t', r, m)
      ensures exact && Truth(t', r, m) ==> AllTrue(t', ids, m)
    {
      assert AllTrue(t', ids, m) <==> AllTrue(t0, ids, m);
      assert SetTrue(t', out, m) <==> SetTrue(t, out, m);
      assert SumsTrue(t, sums, {}, m);
    }
  }

  // FALSE is the conjunction of what never holds together.
  lemma {:induction false} BottomConjoins(t: Table, ids: seq<nat>, r: nat)
    requires Acyclic(t) && Arity(t) && In(t, ids) && r < |t| && t[r].kind == False && forall m: Counts :: !AllTrue(t, ids, m)
    ensures Implied(t, r, ids) && Conjoins(t, r, ids) && SumFree(t, r)
  {
  }

  lemma {:induction false} AllTermsKinds(t: Table, out: set<nat>)
    requires AllTerms(t, out)
    ensures forall c :: c in out ==> c < |t| && t[c].kind != And && !Constant(t[c].kind)
  {
  }

  lemma {:induction false} SumFreeAtoms(t: Table, ids: seq<nat>, sums: Sums)
    requires WellFormed(t) && In(t, ids) && AllSumFree(t, ids) && SumsIn(t, sums)
    requires forall c :: c in sums ==> sums[c] != []
    requires forall c, s :: c in sums && s in sums[c] ==> AtomOf(t, ids, s)
    ensures forall c :: c in sums ==> sums[c][0] in sums[c] && !SumEq(t, sums[c][0])
  {
    forall c | c in sums ensures sums[c][0] in sums[c] && !SumEq(t, sums[c][0]) {
      var s := sums[c][0];
      assert s in sums[c] && AtomOf(t, ids, s);
      var i :| i in ids && s in Atoms(t, i);
      assert SumFree(t, i);
    }
  }

  lemma {:induction false} NoSums(t: Table, ids: seq<nat>, others: set<nat>, sums: Sums)
    requires WellFormed(t) && In(t, ids) && AllSumFree(t, ids) && ConjunctsOf(t, ids, [], others, sums)
    ensures sums == map[]
  {
    SumFreeAtoms(t, ids, sums);
  }

  // ---- guards look only at existing entries ----

  lemma {:induction false} GuardsExtend(t: Table, t': Table, i: nat)
    requires Acyclic(t) && Arity(t) && Acyclic(t') && Arity(t') && t <= t' && i < |t|
    ensures forall v: u32 :: (LtGuard(t', i, v) <==> LtGuard(t, i, v)) && (GtGuard(t', i, v) <==> GtGuard(t, i, v))
    ensures forall lo: u32, hi: u32 :: RangeGuard(t', i, lo, hi) <==> RangeGuard(t, i, lo, hi)
    ensures forall v: u32 :: EqGuard(t', i, v) <==> EqGuard(t, i, v)
    decreases i
  {
    if t[i].kind == Add {
      assert t[i].children[0] in t[i].children;
      GuardsExtend(t, t', t[i].children[0]);
    }
    SumFreeExtends(t, t', i);
    forall v: u32
      ensures (LtGuard(t', i, v) <==> LtGuard(t, i, v)) && (GtGuard(t', i, v) <==> GtGuard(t, i, v))
    {
      if t[i].kind == Add {
        var c, lt, gt := t[i].children[0], Below(v).Subtract(t[i].op0), Above(v).Subtract(t[i].op0);
        assert RangeGuard(t', c, lt.Min(), lt.Max()) <==> RangeGuard(t, c, lt.Min(), lt.Max());
        assert RangeGuard(t', c, gt.Min(), gt.Max()) <==> RangeGuard(t, c, gt.Min(), gt.Max());
      }
    }
    forall lo: u32, hi: u32 ensures RangeGuard(t', i, lo, hi) <==> RangeGuard(t, i, lo, hi) {
      if lo != 0 { var v: u32 := lo - 1; assert GtGuard(t', i, v) <==> GtGuard(t, i, v); }
      if hi != ALL_ONES { var v: u32 := hi + 1; assert LtGuard(t', i, v) <==> LtGuard(t, i, v); }
    }
  }

  lemma {:induction false} NotGuardExtends(t: Table, t': Table, i: nat)
    requires Acyclic(t) && Arity(t) && Acyclic(t') && Arity(t') && t <= t' && i < |t|
    ensures NotGuard(t', i) <==> NotGuard(t, i)
    ensures Negatable(t', i) <==> Negatable(t, i)
    decreases i
  {
    assert t'[i] == t[i];
    forall c | c in t[i].children
      ensures (NotGuard(t', c) <==> NotGuard(t, c)) && (Negatable(t', c) <==> Negatable(t, c))
    {
      NotGuardExtends(t, t', c);
    }
    if Unary(t[i].kind) {
      assert t[i].children[0] in t[i].children;
      GuardsExtend(t, t', t[i].children[0]);
      SumFreeExtends(t, t', t[i].children[0]);
      if t[i].kind == Eq { ValueOnlyExtends(t, t', i); }
      hide ValueOnly;
    }
  }

  // ---- the negations that take one step ----

  lemma {:induction false} NegatableKinds(t: Table, i: nat)
    requires Acyclic(t) && Arity(t) && i < |t|
    ensures !Connective(t[i].kind) ==> (Negatable(t, i) <==> t[i].kind != Add && !Additive(t[i].kind))
    ensures EqualityBounds(t, i) || ZeroCount(t, i) ==> t[i].kind == Eq
  {
  }

  lemma {:induction false} CountDenied(t: Table, i: nat, e: nat)
    requires Acyclic(t) && Arity(t) && i < |t| && e < |t| && t[i].kind == SubSignature && t[e] == Node(Eq, 0, ALL_ONES, [i])
    ensures Negates(t, e, i) && SumFree(t, e)
  {
    assert i in t[e].children;
  }

  lemma {:induction false} DoubleDenied(t: Table, i: nat)
    requires Acyclic(t) && Arity(t) && i < |t| && t[i].kind == Not
    ensures t[i].children[0] < |t| && Negates(t, t[i].children[0], i) && (NotGuard(t, i) ==> SumFree(t, t[i].children[0]))
  {
    assert t[i].children[0] in t[i].children;
  }

  lemma {:induction false} ConstantDenied(t: Table, i: nat, r: nat)
    requires Acyclic(t) && Arity(t) && i < |t| && r < |t| && Constant(t[i].kind) && Constant(t[r].kind) && t[i].kind != t[r].kind
    ensures Negates(t, r, i) && SumFree(t, r)
  {
  }

  // The bounds of a range that are not trivial, as nodes.
  ghost predicate Bounds(t: Table, nodes: seq<nat>, i: nat, lo: u32, hi: u32, exact: bool)
    requires Acyclic(t) && Arity(t) && i < |t|
  {
    && In(t, nodes) && |nodes| == (if lo != 0 then 1 else 0) + (if hi != ALL_ONES then 1 else 0)
    && (exact ==> AllSumFree(t, nodes))
    && (lo != 0 ==>
          nodes[0] in nodes && GtCovers(t, nodes[0], i, lo - 1) && (exact ==> GtMeans(t, nodes[0], i, lo - 1)))
    && (hi != ALL_ONES ==>
          var n := nodes[|nodes| - 1];
          n in nodes && LtCovers(t, n, i, hi + 1) && (exact ==> LtMeans(t, n, i, hi + 1)))
  }

  lemma {:induction false} BoundsSumFree(t: Table, nodes: seq<nat>, i: nat, lo: u32, hi: u32)
    requires Acyclic(t) && Arity(t) && i < |t| && Bounds(t, nodes, i, lo, hi, true)
    ensures AllSumFree(t, nodes)
  {
  }

  lemma {:induction false} BoundsMeaning(t: Table, nodes: seq<nat>, i: nat, lo: u32, hi: u32, exact: bool, m: Counts)
    requires Acyclic(t) && Arity(t) && i < |t| && Bounds(t, nodes, i, lo, hi, exact)
    ensures lo <= Val(t, i, m) <= hi ==> AllTrue(t, nodes, m)
    ensures exact && AllTrue(t, nodes, m) ==> lo <= Val(t, i, m) <= hi
  {
    if lo <= Val(t, i, m) <= hi {
      assert lo != 0 ==> Truth(t, nodes[0], m);
      assert hi != ALL_ONES ==> Truth(t, nodes[|nodes| - 1], m);
      assert nodes == [] || nodes == [nodes[0]] || nodes == [nodes[0], nodes[1]];
    }
    if exact && AllTrue(t, nodes, m) {
      assert lo != 0 ==> Truth(t, nodes[0], m);
      assert hi != ALL_ONES ==> Truth(t, nodes[|nodes| - 1], m);
    }
  }

  lemma {:induction false} RangeFromBounds(t: Table, nodes: seq<nat>, i: nat, lo: u32, hi: u32, exact: bool,
      t': Table, r: nat)
    requires Acyclic(t) && Arity(t) && Acyclic(t') && Arity(t') && t <= t' && i < |t| && r < |t'|
    requires Bounds(t, nodes, i, lo, hi, exact) && Implied(t', r, nodes) && (exact ==> Conjoins(t', r, nodes))
    ensures RangeCovers(t', r, i, lo, hi) && (exact ==> RangeMeans(t', r, i, lo, hi))
  {
    forall m: Counts
      ensures lo <= Val(t', i, m) <= hi ==> AllTrue(t', nodes, m)
      ensures exact && AllTrue(t', nodes, m) ==> lo <= Val(t', i, m) <= hi
    {
      BoundsMeaning(t, nodes, i, lo, hi, exact, m);
      ValExtends(t, t', i, m);
      forall k | k in nodes ensures Truth(t', k, m) <==> Truth(t, k, m) { ValExtends(t, t', k, m); }
    }
  }

  lemma {:induction false} BoundsExtend(t: Table, nodes: seq<nat>, i: nat, lo: u32, exact: bool, t': Table, n: nat,
      hi: u32)
    requires Acyclic(t) && Arity(t) && Acyclic(t') && Arity(t') && t <= t' && i < |t| && n < |t'|
    requires Bounds(t, nodes, i, lo, ALL_ONES, exact) && hi != ALL_ONES
    requires LtCovers(t', n, i, hi + 1) && (exact ==> LtMeans(t', n, i, hi + 1) && SumFree(t', n))
    ensures Bounds(t', nodes + [n], i, lo, hi, exact)
  {
    AllExtend(t, t');
    if exact {
      forall k | k in nodes ensures SumFree(t', k) { SumFreeExtends(t, t', k); }
    }
  }

  // An ordered compare of "count + offset" through the range its bound folds to.
  lemma {:induction false} LtThroughRange(t: Table, r: nat, i: nat, v: u32, c: nat)
    requires Acyclic(t) && Arity(t) && r < |t| && i < |t| && v != 0
    requires t[i].kind == Add && c == t[i].children[0] && c < |t|
    requires RangeCovers(t, r, c, Below(v).Subtract(t[i].op0).Min(), Below(v).Subtract(t[i].op0).Max())
    ensures LtCovers(t, r, i, v)
    ensures LtFolds(t[i].op0, v)
      && RangeMeans(t, r, c, Below(v).Subtract(t[i].op0).Min(), Below(v).Subtract(t[i].op0).Max())
      ==> LtMeans(t, r, i, v)
  {
    var range := Below(v).Subtract(t[i].op0);
    LtFoldExact(t[i].op0, v);
    assert c in t[i].children;
    forall m: Counts ensures Val(t, i, m) == Plus(Val(t, c, m), t[i].op0) {}
    forall m: Counts ensures Val(t, i, m) < v ==> range.Kept(Val(t, c, m)) {}
    assert LtFolds(t[i].op0, v) ==> forall m: Counts :: range.Kept(Val(t, c, m)) ==> Val(t, i, m) < v;
  }

  lemma {:induction false} GtThroughRange(t: Table, r: nat, i: nat, v: u32, c: nat)
    requires Acyclic(t) && Arity(t) && r < |t| && i < |t| && v != 0
    requires t[i].kind == Add && c == t[i].children[0] && c < |t|
    requires RangeCovers(t, r, c, Above(v).Subtract(t[i].op0).Min(), Above(v).Subtract(t[i].op0).Max())
    ensures GtCovers(t, r, i, v)
    ensures GtFolds(t[i].op0, v)
      && RangeMeans(t, r, c, Above(v).Subtract(t[i].op0).Min(), Above(v).Subtract(t[i].op0).Max())
      ==> GtMeans(t, r, i, v)
  {
    var range := Above(v).Subtract(t[i].op0);
    GtFoldExact(t[i].op0, v);
    assert c in t[i].children;
    forall m: Counts ensures Val(t, i, m) == Plus(Val(t, c, m), t[i].op0) {}
    forall m: Counts ensures Val(t, i, m) > v ==> range.Kept(Val(t, c, m)) {}
    assert GtFolds(t[i].op0, v) ==> forall m: Counts :: range.Kept(Val(t, c, m)) ==> Val(t, i, m) > v;
  }

  // ---- negation ----

  ghost predicate NegatesAll(t: Table, nodes: seq<nat>, ids: seq<nat>)
    requires Acyclic(t) && Arity(t) && In(t, nodes) && In(t, ids)
  {
    |nodes| == |ids| && forall k :: 0 <= k < |ids| ==> nodes[k] in nodes && ids[k] in ids && Negates(t, nodes[k], ids[k])
  }

  lemma {:induction false} NegatesExtends(t: Table, t': Table, r: nat, i: nat)
    requires Acyclic(t) && Arity(t) && Acyclic(t') && Arity(t') && t <= t' && r < |t| && i < |t|
    ensures Negates(t', r, i) <==> Negates(t, r, i)
  {
    forall m: Counts ensures (Truth(t', r, m) <==> Truth(t, r, m)) && (Truth(t', i, m) <==> Truth(t, i, m)) {
      ValExtends(t, t', r, m);
      ValExtends(t, t', i, m);
    }
    if Negates(t', r, i) {
      assert forall m: Counts :: Truth(t', r, m) <==> !Truth(t', i, m);
      assert forall m: Counts :: Truth(t, r, m) <==> !Truth(t, i, m);
    }
  }

  lemma {:induction false} NegatesAllStep(t: Table, nodes: seq<nat>, ids: seq<nat>, t': Table, n: nat, i: nat)
    requires Acyclic(t) && Arity(t) && Acyclic(t') && Arity(t') && t <= t' && In(t, nodes) && In(t, ids)
    requires n < |t'| && i < |t'| && Negates(t', n, i)
    requires NegatesAll(t, nodes, ids) && AllSumFree(t, nodes) && SumFree(t', n)
    ensures In(t', nodes + [n]) && In(t', ids + [i])
    ensures NegatesAll(t', nodes + [n], ids + [i]) && AllSumFree(t', nodes + [n])
  {
    NegatesAllExtends(t, nodes, ids, t', true);
    forall k | k in nodes ensures SumFree(t', k) { SumFreeExtends(t, t', k); }
    var nodes', ids' := nodes + [n], ids + [i];
    forall k | 0 <= k < |ids'| ensures nodes'[k] in nodes' && ids'[k] in ids' && Negates(t', nodes'[k], ids'[k]) {
      if k < |ids| { assert nodes'[k] == nodes[k] && ids'[k] == ids[k]; }
    }
  }

  // De Morgan, node by node.
  lemma {:induction false} DeMorgan(t: Table, i: nat, nodes: seq<nat>, r: nat)
    requires WellFormed(t) && i < |t| && r < |t| && Connective(t[i].kind) && In(t, nodes) && In(t, t[i].children)
    requires NegatesAll(t, nodes, t[i].children)
    requires if t[i].kind == And then Disjoins(t, r, nodes) else Conjoins(t, r, nodes)
    ensures Negates(t, r, i)
  {
    forall m: Counts ensures Truth(t, r, m) <==> !Truth(t, i, m) {
      Opposites(t, nodes, t[i].children, m);
      ConnectiveTruth(t, i, m);
    }
  }

  lemma {:induction false} ConnectiveTruth(t: Table, i: nat, m: Counts)
    requires Acyclic(t) && Arity(t) && i < |t| && In(t, t[i].children)
    ensures t[i].kind == And ==> (Truth(t, i, m) <==> AllTrue(t, t[i].children, m))
    ensures t[i].kind == Or ==> (Truth(t, i, m) <==> AnyTrue(t, t[i].children, m))
  {
  }

  ghost predicate Opposed(t: Table, a: seq<nat>, b: seq<nat>, m: Counts)
    requires Acyclic(t) && Arity(t) && In(t, a) && In(t, b)
  {
    && |a| == |b|
    && forall k :: 0 <= k < |a| ==> a[k] in a && b[k] in b && (Truth(t, a[k], m) <==> !Truth(t, b[k], m))
  }

  lemma {:induction false} Opposites(t: Table, nodes: seq<nat>, cs: seq<nat>, m: Counts)
    requires WellFormed(t) && In(t, nodes) && In(t, cs) && NegatesAll(t, nodes, cs)
    ensures AnyTrue(t, nodes, m) <==> !AllTrue(t, cs, m)
    ensures AllTrue(t, nodes, m) <==> !AnyTrue(t, cs, m)
  {
    assert Opposed(t, nodes, cs, m) && Opposed(t, cs, nodes, m) by {
      forall k | 0 <= k < |cs| ensures Truth(t, nodes[k], m) <==> !Truth(t, cs[k], m) {
        assert Negates(t, nodes[k], cs[k]);
      }
    }
    OppositeAt(t, nodes, cs, m);
    OppositeAt(t, cs, nodes, m);
  }

  lemma {:induction false} OppositeAt(t: Table, a: seq<nat>, b: seq<nat>, m: Counts)
    requires Acyclic(t) && Arity(t) && In(t, a) && In(t, b) && Opposed(t, a, b, m)
    ensures AnyTrue(t, a, m) <==> !AllTrue(t, b, m)
  {
    if AnyTrue(t, a, m) {
      var n :| n in a && Truth(t, n, m);
      var k :| 0 <= k < |a| && a[k] == n;
      assert b[k] in b;
    }
    if !AllTrue(t, b, m) {
      var n :| n in b && !Truth(t, n, m);
      var k :| 0 <= k < |b| && b[k] == n;
      assert a[k] in a;
    }
  }

  // The two sides of an order, or the two ends left by an equality.
  lemma {:induction false} SplitNegates(t: Table, i: nat, a: nat, b: nat, r: nat)
    requires WellFormed(t) && i < |t| && a < |t| && b < |t| && r < |t| && Disjoins(t, r, [a, b])
    requires t[i].kind == Eq || t[i].kind == Gt || t[i].kind == Lt
    requires t[i].children[0] < |t| && (t[i].kind == Eq ==> ValueOnly(t, i))
    requires if t[i].kind == Lt then GtMeans(t, a, t[i].children[0], t[i].op0) else LtMeans(t, a, t[i].children[0], t[i].op0)
    requires if t[i].kind == Eq then GtMeans(t, b, t[i].children[0], t[i].op0) else EqMeans(t, b, t[i].children[0], t[i].op0)
    ensures Negates(t, r, i)
  {
    forall m: Counts ensures Truth(t, r, m) <==> !Truth(t, i, m) {
      assert a in [a, b] && b in [a, b];
      assert AnyTrue(t, [a, b], m) <==> Truth(t, a, m) || Truth(t, b, m);
      assert t[i].children[0] in t[i].children;
      if t[i].kind == Eq { ValueOnlyTruth(t, i, m); }
    }
  }

  lemma {:induction false} EqualityGuards(t: Table, i: nat)
    requires WellFormed(t) && i < |t| && t[i].kind == Eq
    ensures var c := t[i].children[0];
      c in t[i].children && c < |t|
      && (NotGuard(t, i) ==> ValueOnly(t, i) && SumFree(t, c) && LtGuard(t, c, t[i].op0) && GtGuard(t, c, t[i].op0))
  {
    assert t[i].children[0] in t[i].children;
  }

  // "count == 0" on a match count.
  predicate ZeroCount(t: Table, i: nat) {
    i < |t| && t[i].kind == Eq && t[i].op0 == 0 && |t[i].children| == 1 && t[i].children[0] < |t|
    && t[t[i].children[0]].kind == SubSignature
  }

  lemma {:induction false} ZeroSides(t: Table, i: nat, t': Table, a: nat, b: nat)
    requires t <= t' && ZeroCount(t, i) && a < |t'| && t'[a].kind == False && b == t[i].children[0]
    ensures OnlyTerm(t', [a, b], b)
  {
  }

  // Below and above the value of an equality are exact, whatever its modifier.
  ghost predicate EqualityBounds(t: Table, i: nat)
    requires Acyclic(t) && Arity(t)
  {
    && i < |t| && t[i].kind == Eq && t[i].children != [] && t[i].children[0] < |t|
    && SumFree(t, t[i].children[0]) && LtGuard(t, t[i].children[0], t[i].op0) && GtGuard(t, t[i].children[0], t[i].op0)
  }

  // r says that the value of c is not v.
  ghost predicate ValueDiffers(t: Table, r: nat, c: nat, v: u32)
    requires Acyclic(t) && Arity(t) && r < |t|
  {
    c < |t| && forall m: Counts :: Truth(t, r, m) <==> Val(t, c, m) != v
  }

  lemma {:induction false} UnequalValue(t0: Table, t1: Table, t: Table, i: nat, a: nat, b: nat, r: nat)
    requires WellFormed(t0) && WellFormed(t1) && WellFormed(t) && t0 <= t1 && t1 <= t && EqualityBounds(t0, i)
    requires a < |t1| && b < |t1| && r < |t| && Disjoins(t, r, [a, b])
    requires LtMeans(t1, a, t0[i].children[0], t0[i].op0) && GtMeans(t1, b, t0[i].children[0], t0[i].op0)
    requires SumFree(t1, a) && SumFree(t1, b) && (r in [a, b] || t[r].kind == Or || Constant(t[r].kind))
    ensures ValueDiffers(t, r, t0[i].children[0], t0[i].op0) && SumFree(t, r)
  {
    OrSumFree(t1, [a, b], t, r, true);
    ConstantSumFree(t, r);
    var c := t0[i].children[0];
    CompareExtends(t1, a, c, t0[i], t);
    CompareExtends(t1, b, c, t0[i], t);
    hide Val, LtMeans, GtMeans, Disjoins, Canonical;
    forall m: Counts ensures Truth(t, r, m) <==> Val(t, c, m) != t0[i].op0 { NegatedAt(t, c, t0[i].op0, a, b, r, m); }
  }

  // A disjunction of below and above negates an equality that says no more than its value.
  lemma {:induction false} EqualityNegated(t0: Table, t1: Table, t: Table, i: nat, a: nat, b: nat, r: nat)
    requires WellFormed(t0) && WellFormed(t1) && WellFormed(t) && t0 <= t1 && t1 <= t
    requires i < |t0| && t0[i].kind == Eq && t0[i].children[0] < |t0| && ValueOnly(t0, i)
    requires a < |t1| && b < |t1| && r < |t| && Disjoins(t, r, [a, b])
    requires LtMeans(t1, a, t0[i].children[0], t0[i].op0) && GtMeans(t1, b, t0[i].children[0], t0[i].op0)
    requires SumFree(t1, a) && SumFree(t1, b) && (r in [a, b] || t[r].kind == Or || Constant(t[r].kind))
    ensures Negates(t, r, i) && SumFree(t, r)
  {
    hide Val, EqMeans, LtMeans, GtMeans, Negates, Canonical, SumFree, Disjoins, ValueOnly;
    CompareExtends(t1, a, t0[i].children[0], t0[i], t);
    CompareExtends(t1, b, t0[i].children[0], t0[i], t);
    ValueOnlyExtends(t0, t, i);
    SplitNegates(t, i, a, b, r);
    OrSumFree(t1, [a, b], t, r, true);
  }

  // A disjunction of the other two sides negates an order.
  lemma {:induction false} OrderNegated(t0: Table, t1: Table, t: Table, i: nat, a: nat, b: nat, r: nat)
    requires WellFormed(t0) && WellFormed(t1) && WellFormed(t) && t0 <= t1 && t1 <= t
    requires i < |t0| && (t0[i].kind == Gt || t0[i].kind == Lt) && a < |t1| && b < |t1| && r < |t| && Disjoins(t, r, [a, b])
    requires t0[i].children[0] < |t0|
    requires if t0[i].kind == Lt then GtMeans(t1, a, t0[i].children[0], t0[i].op0) else LtMeans(t1, a, t0[i].children[0], t0[i].op0)
    requires NotGuard(t0, i) ==> EqMeans(t1, b, t0[i].children[0], t0[i].op0)
    requires r in [a, b] || t[r].kind == Or || Constant(t[r].kind)
    requires r !in [a, b] || t[r].kind == Or
    ensures NotGuard(t0, i) ==> Negates(t, r, i) && SumFree(t, r)
  {
    hide Val, EqMeans, LtMeans, GtMeans, Negates, EqGuard, Canonical, NotGuard, SumFree, Disjoins;
    if NotGuard(t0, i) {
      CompareExtends(t1, a, t0[i].children[0], t0[i], t);
      CompareExtends(t1, b, t0[i].children[0], t0[i], t);
      SplitNegates(t, i, a, b, r);
      OrSumFree(t1, [a, b], t, r, false);
      assert Constant(t[r].kind) ==> SumFree(t, r) by { ConstantSumFree(t, r); }
    }
  }

  lemma {:induction false} ConstantSumFree(t: Table, r: nat)
    requires Acyclic(t) && r < |t|
    ensures Constant(t[r].kind) ==> SumFree(t, r)
  {
  }

  lemma {:induction false} NegatesAllExtends(t: Table, nodes: seq<nat>, ids: seq<nat>, t': Table, exact: bool)
    requires Acyclic(t) && Arity(t) && Acyclic(t') && Arity(t') && t <= t' && In(t, nodes) && In(t, ids)
    requires exact ==> NegatesAll(t, nodes, ids)
    ensures exact ==> NegatesAll(t', nodes, ids)
  {
    if exact {
      forall k | 0 <= k < |ids| ensures nodes[k] in nodes && ids[k] in ids && Negates(t', nodes[k], ids[k]) {
        NegatesExtends(t, t', nodes[k], ids[k]);
      }
    }
  }

  // A disjunction, a constant or one of the operands: no equality over a sum comes in.
  lemma {:induction false} OrSumFree(t: Table, ids: seq<nat>, t': Table, r: nat, exact: bool)
    requires Acyclic(t) && Acyclic(t') && t <= t' && In(t, ids) && r < |t'|
    requires exact ==> AllSumFree(t, ids)
    requires r in ids || t'[r].kind == Or || Constant(t'[r].kind)
    ensures exact ==> SumFree(t', r)
    ensures t'[r].kind == Or ==> SumFree(t', r)
  {
    if exact && r in ids { SumFreeExtends(t, t', r); }
  }

  lemma {:induction false} CompareExtends(t: Table, r: nat, c: nat, n: Node, t': Table)
    requires Acyclic(t) && Arity(t) && Acyclic(t') && Arity(t') && t <= t' && r < |t| && c < |t|
    ensures LtMeans(t, r, c, n.op0) ==> LtMeans(t', r, c, n.op0)
    ensures GtMeans(t, r, c, n.op0) ==> GtMeans(t', r, c, n.op0)
    ensures EqMeans(t, r, c, n.op0) ==> EqMeans(t', r, c, n.op0)
  {
    forall m: Counts ensures Val(t', r, m) == Val(t, r, m) && Val(t', c, m) == Val(t, c, m) {
      ValExtends(t, t', r, m);
      ValExtends(t, t', c, m);
    }
    assert forall m: Counts :: Truth(t', r, m) <==> Truth(t, r, m);
  }

  lemma {:induction false} AndSumFree(t0: Table, ids: seq<nat>, others: set<nat>, sums: Sums, out: set<nat>,
      t: Table, r: nat)
    requires WellFormed(t0) && In(t0, ids) && WellFormed(t) && t0 <= t && r < |t|
    requires ConjunctsOf(t0, ids, [], others, sums) && (sums == map[] ==> out == others)
    requires out == {} ==> Constant(t[r].kind)
    requires |out| == 1 ==> out == {r}
    requires |out| > 1 ==> t[r].kind == And && Elements(t[r].children) == out
    ensures AllSumFree(t0, ids) ==> AndGuard(t0, ids) && SumFree(t, r)
  {
    if AllSumFree(t0, ids) {
      SumFreeGuard(t0, ids);
      NoSums(t0, ids, others, sums);
      ConnectedSumFree(t0, ids, out, t, r);
    }
  }

  lemma {:induction false} StartGather(t: Table, ids: seq<nat>, others: set<nat>, sums: Sums, exact: bool)
    requires WellFormed(t) && In(t, ids) && ConjunctsOf(t, ids, [], others, sums)
    ensures Gathered(t, ids, t, others, sums, sums.Keys, exact)
  {
  }

  lemma {:induction false} NoNegations(t: Table)
    requires WellFormed(t)
    ensures NegatesAll(t, [], []) && AllSumFree(t, [])
  {
  }

  lemma {:induction false} OrderNode(t: Table, r: nat, i: nat, v: u32)
    requires Acyclic(t) && Arity(t) && r < |t| && i < |t|
    ensures t[r] == Plain(Lt, v, [i]) ==> LtMeans(t, r, i, v) && LtCovers(t, r, i, v) && SumFree(t, r)
    ensures t[r] == Plain(Gt, v, [i]) ==> GtMeans(t, r, i, v) && GtCovers(t, r, i, v) && SumFree(t, r)
  {
    if t[r].children == [i] { assert i in t[r].children; }
  }

  lemma {:induction false} AlwaysFalse(t: Table, r: nat, i: nat)
    requires Acyclic(t) && Arity(t) && r < |t| && i < |t| && t[r].kind == False
    ensures LtMeans(t, r, i, 0) && LtCovers(t, r, i, 0) && SumFree(t, r)
  {
  }

  lemma {:induction false} AboveZero(t: Table, i: nat)
    requires Acyclic(t) && Arity(t) && i < |t|
    ensures GtMeans(t, i, i, 0) && GtCovers(t, i, i, 0)
  {
  }
}

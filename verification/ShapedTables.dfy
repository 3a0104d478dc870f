// Tables built from match counts, their sums, constant offsets, and counted compares and match counts:
// there negation is exact wherever it is defined, and every node that is neither an offset nor constant
// prints as it is meant.
module ShapedTables {
  import opened Words
  import opened LogicalNodes
  import opened WrappedRanges
  import opened SumModifiers
  import opened NodeRules
  import opened NodeOrder
  import opened NodeSums

  // A match count or a sum of them.
  predicate CountKind(k: Kind) { k == SubSignature || k == AddSum }

  // Kinds that print as a conjunction or a compare, which match once or not at all.
  predicate Single(k: Kind) { k == And || k == Eq || k == Gt || k == Lt }

  lemma {:induction false} SingleKinds(k: Kind)
    ensures Single(k) <==> k == And || k == Eq || k == Gt || k == Lt
  {
  }

  predicate OfCounts(t: Table, cs: seq<nat>) {
    cs != [] && forall c :: c in cs ==> c < |t| && t[c].kind == SubSignature
  }

  predicate OfConditions(t: Table, cs: seq<nat>) {
    0 < |cs| < TWO32 && forall c :: c in cs ==> c < |t| && Single(t[c].kind)
  }

  // Conditions and match counts, of which each is counted once if it is above zero.
  predicate OfTerms(t: Table, cs: seq<nat>) {
    0 < |cs| < TWO32 && forall c :: c in cs ==> c < |t| && (Single(t[c].kind) || t[c].kind == SubSignature)
  }

  // A sum that counts conditions.
  predicate Tallied(t: Table, c: nat) {
    c < |t| && (t[c].kind == AddUniq || t[c].kind == AddBoth) && OfConditions(t, t[c].children)
  }

  // What =X and the orders may look at: its total reads right.
  predicate Measure(t: Table, c: nat) {
    c < |t| && (CountKind(t[c].kind) || (t[c].kind == AddBoth && OfCounts(t, t[c].children)) || Tallied(t, c))
  }

  // =X on a sum of conditions: it stands only in disjunctions, for there it is not merged.
  predicate BareTotal(t: Table, i: nat) {
    i < |t| && SumEq(t, i) && t[i].op1 == ALL_ONES && Tallied(t, t[i].children[0])
  }

  // What may stand for a condition.
  predicate Usable(t: Table, i: nat) { i < |t| && t[i].kind != Add && (t[i].kind == AddBoth ==> Measure(t, i)) }

  // A condition that may be joined with others.
  predicate Joinable(t: Table, i: nat) { Usable(t, i) && !BareTotal(t, i) }

  ghost predicate AllJoinable(t: Table, ids: seq<nat>) { forall i :: i in ids ==> Joinable(t, i) }

  // A condition that may be negated: no =Y,Y or =X,Y on a sum that counts match counts stands in it.
  ghost predicate Firm(t: Table, i: nat)
    requires Acyclic(t) && i < |t|
  {
    if Connective(t[i].kind) then forall c :: c in t[i].children ==> Firm(t, c)
    else t[i].kind == Eq && t[i].op1 != ALL_ONES ==>
      t[i].children != [] && t[i].children[0] < |t| && OfConditions(t, t[t[i].children[0]].children)
  }

  ghost predicate AllFirm(t: Table, ids: seq<nat>)
    requires Acyclic(t)
  {
    forall i :: i in ids ==> i < |t| && Firm(t, i)
  }

  predicate OneChild(t: Table, n: Node) { |n.children| == 1 && n.children[0] < |t| }

  predicate CompareShaped(t: Table, n: Node) {
    OneChild(t, n) &&
    if n.op1 == ALL_ONES then Measure(t, n.children[0]) && (Tallied(t, n.children[0]) ==> n.op0 != ALL_ONES)
    else
      && n.kind == Eq && t[n.children[0]].kind == AddBoth && OfTerms(t, t[n.children[0]].children)
      && (n.op0 == n.op1 || OfCounts(t, t[n.children[0]].children))
  }

  ghost predicate ShapedNode(t: Table, n: Node) {
    match n.kind
    case SubSignature => n.op1 == ALL_ONES && n.children == []
    case True => n.children == []
    case False => n.children == []
    case And => n.op1 == ALL_ONES && AllJoinable(t, n.children)
    case Or => n.op1 == ALL_ONES && NoOffsets(t, n.children)
    case Eq => CompareShaped(t, n)
    case Gt => CompareShaped(t, n)
    case Lt => CompareShaped(t, n)
    case AddBoth => n.op1 == ALL_ONES && (OfCounts(t, n.children) || OfTerms(t, n.children))
    case AddSum => n.op1 == ALL_ONES && OfCounts(t, n.children)
    case AddUniq => n.op1 == ALL_ONES && OfTerms(t, n.children)
    case Add => n.op1 == ALL_ONES && OneChild(t, n) && (CountKind(t[n.children[0]].kind) || t[n.children[0]].kind == AddUniq)
    case Not => false
  }

  ghost predicate Shaped(t: Table) {
    forall i :: 0 <= i < |t| ==> ShapedNode(t, t[i])
  }

  ghost predicate NoOffsets(t: Table, ids: seq<nat>) { forall i :: i in ids ==> Usable(t, i) }

  lemma {:induction false} MeasureExtends(t: Table, t': Table, c: nat)
    requires Acyclic(t) && t <= t' && c < |t|
    ensures Tallied(t', c) <==> Tallied(t, c)
    ensures Measure(t', c) <==> Measure(t, c)
    ensures Usable(t', c) <==> Usable(t, c)
    ensures OfConditions(t', t[c].children) <==> OfConditions(t, t[c].children)
  {
  }

  lemma {:induction false} JoinableExtends(t: Table, t': Table, i: nat)
    requires Acyclic(t) && t <= t' && i < |t|
    ensures BareTotal(t', i) <==> BareTotal(t, i)
    ensures Joinable(t', i) <==> Joinable(t, i)
  {
    SumEqExtends(t, t', i);
    MeasureExtends(t, t', i);
    if SumEq(t, i) {
      assert t[i].children[0] in t[i].children;
      MeasureExtends(t, t', t[i].children[0]);
    }
  }

  lemma {:induction false} FirmExtends(t: Table, t': Table, i: nat)
    requires Acyclic(t) && Acyclic(t') && t <= t' && i < |t|
    ensures Firm(t', i) <==> Firm(t, i)
  {
    forall c | c in t[i].children ensures Firm(t', c) <==> Firm(t, c) { FirmExtends(t, t', c); }
    if t[i].kind == Eq && t[i].children != [] {
      assert t[i].children[0] in t[i].children;
      MeasureExtends(t, t', t[i].children[0]);
    }
  }

  lemma {:induction false} ShapedNodeExtends(t: Table, t': Table, n: Node)
    requires Acyclic(t) && t <= t' && ShapedNode(t, n)
    ensures ShapedNode(t', n)
  {
    if n.kind == And {
      forall c | c in n.children ensures Joinable(t', c) { JoinableExtends(t, t', c); }
    } else if n.kind == Or {
      forall c | c in n.children ensures Usable(t', c) { MeasureExtends(t, t', c); }
    } else if n.kind == Eq || n.kind == Gt || n.kind == Lt {
      MeasureExtends(t, t', n.children[0]);
    }
  }

  lemma {:induction false} ShapedAppend(t: Table, n: Node)
    requires Acyclic(t) && Shaped(t) && ShapedNode(t, n)
    ensures Shaped(t + [n])
  {
    var t' := t + [n];
    forall i | 0 <= i < |t'| ensures ShapedNode(t', t'[i]) {
      ShapedNodeExtends(t, t', t'[i]);
    }
  }

  // ---- negation is exact on firm conditions ----

  lemma {:induction false} MeasureGuards(t: Table, c: nat, v: u32)
    requires Acyclic(t) && Arity(t) && Measure(t, c) && (Tallied(t, c) ==> v != ALL_ONES)
    ensures EqGuard(t, c, v) && LtGuard(t, c, v) && GtGuard(t, c, v) && SumFree(t, c)
  {
  }

  // The operand of a firm compare is measured by its total.
  lemma {:induction false} FirmOperand(t: Table, i: nat)
    requires Acyclic(t) && Shaped(t) && i < |t| && (t[i].kind == Eq || t[i].kind == Gt || t[i].kind == Lt) && Firm(t, i)
    ensures t[i].children != [] && Measure(t, t[i].children[0]) && (Tallied(t, t[i].children[0]) ==> t[i].op0 != ALL_ONES)
    ensures t[i].op1 != ALL_ONES ==> t[i].op0 == t[i].op1 && t[t[i].children[0]].kind == AddBoth && Tallied(t, t[i].children[0])
  {
    assert ShapedNode(t, t[i]);
    var cs := t[t[i].children[0]].children;
    if t[i].op1 != ALL_ONES { assert cs[0] in cs; }
  }

  lemma {:induction false} ShapedNotGuard(t: Table, i: nat)
    requires WellFormed(t) && Shaped(t) && i < |t| && t[i].kind != Add && Firm(t, i)
    ensures NotGuard(t, i)
  {
    assert ShapedNode(t, t[i]);
    if Connective(t[i].kind) {
      forall c | c in t[i].children ensures NotGuard(t, c) { ShapedNotGuard(t, c); }
    } else if Unary(t[i].kind) {
      var c := t[i].children[0];
      assert c in t[i].children;
      FirmOperand(t, i);
      MeasureGuards(t, c, t[i].op0);
      if t[i].op1 != ALL_ONES { TalliedConditions(t, c); }
    }
  }

  lemma {:induction false} TalliedConditions(t: Table, c: nat)
    requires Acyclic(t) && c < |t| && Tallied(t, c)
    ensures Conditions(t, c)
  {
  }

  lemma {:induction false} ShapedNot(t: Table, i: nat)
    requires WellFormed(t) && i < |t|
    ensures Shaped(t) && t[i].kind != Add && Firm(t, i) ==> NotGuard(t, i)
  {
    if Shaped(t) && t[i].kind != Add && Firm(t, i) { ShapedNotGuard(t, i); }
  }

  // ---- what merging brings ----

  lemma {:induction false} AtomsJoinable(t: Table, ids: seq<nat>, a: nat)
    requires WellFormed(t) && Shaped(t) && In(t, ids) && AllJoinable(t, ids) && AtomOf(t, ids, a)
    ensures Joinable(t, a)
  {
    var i :| i in ids && a in Atoms(t, i);
    assert ShapedNode(t, t[i]);
  }

  lemma {:induction false} AtomsFirm(t: Table, ids: seq<nat>, a: nat)
    requires Acyclic(t) && In(t, ids) && AllFirm(t, ids) && AtomOf(t, ids, a) && a < |t|
    ensures Firm(t, a)
  {
    var i :| i in ids && a in Atoms(t, i);
  }

  // Only equalities over sums of match counts are merged, and they stay legible.
  lemma {:induction false} PairShaped(t: Table, n1: nat, n2: nat, c: nat)
    requires WellFormed(t) && Shaped(t) && Mergeable(t, n1, c) && Mergeable(t, n2, c) && Joinable(t, n1)
    requires t[n1].op1 == ALL_ONES && t[n2].op1 != ALL_ONES
    ensures ShapedNode(t, Node(Eq, t[n1].op0, t[n2].op1, [c]))
  {
    assert ShapedNode(t, t[n1]) && ShapedNode(t, t[n2]);
  }

  lemma {:induction false} PairJoinable(t: Table, n1: nat, n2: nat, t': Table, e: nat)
    requires Acyclic(t) && t <= t' && Paired(t, n1, n2, t', e)
    ensures Joinable(t', e)
  {
    assert t[n1].children[0] in t[n1].children;
  }

  // Firm conditions are never merged.
  lemma {:induction false} FirmUnpaired(t: Table, n1: nat, n2: nat, t': Table, e: nat)
    requires Acyclic(t) && Shaped(t) && Paired(t, n1, n2, t', e) && Joinable(t, n1)
    ensures !Firm(t, n2)
  {
    if Firm(t, n2) { FirmOperand(t, n2); }
  }

  lemma {:induction false} PlacedJoinable(t0: Table, ids: seq<nat>, t: Table, e: nat)
    requires WellFormed(t0) && Shaped(t0) && In(t0, ids) && AllJoinable(t0, ids) && t0 <= t && FromAtoms(t0, ids, t, e)
    ensures Joinable(t, e)
  {
    hide AtomOf, Paired, Canonical;
    if AtomOf(t0, ids, e) {
      AtomsJoinable(t0, ids, e);
      JoinableExtends(t0, t, e);
    } else {
      var n1, n2 :| AtomOf(t0, ids, n1) && AtomOf(t0, ids, n2) && Paired(t0, n1, n2, t, e);
      PairJoinable(t0, n1, n2, t, e);
    }
  }

  lemma {:induction false} AtomsAllJoinable(t0: Table, ids: seq<nat>, t: Table, eqs: seq<nat>)
    requires WellFormed(t0) && Shaped(t0) && In(t0, ids) && AllJoinable(t0, ids) && t0 <= t
    requires forall s :: s in eqs ==> AtomOf(t0, ids, s)
    ensures AllJoinable(t, eqs)
  {
    forall s | s in eqs ensures Joinable(t, s) {
      AtomsJoinable(t0, ids, s);
      JoinableExtends(t0, t, s);
    }
  }

  lemma {:induction false} JoinableAt(t: Table, eqs: seq<nat>, t': Table, n: nat)
    requires Acyclic(t) && t <= t' && AllJoinable(t, eqs) && n in eqs
    ensures Joinable(t', n)
  {
    JoinableExtends(t, t', n);
  }

  lemma {:induction false} PlacedFirm(t0: Table, ids: seq<nat>, t: Table, e: nat)
    requires WellFormed(t0) && Shaped(t0) && In(t0, ids) && AllJoinable(t0, ids) && AllFirm(t0, ids)
    requires Acyclic(t) && t0 <= t && FromAtoms(t0, ids, t, e)
    ensures e < |t| && Firm(t, e)
  {
    hide AtomOf, Paired, Canonical;
    if AtomOf(t0, ids, e) {
      AtomsJoinable(t0, ids, e);
      AtomsFirm(t0, ids, e);
      FirmExtends(t0, t, e);
    } else {
      var n1, n2 :| AtomOf(t0, ids, n1) && AtomOf(t0, ids, n2) && Paired(t0, n1, n2, t, e);
      AtomsJoinable(t0, ids, n1);
      AtomsJoinable(t0, ids, n2);
      AtomsFirm(t0, ids, n2);
      FirmUnpaired(t0, n1, n2, t, e);
    }
  }

  // Placed terms may stand in a conjunction, which is firm when the operands are.
  lemma {:induction false} PlacedShaped(t0: Table, ids: seq<nat>, t: Table, out: set<nat>)
    requires WellFormed(t0) && Shaped(t0) && In(t0, ids) && AllJoinable(t0, ids) && WellFormed(t) && t0 <= t
    requires AllFromAtoms(t0, ids, t, out)
    ensures TermsShaped(t, And, out) && (AllFirm(t0, ids) ==> TermsFirm(t, out))
  {
    hide FromAtoms, AllFirm, Canonical;
    forall c | c in out ensures Joinable(t, c) { PlacedJoinable(t0, ids, t, c); }
    if AllFirm(t0, ids) {
      forall c | c in out ensures c < |t| && Firm(t, c) { PlacedFirm(t0, ids, t, c); }
    }
  }

  lemma {:induction false} ConstantResult(t: Table, r: nat)
    requires Acyclic(t) && Arity(t) && r < |t| && Constant(t[r].kind)
    ensures Joinable(t, r) && Firm(t, r) && Lossless(t, r) && forall ns :: NumbersIn(t, r, ns)
  {
    forall ns ensures NumbersIn(t, r, ns) { SumFreeNumbers(t, r, ns); }
    SumFreeNumbers(t, r, NO_NUMBERS);
  }

  // ---- what the constructors take, to keep a table in shape ----

  // The entry an equality looks at, and the value it compares with, behind one offset.
  function EqBase(t: Table, i: nat): nat
    requires i < |t|
  {
    if t[i].kind == Add && t[i].children != [] then t[i].children[0] else i
  }

  function EqValue(t: Table, i: nat, v: u32): u32
    requires i < |t|
  {
    if t[i].kind == Add then Minus(v, t[i].op0) else v
  }

  // Operand and constant of an equality, and of an order.
  predicate EqShaped(t: Table, i: nat, v: u32) {
    i < |t| && EqBase(t, i) < |t| && (t[i].kind == Add ==> OneChild(t, t[i]))
    && (t[i].kind == Add || t[i].kind == AddUniq || Measure(t, i))
    && (t[EqBase(t, i)].kind == AddUniq || Tallied(t, EqBase(t, i)) ==> EqValue(t, i, v) != ALL_ONES)
  }

  // The equality is then firm.
  predicate EqFirm(t: Table, i: nat) {
    i < |t| && EqBase(t, i) < |t| && (t[EqBase(t, i)].kind == AddUniq ==> Tallied(t, EqBase(t, i)))
  }

  predicate OrderShaped(t: Table, i: nat, v: u32) {
    i < |t| &&
    if t[i].kind == Add then OneChild(t, t[i]) && CountKind(t[t[i].children[0]].kind)
    else Measure(t, i) && (Tallied(t, i) ==> v != ALL_ONES)
  }

  // Orders of a sum with offset that become one compare or two joined.
  predicate LtOnce(t: Table, i: nat, v: u32) {
    OrderShaped(t, i, v) && t[i].kind == Add && v != 0 && LtFolds(t[i].op0, v) && !(t[i].op0 == v == ALL_ONES)
  }

  predicate GtOnce(t: Table, i: nat, v: u32) {
    OrderShaped(t, i, v) && t[i].kind == Add && v != 0 && GtFolds(t[i].op0, v)
  }

  // The record of an equality over entry base: a sum is compared as AddBoth.
  ghost predicate EqRecord(t: Table, base: nat, v: u32, n: Node) {
    && base < |t| && OneChild(t, n) && n.kind == Eq && n.op0 == v
    && n.op1 == (if t[base].kind == AddUniq then v else ALL_ONES)
    && if t[base].kind == AddUniq || t[base].kind == AddSum
       then t[n.children[0]].kind == AddBoth && t[n.children[0]].children == t[base].children
       else n.children[0] == base
  }

  // Entry r is the equality of entry i with the value.
  ghost predicate EqFor(t: Table, i: nat, value: u32, r: nat) {
    i < |t| && r < |t| && EqRecord(t, EqBase(t, i), EqValue(t, i, value), t[r])
  }

  lemma {:induction false} EqNodeShaped(t0: Table, t: Table, i: nat, value: u32, n: Node)
    requires WellFormed(t0) && WellFormed(t) && t0 <= t && Shaped(t) && EqShaped(t0, i, value)
    requires EqRecord(t, EqBase(t, i), EqValue(t, i, value), n)
    ensures ShapedNode(t, n)
  {
    var base := EqBase(t, i);
    assert ShapedNode(t, t[i]) && ShapedNode(t, t[base]);
    if t[base].kind == AddSum { assert t[base].children[0] in t[base].children; }
    MeasureExtends(t0, t, i);
    MeasureExtends(t0, t, base);
  }

  lemma {:induction false} EqJoinable(t: Table, i: nat, value: u32, r: nat)
    requires WellFormed(t) && Shaped(t) && EqFor(t, i, value, r) && EqShaped(t, i, value) && t[i].kind != AddBoth
    ensures Joinable(t, r)
  {
    var base := EqBase(t, i);
    assert ShapedNode(t, t[i]) && ShapedNode(t, t[base]);
    if t[base].kind == AddSum { assert t[base].children[0] in t[base].children; }
  }

  lemma {:induction false} EqShapedExtends(t0: Table, t: Table, i: nat, value: u32)
    requires Acyclic(t0) && t0 <= t && EqShaped(t0, i, value)
    ensures EqShaped(t, i, value)
  {
    MeasureExtends(t0, t, i);
    MeasureExtends(t0, t, EqBase(t0, i));
  }

  lemma {:induction false} EqFirmExtends(t0: Table, t: Table, i: nat)
    requires Acyclic(t0) && t0 <= t && EqFirm(t0, i)
    ensures EqFirm(t, i)
  {
    MeasureExtends(t0, t, EqBase(t0, i));
  }

  // The record entered is the equality, and means it.
  lemma {:induction false} EqEntered(t0: Table, t1: Table, t: Table, i: nat, value: u32, n: Node, r: nat)
    requires WellFormed(t0) && WellFormed(t1) && WellFormed(t) && t0 <= t1 <= t && i < |t0| && r < |t| && t[r] == n
    requires EqBase(t1, i) < |t1| && EqRecord(t1, EqBase(t1, i), EqValue(t1, i, value), n)
    ensures EqFor(t, i, value, r) && t[r].kind == Eq
    ensures t0[i].kind != Add && !Additive(t0[i].kind) ==> t[r] == Node(Eq, value, ALL_ONES, [i])
    ensures EqGuard(t0, i, value) ==> EqMeans(t, r, i, value)
  {
    hide Canonical;
    GuardsExtend(t0, t, i);
    hide EqGuard;
    EqBuilt(t, i, value, EqBase(t, i), EqValue(t, i, value), n.children[0], n.op1, r);
    hide EqMeans;
  }

  // A match count compared with zero.
  lemma {:induction false} CountEqual(t: Table, i: nat)
    requires Acyclic(t) && i < |t| && t[i].kind == SubSignature
    ensures EqShaped(t, i, 0) && EqFirm(t, i)
  {
  }

  lemma {:induction false} EqIsFirm(t: Table, i: nat, value: u32, r: nat)
    requires Acyclic(t) && EqFor(t, i, value, r) && EqFirm(t, i)
    ensures Firm(t, r)
  {
  }

  // The number an equality brings to a conjunction.
  lemma {:induction false} EqBrings(t: Table, i: nat, value: u32, r: nat, ns: Numbers)
    requires WellFormed(t) && Shaped(t) && EqFor(t, i, value, r) && EqShaped(t, i, value)
    requires var (b, v) := (EqBase(t, i), EqValue(t, i, value));
      && (t[b].kind == AddSum || t[b].kind == AddBoth ==> v in ns.totals)
      && (t[b].kind == AddUniq && !Tallied(t, b) && 0 < v <= |t[b].children| ==> v in ns.uniqs)
    ensures NumbersIn(t, r, ns) && Lossless(t, r)
  {
    var b, v := EqBase(t, i), EqValue(t, i, value);
    if t[b].kind == AddUniq { UniqKeeps(t, b, v, r); }
    hide KeepsTotal, Tallied;
    EqNumber(t, i, value, r, ns);
    OwnGuard(t, r);
  }

  // Counting conditions, or beyond the number of terms, =Y,Y keeps the total.
  lemma {:induction false} UniqKeeps(t: Table, b: nat, v: u32, r: nat)
    requires WellFormed(t) && Shaped(t) && r < |t| && EqRecord(t, b, v, t[r]) && t[b].kind == AddUniq
    ensures Tallied(t, b) || v == 0 || v > |t[b].children| ==> KeepsTotal(t, t[r].children[0], v)
  {
    assert ShapedNode(t, t[b]);
    var c := t[r].children[0];
    if Tallied(t, b) {
      TalliedConditions(t, c);
    } else if v == 0 || v > |t[b].children| {
      hide Tallied, KeepsTotal;
      BeyondTerms(t, c, v);
    }
  }

  lemma {:induction false} EqNumber(t: Table, i: nat, value: u32, r: nat, ns: Numbers)
    requires WellFormed(t) && Shaped(t) && EqFor(t, i, value, r)
    requires var (b, v) := (EqBase(t, i), EqValue(t, i, value));
      && (t[b].kind == AddSum || t[b].kind == AddBoth ==> v in ns.totals)
      && (t[b].kind == AddUniq ==> v != ALL_ONES && (v in ns.uniqs || KeepsTotal(t, t[r].children[0], v)))
    ensures NumbersIn(t, r, ns)
    ensures forall a, b :: a in Atoms(t, r) && b in Atoms(t, r) ==> a <= r && b <= r && !Lossy(t, a, b)
  {
    hide KeepsTotal, Tallied, Measure, Shaped, Canonical;
    assert Atoms(t, r) == [r] && t[r].children[0] in t[r].children;
    assert Brings(t, r, ns);
    assert !Clash(t, r, r);
  }

  // ---- what an entry is ----

  // A condition that prints as matching at most once, a bare match count, or any other.
  datatype Form = Once | Bare | Open

  // A match count, a sum of match counts, a number of counted conditions or of counted conditions and
  // match counts, one of these plus a constant; a condition, whether it may be negated, and the numbers it
  // may bring to a conjunction.
  datatype Shape =
    | Subsig
    | Amount
    | Tally(terms: nat)
    | Mixed(terms: nat)
    | AmountPlus(off: u32)
    | TallyPlus(terms: nat, off: u32)
    | MixedPlus(terms: nat, off: u32)
    | Condition(form: Form, firm: bool, ns: Numbers)

  // A negatable condition without equalities over sums of match counts.
  const PLAIN := Condition(Open, true, NO_NUMBERS)

  function WordShape(t: Table, n: nat): Shape
    requires n < |t|
  {
    if t[n].kind == SubSignature then Subsig
    else if t[n].kind == AddSum then Amount
    else if t[n].kind == AddUniq then (if Tallied(t, n) then Tally(|t[n].children|) else Mixed(|t[n].children|))
    else if t[n].kind == Add && OneChild(t, t[n]) then
      var c := t[n].children[0];
      if t[c].kind != AddUniq then AmountPlus(t[n].op0)
      else if Tallied(t, c) then TallyPlus(|t[c].children|, t[n].op0) else MixedPlus(|t[c].children|, t[n].op0)
    else PLAIN
  }

  // What may pass for what: the more is known of a value, the more it may pass for.
  predicate Passes(s: Shape, s': Shape) {
    || s == s' || (s == Subsig && s' == Amount) || (s.Tally? && s' == Mixed(s.terms)) || (s.TallyPlus? && s' == MixedPlus(s.terms, s.off))
    || (s.Condition? && s'.Condition? && (s'.form == s.form || s'.form == Open) && (s'.firm ==> s.firm)
        && s.ns.totals <= s'.ns.totals && s.ns.uniqs <= s'.ns.uniqs)
  }

  predicate FormOf(k: Kind, form: Form) {
    match form
    case Once => Single(k)
    case Bare => k == SubSignature
    case Open => true
  }

  ghost predicate HasShape(t: Table, n: nat, s: Shape) {
    && Acyclic(t) && Arity(t) && n < |t|
    && if s.Condition?
       then Joinable(t, n) && FormOf(t[n].kind, s.form) && (s.firm ==> Firm(t, n)) && NumbersIn(t, n, s.ns) && Lossless(t, n)
       else Passes(WordShape(t, n), s)
  }

  function AmountShape(s: Shape): bool { s == Subsig || s == Amount }

  function TermsShape(s: Shape): bool { s.Tally? || s.Mixed? }

  // The shape of a sum; other additions are refused or count an offset twice.
  function PlusShape(a: Shape, b: Shape): Option<Shape> {
    if AmountShape(a) && AmountShape(b) then Some(Amount)
    else if TermsShape(a) && TermsShape(b) && a.terms + b.terms < TWO32 then
      Some(if a.Tally? && b.Tally? then Tally(a.terms + b.terms) else Mixed(a.terms + b.terms))
    else if AmountShape(a) && b.AmountPlus? then Some(b)
    else if a.AmountPlus? && AmountShape(b) then Some(a)
    else None
  }

  lemma {:induction false} PlusPasses(a: Shape, b: Shape, a': Shape, b': Shape)
    requires Passes(a, a') && Passes(b, b') && PlusShape(a', b').Some?
    ensures PlusShape(a, b).Some? && Passes(PlusShape(a, b).value, PlusShape(a', b').value)
  {
  }

  lemma {:induction false} PassesOn(a: Shape, b: Shape, c: Shape)
    requires Passes(a, b) && Passes(b, c)
    ensures Passes(a, c)
  {
  }

  lemma {:induction false} PassedShape(t: Table, n: nat, s: Shape, s': Shape)
    requires HasShape(t, n, s) && Passes(s, s')
    ensures HasShape(t, n, s')
  {
    if s.Condition? {
      NumbersWiden(t, n, s.ns, s'.ns);
    } else {
      PassesOn(WordShape(t, n), s, s');
    }
  }

  lemma {:induction false} HasShapeExtends(t: Table, t': Table, n: nat, s: Shape)
    requires Acyclic(t) && Arity(t) && Acyclic(t') && Arity(t') && t <= t' && HasShape(t, n, s)
    ensures HasShape(t', n, s)
  {
    JoinableExtends(t, t', n);
    FirmExtends(t, t', n);
    WordShapeExtends(t, t', n);
    if s.Condition? { NumbersExtend(t, t', n, s.ns); }
  }

  // A negation is without equalities over sums among its conjuncts.
  lemma {:induction false} PlainShape(t: Table, n: nat, ns: Numbers)
    requires Acyclic(t) && Arity(t) && Joinable(t, n) && Firm(t, n) && SumFree(t, n)
    ensures HasShape(t, n, Condition(Open, true, ns))
  {
    SumFreeNumbers(t, n, ns);
  }

  // ---- steps of the constructors ----

  // Terms a connective of the kind may hold.
  ghost predicate TermsShaped(t: Table, kind: Kind, terms: set<nat>) {
    forall c :: c in terms ==> if kind == And then Joinable(t, c) else Usable(t, c)
  }

  ghost predicate TermsFirm(t: Table, terms: set<nat>)
    requires Acyclic(t)
  {
    forall c :: c in terms ==> c < |t| && Firm(t, c)
  }

  lemma {:induction false} OrTermFirm(t: Table, nodes: set<nat>, ids: seq<nat>, s: nat)
    requires Acyclic(t) && AllFirm(t, ids) && s in ids && TermsFirm(t, nodes)
    ensures TermsFirm(t, OrTermsAfter(t, nodes, s))
  {
  }

  // A connective over firm terms is firm.
  lemma {:induction false} ConnectedFirm(t: Table, terms: set<nat>, t': Table, r: nat, kind: Kind)
    requires Acyclic(t) && Acyclic(t') && t <= t' && TermsFirm(t, terms) && r < |t'| && Connective(kind)
    requires terms == {} ==> Constant(t'[r].kind)
    requires |terms| == 1 ==> terms == {r}
    requires |terms| > 1 ==> t'[r].kind == kind && Elements(t'[r].children) == terms
    ensures Firm(t', r)
  {
    if |terms| == 0 { assert terms == {}; }
    forall c | c in terms ensures Firm(t', c) { FirmExtends(t, t', c); }
    if terms == {r} { assert r in terms; }
  }

  lemma {:induction false} OrTermShaped(t: Table, nodes: set<nat>, ids: seq<nat>, s: nat)
    requires WellFormed(t) && Shaped(t) && NoOffsets(t, ids) && s in ids && TermsShaped(t, Or, nodes)
    ensures TermsShaped(t, Or, OrTermsAfter(t, nodes, s))
  {
    assert ShapedNode(t, t[s]);
  }

  lemma {:induction false} TermsNodeShaped(t: Table, kind: Kind, terms: set<nat>, xs: seq<nat>)
    requires TermsShaped(t, kind, terms) && Connective(kind) && forall c :: c in xs ==> c in terms
    ensures ShapedNode(t, Plain(kind, ALL_ONES, xs))
  {
  }

  lemma {:induction false} ResultJoinable(t: Table, ids: seq<nat>, t': Table, r: nat)
    requires Acyclic(t) && t <= t' && AllJoinable(t, ids) && r < |t'| && (r in ids || t'[r].kind == Or || Constant(t'[r].kind))
    ensures Joinable(t', r)
  {
    if r in ids { JoinableExtends(t, t', r); }
  }

  lemma {:induction false} NoTermsShaped(t: Table)
    requires Acyclic(t)
    ensures TermsShaped(t, Or, {}) && TermsFirm(t, {})
  {
  }

  lemma {:induction false} ConjunctionJoinable(t: Table, out: set<nat>, t': Table, r: nat)
    requires Acyclic(t) && t <= t' && TermsShaped(t, And, out) && r < |t'|
    requires out == {} ==> Constant(t'[r].kind)
    requires |out| == 1 ==> out == {r}
    requires |out| > 1 ==> t'[r].kind == And
    ensures Joinable(t', r)
  {
    if r in out { JoinableExtends(t, t', r); }
    if out == {r} { assert r in out; }
    if |out| == 0 { assert out == {}; }
  }

  lemma {:induction false} ConnectiveShaped(t: Table, i: nat)
    requires Acyclic(t) && Shaped(t) && i < |t| && Connective(t[i].kind) && Firm(t, i)
    ensures NoOffsets(t, t[i].children) && AllFirm(t, t[i].children)
  {
    assert ShapedNode(t, t[i]);
  }

  lemma {:induction false} ChildFirm(t: Table, cs: seq<nat>, t': Table, c: nat)
    requires Acyclic(t) && Acyclic(t') && t <= t' && NoOffsets(t, cs) && AllFirm(t, cs) && c in cs
    ensures c < |t'| && Firm(t', c) && t'[c].kind != Add
  {
    FirmExtends(t, t', c);
  }

  lemma {:induction false} NoneShaped(t: Table)
    requires Acyclic(t)
    ensures AllJoinable(t, []) && AllFirm(t, [])
  {
  }

  lemma {:induction false} AllJoinableStep(t: Table, nodes: seq<nat>, t': Table, n: nat)
    requires Acyclic(t) && Acyclic(t') && t <= t' && AllJoinable(t, nodes) && AllFirm(t, nodes) && Joinable(t', n) && Firm(t', n)
    ensures AllJoinable(t', nodes + [n]) && AllFirm(t', nodes + [n])
  {
    forall k | k in nodes ensures Joinable(t', k) && Firm(t', k) {
      JoinableExtends(t, t', k);
      FirmExtends(t, t', k);
    }
  }

  lemma {:induction false} CountOrder(t: Table, i: nat)
    requires i < |t| && CountKind(t[i].kind)
    ensures forall v: u32 :: OrderShaped(t, i, v)
  {
  }

  // The bounds of a range of counts, joined.
  lemma {:induction false} RangeJoins(t: Table, nodes: seq<nat>, i: nat, lo: u32, hi: u32)
    requires i < |t| && CountKind(t[i].kind) && In(t, nodes) && (lo != 0 || hi != ALL_ONES) && !(lo == 1 && hi == ALL_ONES)
    requires |nodes| == (if lo != 0 then 1 else 0) + (if hi != ALL_ONES then 1 else 0)
    requires lo != 0 ==> nodes[0] < |t| && if lo == 1 then nodes[0] == i else t[nodes[0]].kind == Gt
    requires hi != ALL_ONES ==> nodes[|nodes| - 1] < |t| && t[nodes[|nodes| - 1]].kind == Lt
    ensures Joins(t, nodes)
  {
    assert |nodes| == 2 ==> nodes == [nodes[0], nodes[1]];
  }

  lemma {:induction false} CompareOperand(t: Table, i: nat)
    requires Acyclic(t) && Shaped(t) && i < |t| && (t[i].kind == Eq || t[i].kind == Gt || t[i].kind == Lt) && Firm(t, i)
    ensures t[i].children != [] && t[i].children[0] < |t| && t[t[i].children[0]].kind != Add
    ensures OrderShaped(t, t[i].children[0], t[i].op0) && EqShaped(t, t[i].children[0], t[i].op0) && EqFirm(t, t[i].children[0])
  {
    FirmOperand(t, i);
    assert ShapedNode(t, t[t[i].children[0]]);
  }

  lemma {:induction false} JoinablePair(t: Table, a: nat, t': Table, b: nat)
    requires Acyclic(t) && t <= t' && Joinable(t, a) && Joinable(t', b)
    ensures AllJoinable(t', [a, b]) && NoOffsets(t', [a, b])
  {
    JoinableExtends(t, t', a);
  }

  lemma {:induction false} FirmPair(t: Table, a: nat, t': Table, b: nat)
    requires Acyclic(t) && Acyclic(t') && t <= t' && Joinable(t, a) && Joinable(t', b) && Firm(t, a) && Firm(t', b)
    ensures AllJoinable(t', [a, b]) && NoOffsets(t', [a, b]) && AllFirm(t', [a, b])
  {
    JoinableExtends(t, t', a);
    FirmExtends(t, t', a);
  }

  lemma {:induction false} JoinableOffsets(t: Table, ids: seq<nat>)
    ensures AllJoinable(t, ids) ==> NoOffsets(t, ids)
  {
  }

  lemma {:induction false} ComparePair(t: Table, a: nat, b: nat)
    requires a < |t| && b < |t| && (t[a].kind == Lt || t[a].kind == Gt) && t[b].kind == Eq
    ensures NoOffsets(t, [a, b])
  {
  }

  lemma {:induction false} OrJoinable(t: Table, r: nat)
    requires r < |t| && t[r].kind == Or
    ensures Joinable(t, r)
  {
  }

  lemma {:induction false} CountTerms(t: Table, l: nat)
    requires Shaped(t) && l < |t| && CountKind(t[l].kind)
    ensures OfCounts(t, Terms(t, l))
  {
    assert ShapedNode(t, t[l]);
  }

  lemma {:induction false} UniqTerms(t: Table, l: nat)
    requires Shaped(t) && l < |t| && t[l].kind == AddUniq
    ensures OfTerms(t, Terms(t, l)) && |Terms(t, l)| == |t[l].children| && (Tallied(t, l) <==> OfConditions(t, Terms(t, l)))
  {
    assert ShapedNode(t, t[l]);
  }

  lemma {:induction false} SortedTerms(t: Table, a: seq<nat>, b: seq<nat>)
    requires Downward(t) && In(t, a + b)
    ensures OfCounts(t, a) && OfCounts(t, b) ==> OfCounts(t, Sort(t, a + b))
    ensures OfTerms(t, a) && OfTerms(t, b) && |a| + |b| < TWO32 ==>
      OfTerms(t, Sort(t, a + b)) && (OfConditions(t, Sort(t, a + b)) <==> OfConditions(t, a) && OfConditions(t, b))
  {
    hide Sort;
    assert |Sort(t, a + b)| == |a + b| && forall c :: c in Sort(t, a + b) <==> c in a || c in b;
  }

  function SumShape(kind: Kind, conditions: bool, terms: nat): Shape {
    if kind != AddUniq then Amount else if conditions then Tally(terms) else Mixed(terms)
  }

  lemma {:induction false} SumNodeShaped(t: Table, l: nat, r: nat, kind: Kind)
    requires Shaped(t) && l < |t| && r < |t| && PlusShape(WordShape(t, l), WordShape(t, r)).Some?
    requires t[l].kind != Add && t[r].kind != Add && kind == SumKind(t, l)
    requires Downward(t) && In(t, Terms(t, l) + Terms(t, r))
    ensures var n := Plain(kind, ALL_ONES, Sort(t, Terms(t, l) + Terms(t, r)));
      && ShapedNode(t, n)
      && PlusShape(WordShape(t, l), WordShape(t, r)).value == SumShape(kind, OfConditions(t, n.children), |n.children|)
  {
    hide Sort, Shaped, OfCounts, OfConditions, OfTerms;
    SortedTerms(t, Terms(t, l), Terms(t, r));
    if kind == AddUniq {
      UniqTerms(t, l);
      UniqTerms(t, r);
    } else {
      CountTerms(t, l);
      CountTerms(t, r);
    }
    hide Terms;
  }

  lemma {:induction false} OffsetBase(t: Table, r: nat)
    requires Shaped(t) && r < |t| && t[r].kind == Add
    ensures OneChild(t, t[r]) && (WordShape(t, r).AmountPlus? <==> CountKind(t[t[r].children[0]].kind))
  {
    assert ShapedNode(t, t[r]);
  }

  lemma {:induction false} PlusCommutes(a: Shape, b: Shape)
    ensures PlusShape(a, b) == PlusShape(b, a)
  {
  }

  lemma {:induction false} UniqNodeShaped(t: Table, i: nat)
    requires i < |t|
    ensures Single(t[i].kind) || t[i].kind == SubSignature ==> ShapedNode(t, Plain(AddUniq, ALL_ONES, [i]))
  {
  }

  // A count under the offset of r: the sum of l with what r offsets.
  lemma {:induction false} UnderOffset(t: Table, l: nat, r: nat)
    requires Shaped(t) && l < |t| && r < |t| && t[r].kind == Add && PlusShape(WordShape(t, l), WordShape(t, r)).Some?
    ensures OneChild(t, t[r]) && PlusShape(WordShape(t, l), WordShape(t, t[r].children[0])) == Some(Amount) && t[l].kind != Add
    ensures PlusShape(WordShape(t, l), WordShape(t, r)) == Some(AmountPlus(t[r].op0))
  {
    OffsetBase(t, r);
  }

  lemma {:induction false} OffsetOfAmount(t: Table, n: nat, i: nat, off: u32)
    requires n < |t| && i < |t| && t[n] == Plain(Add, off, [i]) && AmountShape(WordShape(t, i))
    ensures WordShape(t, n) == AmountPlus(off)
  {
  }

  lemma {:induction false} WordShapeExtends(t: Table, t': Table, i: nat)
    requires Acyclic(t) && Arity(t) && t <= t' && i < |t|
    ensures WordShape(t', i) == WordShape(t, i)
  {
    MeasureExtends(t, t', i);
    if t[i].kind == Add {
      assert t[i].children[0] in t[i].children;
      MeasureExtends(t, t', t[i].children[0]);
    }
  }

  lemma {:induction false} AmountKind(t: Table, i: nat)
    requires i < |t| && AmountShape(WordShape(t, i))
    ensures CountKind(t[i].kind)
  {
  }

  lemma {:induction false} SumWordShape(t: Table, t': Table, s: nat)
    requires t <= t' && s < |t'| && In(t, t'[s].children) && (t'[s].kind == AddSum || t'[s].kind == AddUniq)
    ensures WordShape(t', s) == SumShape(t'[s].kind, OfConditions(t, t'[s].children), |t'[s].children|)
  {
  }

  lemma {:induction false} BoundJoinable(t: Table, nodes: seq<nat>)
    requires Acyclic(t) && |nodes| <= 1 && (nodes != [] ==> Joinable(t, nodes[0]) && Firm(t, nodes[0]))
    ensures AllJoinable(t, nodes) && AllFirm(t, nodes)
  {
  }
}

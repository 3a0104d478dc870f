// Compiles a function over match counts to one logical node.
module LogicalCompiler {
  import opened Words
  import opened LogicalNodes
  import opened LogicalProgram
  import opened SumModifiers
  import opened NodeRules
  import opened NodeSums
  import opened NodeStore
  import opened WrappedRanges
  import opened Routes
  import opened CompilerRules
  import opened PhiRules
  import opened CompilerProof
  import opened NodeOrder
  import opened ShapedTables
  import opened ShapedPrograms
  import opened DeniableNodes
  import opened NodeEstimates
  import opened TakenPrograms

  class Compiler {
    const store: Store
    var entries: Entries
    var exitNodesOr: seq<nat>
    var exitNodesAnd: seq<nat>
    // Every constructor so far was called where it is exact.
    ghost var guarded: bool
    // The shapes the values are expected to have.
    ghost const shapes: Shapes
    // What is told of the values beforehand.
    ghost const estimates: Estimates

    ghost predicate Valid()
      reads this, store
    {
      store.Valid() && EntriesIn(store.table, entries) && In(store.table, exitNodesOr) && In(store.table, exitNodesAnd)
    }

    // The values so far have their shapes.
    ghost predicate InShape()
      reads this, store
    {
      StateShaped(store.table, entries, shapes, exitNodesOr, exitNodesAnd)
    }

    // The values so far are as estimated.
    ghost predicate InEstimate()
      reads this, store
    {
      Acyclic(store.table) && EntriesEstimated(store.table, entries, estimates)
    }

    constructor (ghost shapes: Shapes, ghost estimates: Estimates)
      ensures Valid() && fresh(store) && store.table == [] && this.shapes == shapes && this.estimates == estimates
      ensures entries == map[] && exitNodesOr == [] && exitNodesAnd == [] && guarded
    {
      store := new Store();
      entries := map[];
      exitNodesOr, exitNodesAnd := [], [];
      guarded := true;
      this.shapes := shapes;
      this.estimates := estimates;
    }

    // ---- nodes for single instructions: exact is the guard under which the node means the instruction ----

    // What an instruction in shape comes to, when the values before it were.
    ghost predicate KeepsShape(was: bool, i: Inst, st: Status, r: nat, exact: bool)
      reads this, store
    {
      was && InstShaped(shapes, i) ==>
        && (st == Done || st == Empty || st == Invalid ==> Shaped(store.table))
        && (st == Done ==> exact && !NoNode(shapes, i) && HasShape(store.table, r, ShapeFor(shapes, i.x)))
    }

    method CompareNodeFor(i: Inst) returns (st: Status, r: nat, ghost exact: bool)
      requires Valid() && i.ICmp?
      modifies store
      ensures Valid() && Grown(old(store.table), store.table)
      ensures st == (match Find(entries, Measured(i))
                     case Absent => Invalid
                     case _ =>
                       if !Against(i).Const? || !Unsigned(i.p) || Trivial(i.p, Against(i).v) then Invalid
                       else if Find(entries, Measured(i)).At? then Done
                       else if PassesThrough(i.p, Against(i).v) then Empty else Crash)
      ensures st == Done ==> r < |store.table| && (exact && Fragment(i) ==> NodeFor(old(store.table), entries, store.table, i, r))
      ensures KeepsShape(old(InShape()), i, st, r, exact)
      ensures NodeEstimated(old(InEstimate()), estimates, i, st, store.table, r)
    {
      hide Val, NodeFor, ComparesAs, Canonical, Shaped, HasShape, CompareShape, OneTerm;
      hide EntriesEstimated, Estimated, ComparedTo, CompareEstimate;
      r, exact := 0, true;
      ghost var known := InEstimate();
      ghost var shaped := InShape() && InstShaped(shapes, i);
      var o, c := i.a, i.b;
      if o.Const? { o, c := c, o; }
      if !c.Const? { return Invalid, r, exact; }
      var v, found := c.v, Find(entries, o);
      if found.Absent? { return Invalid, r, exact; }
      if found.Null? {
        // a refused predicate is reported before the node is looked into, and above zero never does
        st := if !Unsigned(i.p) || Trivial(i.p, v) then Invalid else if PassesThrough(i.p, v) then Empty else Crash;
        return st, r, exact;
      }
      var n := found.id;
      ghost var t0 := store.table;
      if shaped { CompareInferred(t0, entries, shapes, i, n); }
      st, r, exact := Compared(i.p, n, v, ShapeFor(shapes, o.x));
      if known && st == Done { CompareKnown(t0, entries, estimates, i, n, store.table, r); }
      if st == Done && shaped { CompareInShape(t0, entries, shapes, i, n, store.table, r); }
      if st == Done && exact && Fragment(i) { CompareNode(t0, entries, store.table, i, o, v, n, r); }
    }

    // Trivial bounds and signed predicates are refused.
    method Compared(p: Predicate, n: nat, v: u32, ghost s: Shape) returns (st: Status, r: nat, ghost exact: bool)
      requires store.Valid() && n < |store.table|
      modifies store
      ensures store.Valid() && Grown(old(store.table), store.table)
      ensures st == if !Unsigned(p) || Trivial(p, v) then Invalid else Done
      ensures st == Done ==> r < |store.table| && (exact ==> ComparesAs(store.table, r, n, p, v))
      ensures st == Done ==> ComparedTo(old(store.table), n, p, v, store.table, r)
      ensures Shaped(old(store.table)) && HasShape(old(store.table), n, s) && CompareShape(s, p, v).Some? ==>
        Shaped(store.table) && (st == Done ==> exact && HasShape(store.table, r, CompareShape(s, p, v).value))
    {
      hide Val, Canonical, Shaped, HasShape, Joinable, Firm, OneTerm, EqMeans, GtMeans, LtMeans, ComparesAs;
      hide EqualShape, UnequalShape, OverShape, UnderShape, EqualTo, UnequalTo, OverBound, UnderBound;
      r, exact, st := 0, true, Done;
      if p == EQ {
        r, exact := Equal(n, v, s);
        if exact { MeansCompares(store.table, r, n, p, v); }
      } else if p == NE {
        r, exact := Unequal(n, v, s);
      } else if p == UGT || p == UGE {
        if p == UGE && v == 0 { return Invalid, r, exact; }
        r, exact := Above(n, if p == UGT then v else v - 1, s);
        if exact { MeansCompares(store.table, r, n, p, v); }
      } else if p == ULT || p == ULE {
        if p == ULE && v == ALL_ONES { return Invalid, r, exact; }
        r, exact := Below(n, if p == ULT then v else v + 1, s);
        if exact { MeansCompares(store.table, r, n, p, v); }
      } else {
        st := Invalid;
      }
    }

    method Equal(n: nat, v: u32, ghost s: Shape) returns (r: nat, ghost exact: bool)
      requires store.Valid() && n < |store.table|
      modifies store
      ensures store.Valid() && Grown(old(store.table), store.table) && r < |store.table|
      ensures exact ==> EqMeans(store.table, r, n, v)
      ensures EqualTo(old(store.table), n, v, store.table, r)
      ensures Shaped(old(store.table)) && HasShape(old(store.table), n, s) && EqualShape(s, v).Some? ==>
        Shaped(store.table) && exact && HasShape(store.table, r, EqualShape(s, v).value)
    {
      hide Val, Canonical, Shaped, HasShape, EqShaped, EqFirm, EqFor, Joinable, Firm, EqGuard, EqMeans, EqualShape, OneTerm;
      ghost var t0 := store.table;
      ghost var shaped := Shaped(t0) && HasShape(t0, n, s) && EqualShape(s, v).Some?;
      if shaped { EqualInRange(t0, n, s, v); }
      exact := EqGuard(t0, n, v);
      r := store.GetEQ(n, v);
      if shaped { EqualHasShape(t0, store.table, n, s, v, r); }
    }

    // Above and below a bound.
    method Above(n: nat, b: u32, ghost s: Shape) returns (r: nat, ghost exact: bool)
      requires store.Valid() && n < |store.table|
      modifies store
      ensures store.Valid() && Grown(old(store.table), store.table) && r < |store.table|
      ensures exact ==> GtMeans(store.table, r, n, b)
      ensures OverBound(old(store.table), n, b, store.table, r)
      ensures Shaped(old(store.table)) && HasShape(old(store.table), n, s) && OverShape(s, b).Some? ==>
        Shaped(store.table) && exact && HasShape(store.table, r, OverShape(s, b).value)
    {
      hide Val, Canonical, Shaped, HasShape, OrderShaped, GtOnce, Joinable, Firm, SumFree, GtGuard, GtMeans, OverShape, OneTerm;
      ghost var t0 := store.table;
      ghost var shaped := Shaped(t0) && HasShape(t0, n, s) && OverShape(s, b).Some?;
      if shaped { OverInRange(t0, n, s, b); }
      exact := GtGuard(t0, n, b);
      r := store.GetGT(n, b);
      if shaped { OrderHasShape(store.table, r, OverShape(s, b).value); }
    }

    method Below(n: nat, b: u32, ghost s: Shape) returns (r: nat, ghost exact: bool)
      requires store.Valid() && n < |store.table|
      modifies store
      ensures store.Valid() && Grown(old(store.table), store.table) && r < |store.table|
      ensures exact ==> LtMeans(store.table, r, n, b)
      ensures UnderBound(old(store.table), n, b, store.table, r)
      ensures Shaped(old(store.table)) && HasShape(old(store.table), n, s) && UnderShape(s, b).Some? ==>
        Shaped(store.table) && exact && HasShape(store.table, r, UnderShape(s, b).value)
    {
      hide Val, Canonical, Shaped, HasShape, OrderShaped, LtOnce, Joinable, Firm, SumFree, LtGuard, LtMeans, UnderShape, OneTerm;
      ghost var t0 := store.table;
      ghost var shaped := Shaped(t0) && HasShape(t0, n, s) && UnderShape(s, b).Some?;
      if shaped { UnderInRange(t0, n, s, b); }
      exact := LtGuard(t0, n, b);
      r := store.GetLT(n, b);
      if shaped { OrderHasShape(store.table, r, UnderShape(s, b).value); }
    }

    // a != b is !(a == b)
    method Unequal(n: nat, v: u32, ghost s: Shape) returns (r: nat, ghost exact: bool)
      requires store.Valid() && n < |store.table|
      modifies store
      ensures store.Valid() && Grown(old(store.table), store.table) && r < |store.table|
      ensures exact ==> ComparesAs(store.table, r, n, NE, v)
      ensures UnequalTo(old(store.table), n, v, store.table, r)
      ensures Shaped(old(store.table)) && HasShape(old(store.table), n, s) && UnequalShape(s, v).Some? ==>
        Shaped(store.table) && exact && HasShape(store.table, r, UnequalShape(s, v).value)
    {
      hide Val, Canonical, Shaped, HasShape, EqShaped, EqFirm, EqFor, Joinable, Firm, SumFree, NotGuard, Negates;
      hide EqGuard, EqMeans, ComparesAs, UnequalShape, OneTerm, UnequalTo, DeniedWithin;
      ghost var t0 := store.table;
      ghost var shaped := Shaped(t0) && HasShape(t0, n, s) && UnequalShape(s, v).Some?;
      if shaped { UnequalInRange(t0, n, s, v); }
      var e := store.GetEQ(n, v);
      ghost var t1 := store.table;
      assert Negatable(t1, e);
      var not := store.GetNot(e);
      r := not.value;
      UnequalSized(t0, n, v, t1, e, store.table, r);
      ShapedNot(t1, e);
      exact := EqGuard(t0, n, v) && NotGuard(t1, e);
      if exact { NotEqual(t1, store.table, n, v, e, r); }
      if shaped { UnequalHasShape(t0, store.table, n, s, v, r); }
    }

    method AddNodeFor(i: Inst) returns (st: Status, r: nat, ghost exact: bool)
      requires Valid() && i.AddI?
      modifies store
      ensures Valid() && old(store.table) <= store.table && st != Invalid && st != Empty
      ensures i.b.Const? ==> Grown(old(store.table), store.table)
      ensures Find(entries, i.a).Absent? || (i.b.Var? && Find(entries, i.b).Absent?) ==> st == Rejected
      ensures i.b.Const? && !Find(entries, i.a).Absent? ==> st == if Find(entries, i.a).At? then Done else Crash
      ensures i.b.Var? && Find(entries, i.a).At? && Find(entries, i.b).At? ==>
        AddsOnce(old(store.table), Find(entries, i.a).id, Find(entries, i.b).id, st)
      ensures st == Done ==> r < |store.table| && Unique(store.table[r].children)
      ensures st == Done ==> (exact && Fragment(i) ==> NodeFor(old(store.table), entries, store.table, i, r))
      ensures KeepsShape(old(InShape()), i, st, r, exact)
      ensures NodeEstimated(old(InEstimate()), estimates, i, st, store.table, r)
    {
      hide Canonical, Shaped, NodeFor, Val, HasShape, InstShaped, EntriesShaped, Adds, AddsOnce, PlusShape;
      hide WordShape, OneTerm, EntriesEstimated, Estimated, AddsTerms, SumEstimate;
      r, exact := 0, true;
      ghost var known := InEstimate();
      ghost var t0, shaped := store.table, InShape() && InstShaped(shapes, i);
      var a := Find(entries, i.a);
      if a.Absent? { return Rejected, r, exact; }
      if i.b.Const? {
        if a.Null? { return Crash, r, exact; }
        r := OffsetNodeFor(i, a.id);
        return Done, r, exact;
      }
      var b := Find(entries, i.b);
      if b.Absent? { return Rejected, r, exact; }
      if a.Null? || b.Null? { return Crash, r, exact; }
      if shaped { SumOperands(t0, entries, shapes, i, a.id, b.id); }
      st, r, exact := SumNodeFor(a.id, b.id);
      if known && st == Done { SumKnown(t0, entries, estimates, i, a.id, b.id, store.table, r); }
      if st == Done && exact && Fragment(i) { AddNode(t0, entries, store.table, i, r, a.id, b.id); }
      if shaped && st == Done { SumInShape(t0, entries, shapes, i, a.id, b.id, store.table, r); }
    }

    method OffsetNodeFor(i: Inst, id: nat) returns (r: nat)
      requires Valid() && i.AddI? && i.b.Const? && Find(entries, i.a) == At(id)
      modifies store
      ensures Valid() && Grown(old(store.table), store.table) && r < |store.table| && store.table[r].children == [id]
      ensures Fragment(i) ==> NodeFor(old(store.table), entries, store.table, i, r)
      ensures KeepsShape(old(InShape()), i, Done, r, true)
      ensures NodeEstimated(old(InEstimate()), estimates, i, Done, store.table, r)
    {
      hide Canonical, Shaped, NodeFor, Val, HasShape, InstShaped, EntriesShaped, OneTerm, EntriesEstimated, Estimated;
      ghost var known := InEstimate();
      ghost var t0, shaped := store.table, InShape() && InstShaped(shapes, i);
      if shaped { OffsetOperand(t0, entries, shapes, i, id); }
      r := store.GetOffset(id, i.b.v);
      if known { OffsetKnown(t0, entries, estimates, i, id, store.table, r); }
      if Fragment(i) { AddNode(t0, entries, store.table, i, r, id, 0); }
      if shaped { OffsetInShape(t0, entries, shapes, i, id, store.table, r); }
    }

    // No term is added twice, unless an offset stands between.
    method SumNodeFor(l: nat, r: nat) returns (st: Status, s: nat, ghost exact: bool)
      requires store.Valid() && l < |store.table| && r < |store.table|
      modifies store
      ensures store.Valid() && old(store.table) <= store.table && st != Invalid && st != Empty
      ensures AddsOnce(old(store.table), l, r, st)
      ensures st == Done ==> s < |store.table| && Unique(store.table[s].children)
      ensures st == Done ==> AddsTerms(old(store.table), l, r, store.table, s)
      ensures st == Done && exact ==> Adds(store.table, s, l, r, 0)
      ensures Shaped(old(store.table)) && PlusShape(WordShape(old(store.table), l), WordShape(old(store.table), r)).Some? && st == Done ==>
        && Shaped(store.table) && (old(store.table)[l].kind != Add || old(store.table)[r].kind != Add ==> exact)
        && WordShape(store.table, s) == PlusShape(WordShape(old(store.table), l), WordShape(old(store.table), r)).value
    {
      hide Canonical, Shaped, Terms, Collects, Val, WordShape, PlusShape, Adds, OneTerm;
      s, exact := 0, true;
      ghost var t0 := store.table;
      assert Downward(t0);
      var sum := store.GetSum(l, r);
      if sum.Mismatch? { return Rejected, s, exact; }
      if sum.NullOperand? { return Crash, s, exact; }
      s := sum.node;
      if t0[l].kind != Add && t0[r].kind != Add {
        CollectedUnique(t0, store.table, s, l, r);
        CollectedTermsOf(t0, l, r, store.table, s);
      }
      var distinct := CheckUniq(store.table[s].children);
      if !distinct { return Rejected, s, exact; }
      st := Done;
      exact := Drift(t0, l, r) == 0;
      DriftFree(t0, l, r);
    }

    // No term is added twice.
    method CheckUniq(children: seq<nat>) returns (uniq: bool)
      ensures uniq <==> Unique(children)
    {
      for i := 0 to |children|
        invariant forall j, k :: 0 <= j < i && j < k < |children| ==> children[j] != children[k]
      {
        if children[i] in children[i + 1..] {
          var k :| 0 <= k < |children[i + 1..]| && children[i + 1..][k] == children[i];
          assert children[i] == children[i + 1 + k];
          return false;
        }
        forall k | i < k < |children| ensures children[i] != children[k] {
          assert children[k] == children[i + 1..][k - i - 1];
        }
      }
      uniq := true;
    }

    method LogicNodeFor(i: Inst) returns (st: Status, r: nat, ghost exact: bool)
      requires Valid() && (i.AndI? || i.OrI?)
      modifies store
      ensures Valid() && Grown(old(store.table), store.table)
      ensures st == if Find(entries, i.a).Absent? || Find(entries, i.b).Absent? then Rejected
                    else if Find(entries, i.a).Null? || Find(entries, i.b).Null? then Crash else Done
      ensures st == Done ==> r < |store.table| && (exact && Fragment(i) ==> NodeFor(old(store.table), entries, store.table, i, r))
      ensures KeepsShape(old(InShape()), i, st, r, exact)
      ensures NodeEstimated(old(InEstimate()), estimates, i, st, store.table, r)
    {
      hide Canonical, Shaped, HasShape, NodeFor, Val, AndGuard, EntriesShaped, AndShape, OrShape, OneTerm;
      hide EntriesEstimated, Estimated, JoinsTwo, JoinEstimate;
      r, exact := 0, true;
      ghost var known := InEstimate();
      ghost var t0 := store.table;
      var a, b := Find(entries, i.a), Find(entries, i.b);
      if a.Absent? || b.Absent? { return Rejected, r, exact; }
      if a.Null? || b.Null? { return Crash, r, exact; }
      ghost var shaped := InShape() && InstShaped(shapes, i);
      ghost var sa, sb := OperandShape(shapes, i.a), OperandShape(shapes, i.b);
      if shaped {
        FlagOperand(t0, entries, shapes, i.a, a.id);
        FlagOperand(t0, entries, shapes, i.b, b.id);
      }
      if i.AndI? { r, exact := JoinTwo(a.id, b.id, sa, sb); } else { r := EitherTwo(a.id, b.id, sa, sb); }
      st := Done;
      if known { JoinKnown(t0, entries, estimates, i, a.id, b.id, store.table, r); }
      if exact && Fragment(i) { LogicNode(t0, entries, store.table, i, r, a.id, b.id); }
      if shaped { InferredShape(shapes, i, store.table, r); }
    }

    // The conjunction of two conditions.
    method JoinTwo(a: nat, b: nat, ghost sa: Shape, ghost sb: Shape) returns (r: nat, ghost exact: bool)
      requires store.Valid() && a < |store.table| && b < |store.table|
      modifies store
      ensures store.Valid() && Grown(old(store.table), store.table) && r < |store.table|
      ensures exact ==> Conjoins(store.table, r, [a, b])
      ensures JoinsTwo(old(store.table), a, b, store.table, r)
      ensures Shaped(old(store.table)) && HasShape(old(store.table), a, sa) && HasShape(old(store.table), b, sb)
          && AndShape(sa, sb).Some?
        ==> Shaped(store.table) && exact && HasShape(store.table, r, AndShape(sa, sb).value)
    {
      hide Val, Canonical, Shaped, HasShape, AndGuard, AllNumbersIn, NumbersIn, Lossless, Joinable, AllJoinable, Firm, AllFirm;
      hide Joins, Conjoins, Implied, SumFree, AllSumFree, OneTerm, AsDeniable, Trees, JoinsTwo;
      ghost var t0 := store.table;
      ghost var shaped := Shaped(t0) && HasShape(t0, a, sa) && HasShape(t0, b, sb) && AndShape(sa, sb).Some?;
      if shaped { AndOperands(t0, a, b, sa, sb); }
      exact := AndGuard(t0, [a, b]);
      r := store.GetAnd([a, b]);
      TwoJoined(t0, a, b, store.table, r);
      if shaped { ConditionShape(store.table, r, AndShape(sa, sb).value); }
    }

    // The disjunction of two conditions.
    method EitherTwo(a: nat, b: nat, ghost sa: Shape, ghost sb: Shape) returns (r: nat)
      requires store.Valid() && a < |store.table| && b < |store.table|
      modifies store
      ensures store.Valid() && Grown(old(store.table), store.table) && r < |store.table| && Disjoins(store.table, r, [a, b])
      ensures JoinsTwo(old(store.table), a, b, store.table, r)
      ensures Shaped(old(store.table)) && HasShape(old(store.table), a, sa) && HasShape(old(store.table), b, sb)
          && OrShape(sa, sb).Some?
        ==> Shaped(store.table) && HasShape(store.table, r, OrShape(sa, sb).value)
    {
      hide Val, Canonical, Shaped, HasShape, AllNumbersIn, Lossless, Joinable, AllJoinable, NoOffsets, Firm, AllFirm, OnlyTerm;
      hide Disjoins, OneTerm, AsDeniable, Trees, JoinsTwo;
      ghost var t0 := store.table;
      ghost var shaped := Shaped(t0) && HasShape(t0, a, sa) && HasShape(t0, b, sb) && OrShape(sa, sb).Some?;
      if shaped { OrOperands(t0, a, b, sa, sb); }
      r := store.GetOr([a, b]);
      TwoJoined(t0, a, b, store.table, r);
      if shaped { OrHasShape(t0, a, b, sa, sb, store.table, r); }
    }

    method XorNodeFor(i: Inst) returns (st: Status, r: nat, ghost exact: bool)
      requires Valid() && i.XorI?
      modifies store
      ensures Valid() && Grown(old(store.table), store.table)
      ensures st == if i.b != Const(1) || Find(entries, i.a).Absent? then Rejected
                    else if Find(entries, i.a).At? && Negatable(old(store.table), Find(entries, i.a).id) then Done else Crash
      ensures st == Done ==> r < |store.table| && (exact && Fragment(i) ==> NodeFor(old(store.table), entries, store.table, i, r))
      ensures KeepsShape(old(InShape()), i, st, r, exact)
      ensures NodeEstimated(old(InEstimate()), estimates, i, st, store.table, r)
    {
      hide Canonical, Shaped, HasShape, EntriesShaped, NodeFor, Val, Negatable, Negates, OneTerm;
      hide EntriesEstimated, Estimated, DeniedWithin, DenyEstimate, Deniable;
      r, exact := 0, true;
      ghost var known := InEstimate();
      ghost var t0 := store.table;
      if i.b != Const(1) { return Rejected, r, exact; }
      var a := Find(entries, i.a);
      if a.Absent? { return Rejected, r, exact; }
      if a.Null? { return Crash, r, exact; }
      ghost var shaped := InShape() && InstShaped(shapes, i);
      if shaped { FlagOperand(t0, entries, shapes, i.a, a.id); }
      var not;
      not, exact := Denied(a.id, OperandShape(shapes, i.a));
      if not.None? { return Crash, r, exact; }
      st, r := Done, not.value;
      if known { DenyKnown(t0, entries, estimates, i, a.id, store.table, r); }
      if exact && Fragment(i) { XorNode(t0, entries, store.table, i, r, a.id); }
      if shaped { InferredShape(shapes, i, store.table, r); }
    }

    method ZExtNodeFor(i: Inst) returns (st: Status, r: nat, ghost exact: bool)
      requires Valid() && i.ZExt?
      modifies store
      ensures Valid() && Grown(old(store.table), store.table)
      ensures st == if Find(entries, i.a).Absent? || i.from != 1 || i.to != 32 then Rejected
                    else if Find(entries, i.a).Null? then Crash else Done
      ensures st == Done ==> r < |store.table| && forall m: Counts :: Val(store.table, r, m) == Bit(Truth(store.table, Find(entries, i.a).id, m))
      ensures st == Done ==> (exact && Fragment(i) ==> NodeFor(old(store.table), entries, store.table, i, r))
      ensures KeepsShape(old(InShape()), i, st, r, exact)
      ensures NodeEstimated(old(InEstimate()), estimates, i, st, store.table, r)
    {
      hide Canonical, Shaped, HasShape, EntriesShaped, InstShaped, NodeFor, OneTerm, EntriesEstimated, Estimated, CountEstimate;
      r, exact := 0, true;
      ghost var known := InEstimate();
      ghost var t0, shaped := store.table, InShape() && InstShaped(shapes, i);
      var a := Find(entries, i.a);
      if a.Absent? { return Rejected, r, exact; }
      if i.from != 1 || i.to != 32 { return Rejected, r, exact; }
      if a.Null? { return Crash, r, exact; }
      if shaped { CountedOperand(t0, entries, shapes, i, a.id); }
      r := store.GetUniqueSigs(a.id);
      st := Done;
      if known { CountKnown(t0, entries, estimates, i, a.id, store.table, r); }
      if Fragment(i) { ZExtNode(t0, entries, store.table, i, r, a.id); }
      if shaped { CountInShape(t0, entries, shapes, i, a.id, store.table, r); }
    }

    // cond ? a : b is (cond and a) or (not cond and b), dropping a side that is constantly false.
    method SelectNodeFor(i: Inst) returns (st: Status, r: nat, ghost exact: bool)
      requires Valid() && i.Select?
      modifies store
      ensures Valid() && Grown(old(store.table), store.table)
      ensures var (c, a, b) := (Find(entries, i.c), Find(entries, i.a), Find(entries, i.b));
        st == if c.Absent? || (a.Absent? && b.Absent?) then Rejected
              else if c.Null? then Crash
              else if SideStatus(i.a, a) != Done then SideStatus(i.a, a)
              else if Negatable(old(store.table), c.id) then SideStatus(i.b, b) else Crash
      ensures st == Done ==> r < |store.table| && (exact && Fragment(i) ==> NodeFor(old(store.table), entries, store.table, i, r))
      ensures KeepsShape(old(InShape()), i, st, r, exact)
      ensures NodeEstimated(old(InEstimate()), estimates, i, st, store.table, r)
    {
      hide Val, NodeFor, Canonical, Shaped, HasShape, EntriesShaped, InstShaped, ChoiceShape, OneTerm, Negatable;
      hide EntriesEstimated, Estimated, Chooses, ChoiceEstimate;
      r, exact := 0, true;
      ghost var known := InEstimate();
      ghost var t0 := store.table;
      var c, a, b := Find(entries, i.c), Find(entries, i.a), Find(entries, i.b);
      if c.Absent? || (a.Absent? && b.Absent?) { return Rejected, r, exact; }
      var checkA := SideStatus(i.a, a);
      if c.Null? { return Crash, r, exact; }
      if checkA != Done { return checkA, r, exact; }
      var yes: Option<nat> := if a.At? then Some(a.id) else None;
      var no: Option<nat> := if b.At? then Some(b.id) else None;
      ghost var sc, sa, sb := OperandShape(shapes, i.c), OperandShape(shapes, i.a), OperandShape(shapes, i.b);
      ghost var shaped, goal := InShape() && InstShaped(shapes, i), ShapeFor(shapes, i.x);
      if shaped { SelectShaped(t0, entries, shapes, i, c.id, yes, no); }
      st, r, exact := SelectJoin(c.id, i.a, yes, SideStatus(i.b, b), i.b, no, sc, sa, sb, goal);
      if known && st == Done { ChoiceKnown(t0, entries, estimates, i, c.id, yes, no, store.table, r); }
      if st == Done && exact && Fragment(i) { SelectNode(t0, entries, store.table, i, r, c.id, yes, no); }
    }

    // An operand of a select is a node or the constant 0 or 1.
    function SideStatus(o: Operand, found: Lookup): Status {
      if found.Null? || (found.Absent? && o.Var?) then Crash
      else if found.Absent? && o.v > 1 then Rejected
      else Done
    }

    method SelectJoin(c: nat, oa: Operand, yes: Option<nat>, checkB: Status, ob: Operand, no: Option<nat>,
        ghost sc: Shape, ghost sa: Shape, ghost sb: Shape, ghost goal: Shape)
      returns (st: Status, r: nat, ghost exact: bool)
      requires store.Valid() && c < |store.table| && checkB != Invalid && checkB != Empty
      requires (yes.Some? ==> yes.value < |store.table|) && (no.Some? ==> no.value < |store.table|)
      modifies store
      ensures store.Valid() && Grown(old(store.table), store.table)
      ensures st == if !Negatable(old(store.table), c) then Crash else if checkB != Done then checkB
                    else if yes.None? && oa != Const(1) && no.None? && ob != Const(1) then Rejected else Done
      ensures st == Done ==> r < |store.table| && (exact ==> forall m: Counts :: Truth(store.table, r, m) <==>
        (Truth(store.table, c, m) && SideTrue(store.table, oa, yes, m))
        || (!Truth(store.table, c, m) && SideTrue(store.table, ob, no, m)))
      ensures st == Done ==> Chooses(old(store.table), c, yes, no, store.table, r)
      ensures Shaped(old(store.table)) && SidesShaped(old(store.table), c, yes, no, sc, sa, sb, goal) && st == Done ==>
        Shaped(store.table) && exact && HasShape(store.table, r, goal)
    {
      hide Val, SideMeans, SideTrue, Negates, NotGuard, Negatable, Truth, Acyclic, Arity, Canonical, Shaped;
      hide HasShape, SidesShaped, SideShaped, EitherPasses, SideOf, Disjoins, OneTerm;
      hide Chooses, SideJoined, EitherJoined, Deniable, DeniedWithin, JoinsTwo;
      r, exact := 0, true;
      ghost var t0, shaped := store.table, Shaped(store.table) && SidesShaped(store.table, c, yes, no, sc, sa, sb, goal);
      if shaped { SidesParts(t0, c, yes, no, sc, sa, sb, goal); }
      var n;
      ghost var g;
      n, g := SideNode(c, yes, yes.None? && oa == Const(1), sc, sa);
      exact := g;
      ghost var t1 := store.table;
      if shaped { HasShapeExtends(t0, t1, c, sc); }
      NotGuardExtends(t0, t1, c);
      var not;
      ghost var d;
      not, d := Denied(c, sc);
      if not.None? { return Crash, r, exact; }
      if checkB != Done { return checkB, r, exact; }
      ghost var t2 := store.table;
      exact := exact && d;
      if shaped {
        OtherSide(t0, t2, c, yes, no, sc, sa, sb, goal, not.value);
      }
      var n2;
      ghost var g2;
      n2, g2 := SideNode(not.value, no, no.None? && ob == Const(1), PLAIN, sb);
      exact := exact && g2;
      ghost var t3 := store.table;
      if n.None? && n2.None? { return Rejected, r, exact; }
      r := EitherSide(t1, n, n2, shaped, SideOf(sc, sa), SideOf(PLAIN, sb), goal);
      st := Done;
      ChoiceSized(t0, c, yes, n, t1, t2, not.value, no, n2, t3, store.table, r);
      if exact { SelectJoined(t1, t2, t3, store.table, c, oa, yes, n, not.value, ob, no, n2, r); }
    }

    // The negation of a condition, where it has one.
    method Denied(c: nat, ghost s: Shape) returns (not: Option<nat>, ghost exact: bool)
      requires store.Valid() && c < |store.table|
      modifies store
      ensures store.Valid() && Grown(old(store.table), store.table) && (not.Some? <==> Negatable(old(store.table), c))
      ensures not.Some? ==> not.value < |store.table| && (exact ==> Negates(store.table, not.value, c))
      ensures not.Some? && Deniable(old(store.table), c, 2) ==> DeniedWithin(old(store.table), c, store.table, not.value)
      ensures Shaped(old(store.table)) && HasShape(old(store.table), c, s) && FirmShape(s) ==>
        Shaped(store.table) && exact && (not.Some? ==> HasShape(store.table, not.value, PLAIN))
    {
      hide Val, Canonical, Shaped, HasShape, Joinable, Firm, SumFree, NotGuard, Negatable, Negates, ValueDiffers, EqualityBounds, OneTerm;
      hide Deniable, DeniedWithin;
      ghost var t0 := store.table;
      ghost var shaped := Shaped(t0) && HasShape(t0, c, s) && FirmShape(s);
      if shaped { ConditionParts(t0, c, s); }
      not := store.GetNot(c);
      exact := NotGuard(t0, c);
      ShapedNot(t0, c);
      if shaped && not.Some? { PlainShape(store.table, not.value, NO_NUMBERS); }
    }

    method EitherSide(ghost t1: Table, n: Option<nat>, n2: Option<nat>, ghost shaped: bool,
        ghost s: Shape, ghost s2: Shape, ghost goal: Shape)
      returns (r: nat)
      requires store.Valid() && WellFormed(t1) && t1 <= store.table && (n.Some? || n2.Some?)
      requires (n.Some? ==> n.value < |t1|) && (n2.Some? ==> n2.value < |store.table|)
      requires shaped ==> Shaped(store.table) && EitherPasses(s, s2, goal)
      requires shaped && n.Some? ==> HasShape(t1, n.value, s)
      requires shaped && n2.Some? ==> HasShape(store.table, n2.value, s2)
      modifies store
      ensures store.Valid() && Grown(old(store.table), store.table) && r < |store.table|
      ensures if n.Some? && n2.Some? then Disjoins(store.table, r, [n.value, n2.value])
              else if n.Some? then r == n.value else r == n2.value
      ensures EitherJoined(old(store.table), n, n2, store.table, r)
      ensures shaped ==> Shaped(store.table) && HasShape(store.table, r, goal)
    {
      hide Val, Canonical, Shaped, HasShape, OrShape, Passes, Disjoins, OneTerm, Acyclic, Arity, JoinsTwo;
      if shaped && n.Some? { HasShapeExtends(t1, store.table, n.value, s); }
      if n.Some? && n2.Some? {
        r := EitherTwo(n.value, n2.value, s, s2);
        if shaped { PassedShape(store.table, r, OrShape(s, s2).value, goal); }
      } else {
        r := if n.Some? then n.value else n2.value;
        if shaped { PassedShape(store.table, r, if n.Some? then s else s2, goal); }
      }
    }

    // One side of a select: its guard alone, the guard and the operand, or nothing.
    method SideNode(c: nat, id: Option<nat>, one: bool, ghost sc: Shape, ghost sa: Shape) returns (n: Option<nat>, ghost exact: bool)
      requires store.Valid() && c < |store.table| && (id.Some? ==> id.value < |store.table| && !one)
      modifies store
      ensures store.Valid() && Grown(old(store.table), store.table)
      ensures n.Some? <==> id.Some? || one
      ensures n.Some? ==> n.value < |store.table|
      ensures exact ==> SideMeans(store.table, c, id, one, n)
      ensures SideJoined(old(store.table), c, id, store.table, n)
      ensures SideShaped(old(store.table), c, id, sc, sa) ==>
        Shaped(store.table) && exact && (n.Some? ==> HasShape(store.table, n.value, SideOf(sc, sa)))
    {
      hide Canonical, Shaped, HasShape, AndShape, SideOf, Passes, OneTerm, JoinsTwo;
      exact := true;
      ghost var shaped := SideShaped(store.table, c, id, sc, sa);
      if shaped { SidePasses(sc, sa); }
      if id.Some? {
        var r;
        r, exact := JoinTwo(c, id.value, sc, sa);
        n := Some(r);
        if exact { AndMeans(store.table, r, c, id.value); }
        if shaped { PassedShape(store.table, r, AndShape(sc, sa).value, SideOf(sc, sa)); }
      } else if one {
        n := Some(c);
        if shaped { PassedShape(store.table, c, sc, SideOf(sc, sa)); }
      } else {
        n := None;
      }
    }

    method NodeOf(i: Inst) returns (st: Status, r: nat, ghost exact: bool)
      requires Valid()
      modifies store
      ensures Valid() && old(store.table) <= store.table
      ensures !Adding(i) ==> Grown(old(store.table), store.table)
      ensures old(InEstimate()) && InstTaken(estimates, i) && UsesFound(entries, i) ==> st == Done
      ensures NodeEstimated(old(InEstimate()), estimates, i, st, store.table, r)
      ensures i.Load? || i.Direct? ==> st == Done && r < |store.table| && forall m: Counts :: Val(store.table, r, m) == Count(m, Counted(i))
      ensures st == Done ==> r < |store.table| && (exact && Fragment(i) ==> NodeFor(old(store.table), entries, store.table, i, r))
      ensures KeepsShape(old(InShape()), i, st, r, exact)
    {
      hide Val, NodeFor, Canonical, Shaped, OneTerm, UsesFound, AddsOnce, Estimated, EntriesEstimated, Negatable;
      if AlwaysTaken(i) && UsesFound(entries, i) { TakenOperands(entries, i); }
      if InEstimate() && InstTaken(estimates, i) && UsesFound(entries, i) && !AlwaysTaken(i) { TakenNodes(store.table, entries, estimates, i); }
      match i
      case Load(_, sig) => st, r, exact := LoadNodeFor(i);
      case Direct(_, _) => st, r, exact := LoadNodeFor(i);
      case Foreign(_) => st, r, exact := Invalid, 0, true;
      case ICmp(_, _, _, _) => st, r, exact := CompareNodeFor(i);
      case AddI(_, _, _) => st, r, exact := AddNodeFor(i);
      case AndI(_, _, _) => st, r, exact := LogicNodeFor(i);
      case OrI(_, _, _) => st, r, exact := LogicNodeFor(i);
      case XorI(_, _, _) => st, r, exact := XorNodeFor(i);
      case ZExt(_, _, _, _) => st, r, exact := ZExtNodeFor(i);
      case Select(_, _, _, _) => st, r, exact := SelectNodeFor(i);
    }

    // A direct load is taken for the first match count, whatever it reads.
    method LoadNodeFor(i: Inst) returns (st: Status, r: nat, ghost exact: bool)
      requires Valid() && (i.Load? || i.Direct?)
      modifies store
      ensures Valid() && Grown(old(store.table), store.table) && st == Done && r < |store.table|
      ensures forall m: Counts :: Val(store.table, r, m) == Count(m, Counted(i))
      ensures exact && Fragment(i) ==> NodeFor(old(store.table), entries, store.table, i, r)
      ensures KeepsShape(old(InShape()), i, st, r, exact)
      ensures NodeEstimated(old(InEstimate()), estimates, i, st, store.table, r)
    {
      hide Val, NodeFor, Canonical, Shaped, OneTerm;
      ghost var t0 := store.table;
      var sig := if i.Load? then i.sig else 0;
      r := store.GetSubSig(sig);
      LeafTree(store.table, r);
      st, exact := Done, true;
      if Fragment(i) { LoadNode(t0, entries, store.table, i, r); }
    }

    // The entry of one instruction. An invalid load or compare is reported and gets no entry, and what
    // compares a null node with zero is null again.
    method ProcessInst(i: Inst) returns (st: Status)
      requires Valid()
      modifies this`entries, this`guarded, store
      ensures Valid() && old(store.table) <= store.table
      ensures !Adding(i) ==> Grown(old(store.table), store.table)
      ensures st != Empty && (guarded ==> old(guarded))
      ensures old(InEstimate()) && InstTaken(estimates, i) && UsesFound(old(entries), i) ==> st == Done && Find(entries, Var(i.x)).At?
      ensures old(InEstimate()) && Covers(InstEstimate(estimates, i), EstimateFor(estimates, i.x)) && (st == Done || st == Invalid) ==>
        InEstimate()
      ensures st == Done || st == Invalid ==>
        && (entries == old(entries) || (i.x in entries && entries == old(entries)[i.x := entries[i.x]]))
        && (guarded && Fragment(i) ==> Keeps(old(store.table), old(entries), store.table, entries, i))
      ensures i.Load? || i.Direct? ==> st == Done && Find(entries, Var(i.x)).At? && forall m: Counts ::
        Val(store.table, Find(entries, Var(i.x)).id, m) == Count(m, Counted(i))
      ensures old(InShape()) && InstShaped(shapes, i) && (st == Done || st == Invalid) ==> InShape() && guarded == old(guarded)
    {
      hide Val, Keeps, NodeFor, Fragment, Canonical, Shaped, StateShaped, HasShape, InstShaped, OneTerm, InstTaken, UsesFound;
      hide EntriesEstimated, Estimated, InstEstimate, Covers;
      ghost var t0, was, known := store.table, InShape(), InEstimate();
      var r;
      ghost var exact;
      st, r, exact := NodeOf(i);
      st := Enter(i, st, r, exact, t0, was && InstShaped(shapes, i),
        known && Covers(InstEstimate(estimates, i), EstimateFor(estimates, i.x)));
    }

    // The node fits the instruction's shape.
    ghost predicate ShapedFor(i: Inst, st: Status, r: nat)
      reads this, store
    {
      && (st == Done || st == Empty || st == Invalid ==> Shaped(store.table))
      && (st == Done ==> !NoNode(shapes, i) && HasShape(store.table, r, ShapeFor(shapes, i.x)))
    }

    // What the instruction's node, made over table t0, leaves in the value map.
    method Enter(i: Inst, st0: Status, r: nat, ghost exact: bool, ghost t0: Table, ghost shaped: bool, ghost known: bool)
      returns (st: Status)
      requires Valid() && WellFormed(t0) && t0 <= store.table && EntriesIn(t0, entries)
      requires st0 == Done ==> r < |store.table| && (exact && Fragment(i) ==> NodeFor(t0, entries, store.table, i, r))
      requires shaped ==> StateShaped(t0, entries, shapes, exitNodesOr, exitNodesAnd) && InstShaped(shapes, i) && ShapedFor(i, st0, r)
      requires shaped && st0 == Done ==> exact
      requires known ==> EntriesEstimated(t0, entries, estimates) && Covers(InstEstimate(estimates, i), EstimateFor(estimates, i.x))
      requires known && st0 == Done ==> Estimated(store.table, r, InstEstimate(estimates, i))
      modifies this`entries, this`guarded
      ensures Valid() && (guarded ==> old(guarded)) && st == if st0 == Empty then Done else st0
      ensures entries == if st0 == Done then old(entries)[i.x := Some(r)]
                         else if st0 == Empty then old(entries)[i.x := None] else old(entries)
      ensures guarded && Fragment(i) ==> Keeps(t0, old(entries), store.table, entries, i)
      ensures shaped && (st == Done || st == Invalid) ==> InShape() && guarded == old(guarded)
      ensures known ==> InEstimate()
    {
      hide Val, Keeps, NodeFor, Fragment, Canonical, Shaped, StateShaped, HasShape, InstShaped, OneTerm;
      hide EntriesEstimated, Estimated, InstEstimate, Covers;
      st := st0;
      ghost var e0 := entries;
      if shaped && (st == Done || st == Empty || st == Invalid) {
        InstInShape(t0, store.table, e0, shapes, exitNodesOr, exitNodesAnd, i, if st == Done then Some(r) else None, st == Empty);
      }
      if st == Done {
        entries := entries[i.x := Some(r)];
        guarded := guarded && exact;
        if guarded && Fragment(i) { KeepsEntry(t0, e0, store.table, i, r); }
      } else {
        if st == Empty { st, entries := Done, entries[i.x := None]; }
        KeepsNothing(t0, e0, store.table, entries, i);
      }
      if known { InstEntry(t0, store.table, e0, entries, estimates, i, st0 == Done, r); }
    }

    // ---- phis ----

    // The conjunction of the branch conditions along a route, or no node when it has none.
    method GetLogicalNode(f: Func, route: Route) returns (st: Status, r: Option<nat>, ghost exact: bool)
      requires Valid() && forall b :: b in Blocks(route) ==> b < |f|
      modifies store
      ensures Valid() && Grown(old(store.table), store.table) && (st == Done || st == Crash)
      ensures st == Done ==> (r.Some? ==> r.value < |store.table|) && (exact ==> RouteMeans(store.table, entries, f, route, r))
      ensures st == Done <==> RoutePassable(old(store.table), entries, f, route)
      ensures st == Done ==> (r.Some? <==> Branches(f, route))
      ensures old(InShape()) && FuncShaped(f, shapes) && st == Done ==>
        InShape() && exact && (r.Some? ==> HasShape(store.table, r.value, RouteShape(f, shapes)))
    {
      hide Val, RouteHolds, RouteMeans, Branches, Canonical, StateShaped, HasShape, FuncShaped, Shaped, Acyclic;
      hide Arity, EntriesIn, RouteShape, OneTerm, RoutePassable, Passable;
      ghost var t0 := store.table;
      NothingPassed(t0, entries, f, route);
      r, exact := None, true;
      var k := 0;
      ghost var shaped := InShape() && FuncShaped(f, shapes);
      assert RouteMeans(store.table, entries, f, route[..0], None) by { EmptyRoute(store.table, entries, f, route); }
      while k < |route|
        invariant 0 <= k <= |route| && Valid() && Grown(old(store.table), store.table)
        invariant r.Some? ==> r.value < |store.table|
        invariant exact ==> RouteMeans(store.table, entries, f, route[..k], r)
        invariant RoutePassable(t0, entries, f, route[..k]) && (r.Some? <==> Branches(f, route[..k]))
        invariant shaped ==> InShape() && exact && (r.Some? ==> HasShape(store.table, r.value, RouteShape(f, shapes)))
      {
        var s := route[k];
        assert s.block in Blocks(route) by { assert Blocks(route)[k] == s.block; }
        PassableSnoc(t0, entries, f, route, k);
        PassableExtends(t0, store.table, entries, f, s);
        if f[s.block].term.CondBr? {
          var joined;
          ghost var ok;
          st, joined, ok := JoinCondition(f, route, k, r);
          if st != Done { return; }
          exact := exact && ok;
          r := Some(joined);
        } else {
          PassesBy(t0, entries, f, s);
          if exact { RouteSkip(store.table, entries, f, route, k, r); }
        }
        k := k + 1;
      }
      assert route[..k] == route;
      st := Done;
    }

    // One more condition of a route.
    method JoinCondition(f: Func, route: Route, k: nat, r: Option<nat>) returns (st: Status, joined: nat,
        ghost exact: bool)
      requires Valid() && (forall b :: b in Blocks(route) ==> b < |f|) && (r.Some? ==> r.value < |store.table|)
      requires k < |route| && route[k].block < |f| && f[route[k].block].term.CondBr?
      modifies store
      ensures Valid() && Grown(old(store.table), store.table) && (st == Done || st == Crash)
      ensures st == Done <==> Passable(old(store.table), entries, f, route[k])
      ensures st == Done ==> joined < |store.table|
      ensures st == Done && exact && RouteMeans(old(store.table), entries, f, route[..k], r) ==>
        RouteMeans(store.table, entries, f, route[..k + 1], Some(joined))
      ensures st == Done && old(InShape()) && FuncShaped(f, shapes)
          && (r.Some? ==> HasShape(old(store.table), r.value, RouteShape(f, shapes)))
        ==> InShape() && exact && HasShape(store.table, joined, RouteShape(f, shapes))
    {
      hide Val, RouteHolds, RouteMeans, StepMeans, Canonical, StateShaped, HasShape, FuncShaped, RouteShape, AndShape;
      hide Shaped, OneTerm, Conjoins, Passable;
      ghost var t0, rs := store.table, RouteShape(f, shapes);
      ghost var shaped := InShape() && FuncShaped(f, shapes) && (r.Some? ==> HasShape(store.table, r.value, rs));
      ghost var start := RouteMeans(store.table, entries, f, route[..k], r);
      var n;
      st, n, exact := ConditionNode(f, route[k]);
      joined := n;
      if st != Done { return; }
      ghost var t1 := store.table;
      if start { RouteMeansExtends(t0, t1, entries, f, route[..k], r); }
      if r.Some? {
        if shaped {
          HasShapeExtends(t0, t1, r.value, rs);
          RouteTwice(f, shapes);
          assert Shaped(t1) by { StateParts(t1, entries, shapes, exitNodesOr, exitNodesAnd); }
        }
        ghost var ok, both := exact, false;
        joined, both := JoinTwo(r.value, n, rs, rs);
        exact := exact && both;
        if shaped { StateExtends(t1, store.table, entries, shapes, exitNodesOr, exitNodesAnd); }
        if start { RouteMeansExtends(t1, store.table, entries, f, route[..k], r); }
        if ok { StepMeansExtends(t1, store.table, entries, f, route[k], n); }
      }
      if exact && start { RouteStep(store.table, entries, f, route, k, r, n, joined); }
    }

    // The condition of a step, negated when the route goes the other way.
    method ConditionNode(f: Func, s: Step) returns (st: Status, n: nat, ghost exact: bool)
      requires Valid() && s.block < |f| && f[s.block].term.CondBr?
      modifies store
      ensures Valid() && Grown(old(store.table), store.table) && (st == Done || st == Crash)
      ensures st == Done <==> Passable(old(store.table), entries, f, s)
      ensures st == Done ==> n < |store.table| && (exact ==> StepMeans(store.table, entries, f, s, n))
      ensures old(InShape()) && FuncShaped(f, shapes) && st == Done ==>
        InShape() && exact && HasShape(store.table, n, RouteShape(f, shapes))
    {
      hide Canonical, StateShaped, HasShape, FuncShaped, Shaped, RouteShape, FirmShape, Negatable, Negates, OneTerm;
      n, exact := 0, true;
      var found := Find(entries, f[s.block].term.c);
      if !found.At? { return Crash, n, exact; }
      n := found.id;
      ghost var t0 := store.table;
      ghost var shaped := InShape() && FuncShaped(f, shapes);
      if shaped { ConditionInShape(f, s.block, t0, entries, shapes, exitNodesOr, exitNodesAnd, n); }
      if !s.taken {
        var not;
        not, exact := Denied(n, RouteShape(f, shapes));
        if not.None? { return Crash, n, exact; }
        TakenMeans(store.table, entries, f, s, n);
        if shaped {
          StateExtends(t0, store.table, entries, shapes, exitNodesOr, exitNodesAnd);
          PlainOnRoute(f, shapes, store.table, not.value);
        }
        n := not.value;
      } else {
        TakenMeans(store.table, entries, f, s, n);
      }
      st := Done;
    }

    // The routes that leave through the given block. An empty route has no last step to look at.
    method FindRoute(block: nat, routes: seq<Route>) returns (st: Status, found: seq<Route>)
      ensures st == Done || st == Crash
      ensures st == Crash <==> [] in routes
      ensures st == Done ==> forall r :: r in found <==> r in routes && EndsIn(r, block)
    {
      found := [];
      for i := 0 to |routes|
        invariant [] !in routes[..i]
        invariant forall r :: r in found <==> r in routes[..i] && EndsIn(r, block)
      {
        assert routes[..i + 1] == routes[..i] + [routes[i]];
        if routes[i] == [] { return Crash, found; }
        if routes[i][|routes[i]| - 1].block == block { found := found + [routes[i]]; }
      }
      assert routes[..|routes|] == routes;
      st := Done;
    }

    // One incoming edge of a phi: every route into its block that can make the phi true.
    method PhiIncoming(f: Func, ghost before: seq<Incoming>, inc: Incoming, ghost all: seq<Route>,
        found: seq<Route>, ln0: Option<nat>, ghost goal: Shape)
      returns (st: Status, ln: Option<nat>, ghost exact: bool)
      requires Valid() && (forall r, b :: r in all && b in Blocks(r) ==> b < |f|) && (ln0.Some? ==> ln0.value < |store.table|)
      requires inc.value != Const(0) && forall r :: r in found ==> r in all && EndsIn(r, inc.block)
      modifies store
      ensures Valid() && Grown(old(store.table), store.table) && (st == Done || st == Crash)
      ensures st == Done ==> ln.Some? ==> ln.value < |store.table|
      ensures st == Done && found != [] && inc.value.Var? ==> Find(entries, inc.value).At?
      ensures st == Done ==> forall r :: r in found ==> RouteTaken(old(store.table), entries, f, inc, r)
      ensures (forall r :: r in found ==> RouteTaken(old(store.table), entries, f, inc, r) && Branches(f, r)) ==>
        st == Done && (ln.Some? <==> ln0.Some? || found != [])
      ensures st == Done && exact && Accumulated(old(store.table), entries, f, ln0, before, all, inc, []) ==>
        Accumulated(store.table, entries, f, ln, before, all, inc, found)
      ensures old(InShape()) && IncomingShaped(f, old(store.table), shapes, goal, inc, found, ln0) && st == Done ==>
        InShape() && exact && (ln.Some? ==> HasShape(store.table, ln.value, goal))
    {
      hide Val, Accumulated, Canonical, Branches, Acyclic, Arity, Blocks, EndsIn, StateShaped, HasShape, IncomingFits;
      hide FuncShaped, Shaped, IsFlag, Find, EntriesIn, OneTerm, RouteTaken, RouteShape, OperandShape;
      ghost var t0 := store.table;
      ghost var taken := forall r :: r in found ==> RouteTaken(t0, entries, f, inc, r) && Branches(f, r);
      ghost var start := Accumulated(store.table, entries, f, ln0, before, all, inc, []);
      ghost var shaped := InShape() && IncomingShaped(f, store.table, shapes, goal, inc, found, ln0);
      ln, exact := ln0, true;
      var j := 0;
      assert found[..0] == [];
      while j < |found|
        invariant 0 <= j <= |found| && Valid() && Grown(old(store.table), store.table)
        invariant ln.Some? ==> ln.value < |store.table|
        invariant j > 0 && inc.value.Var? ==> Find(entries, inc.value).At?
        invariant forall r :: r in found[..j] ==> RouteTaken(t0, entries, f, inc, r)
        invariant taken ==> (ln.Some? <==> ln0.Some? || j > 0)
        invariant shaped ==> InShape() && exact && (ln.Some? ==> HasShape(store.table, ln.value, goal))
        invariant exact && start ==> Accumulated(store.table, entries, f, ln, before, all, inc, found[..j])
      {
        var r := found[j];
        assert found[..j + 1] == found[..j] + [r] && r in found;
        ghost var ok;
        RouteTakenExtends(t0, store.table, entries, f, inc, r);
        st, ln, ok := PhiRoute(f, before, inc, all, found[..j], r, ln, goal);
        if st != Done { return; }
        exact := exact && ok;
        j := j + 1;
      }
      assert found[..j] == found;
      st := Done;
    }

    // One more route joined to those before it.
    method PhiRoute(f: Func, ghost before: seq<Incoming>, inc: Incoming, ghost all: seq<Route>,
        ghost done: seq<Route>, r: Route, ln: Option<nat>, ghost goal: Shape)
      returns (st: Status, joined: Option<nat>, ghost exact: bool)
      requires Valid() && (forall r, b :: r in all && b in Blocks(r) ==> b < |f|) && (ln.Some? ==> ln.value < |store.table|)
      requires inc.value != Const(0) && r in all && EndsIn(r, inc.block)
      modifies store
      ensures Valid() && Grown(old(store.table), store.table) && (st == Done || st == Crash)
      ensures st == Done ==> joined.Some? ==> joined.value < |store.table|
      ensures st == Done && inc.value.Var? ==> Find(entries, inc.value).At?
      ensures st == Done <==> RouteTaken(old(store.table), entries, f, inc, r) && (ln.Some? ==> Branches(f, r))
      ensures st == Done ==> (joined.Some? <==> ln.Some? || Branches(f, r))
      ensures st == Done && exact && Accumulated(old(store.table), entries, f, ln, before, all, inc, done) ==>
        Accumulated(store.table, entries, f, joined, before, all, inc, done + [r])
      ensures old(InShape()) && IncomingShaped(f, old(store.table), shapes, goal, inc, [r], ln) && st == Done ==>
        InShape() && exact && (joined.Some? ==> HasShape(store.table, joined.value, goal))
    {
      hide Val, Accumulated, RouteMeans, RouteHolds, Contributes, Canonical, Branches, Acyclic, Arity, Blocks;
      hide EndsIn, Disjoins, OneTerm;
      hide StateShaped, HasShape, FuncShaped, Shaped, IsFlag, Find, EntriesIn, IncomingFits, RouteTaken;
      ghost var t0, start := store.table, Accumulated(store.table, entries, f, ln, before, all, inc, done);
      ghost var shaped := InShape() && IncomingShaped(f, store.table, shapes, goal, inc, [r], ln);
      assert r in [r];
      var n;
      st, n, exact := RouteContribution(f, inc, r, goal);
      joined := n;
      if st != Done { return; }
      ghost var t1 := store.table;
      if exact && start { AccumulatedExtends(t0, t1, entries, f, ln, before, all, inc, done); }
      if ln.Some? {
        // joining a missing node is a null dereference
        if n.None? { return Crash, joined, exact; }
        if shaped { FitsOpen(RouteShape(f, shapes), goal, OperandShape(shapes, inc.value)); }
        var both := JoinContribution(t0, ln.value, n.value, shaped, goal);
        joined := Some(both);
      }
      exact := exact && joined.Some?;
      if exact && start {
        AccumulatedExtends(t1, store.table, entries, f, ln, before, all, inc, done);
        ContributesExtends(t1, store.table, entries, f, inc, r, n.value);
        AccumulateStep(store.table, entries, f, ln, before, all, inc, done, r, n.value, joined.value);
      }
    }

    method JoinContribution(ghost t0: Table, ln: nat, n: nat, ghost shaped: bool, ghost goal: Shape) returns (both: nat)
      requires Valid() && WellFormed(t0) && t0 <= store.table && ln < |t0| && n < |store.table|
      requires shaped ==> InShape() && HasShape(t0, ln, goal) && HasShape(store.table, n, goal) && goal.Condition? && goal.form == Open
      modifies store
      ensures Valid() && Grown(old(store.table), store.table) && both < |store.table| && Disjoins(store.table, both, [ln, n])
      ensures shaped ==> InShape() && HasShape(store.table, both, goal)
    {
      hide Val, Canonical, StateShaped, HasShape, Shaped, OrShape, Passes, Disjoins, OneTerm;
      ghost var t1 := store.table;
      if shaped {
        HasShapeExtends(t0, t1, ln, goal);
        OrSame(goal);
        StateParts(t1, entries, shapes, exitNodesOr, exitNodesAnd);
      }
      both := EitherTwo(ln, n, goal, goal);
      if shaped {
        StateExtends(t1, store.table, entries, shapes, exitNodesOr, exitNodesAnd);
        PassedShape(store.table, both, OrShape(goal, goal).value, goal);
      }
    }

    // The route's conditions together with the incoming value.
    method RouteContribution(f: Func, inc: Incoming, r: Route, ghost goal: Shape) returns (st: Status, n: Option<nat>, ghost exact: bool)
      requires Valid() && (forall b :: b in Blocks(r) ==> b < |f|) && inc.value != Const(0) && EndsIn(r, inc.block)
      modifies store
      ensures Valid() && Grown(old(store.table), store.table) && (st == Done || st == Crash)
      ensures st == Done ==> n.Some? ==> n.value < |store.table|
      ensures st == Done && inc.value.Var? ==> Find(entries, inc.value).At?
      ensures st == Done && exact ==> n.Some? ==> ContributesAs(store.table, entries, f, inc, r, n.value)
      ensures st == Done <==> RouteTaken(old(store.table), entries, f, inc, r)
      ensures st == Done ==> (n.Some? <==> Branches(f, r))
      ensures st == Done && old(InShape()) && FuncShaped(f, shapes) && IsFlag(inc.value)
          && IncomingFits(RouteShape(f, shapes), goal, OperandShape(shapes, inc.value))
        ==> InShape() && exact && (n.Some? ==> HasShape(store.table, n.value, goal))
    {
      hide Val, RouteMeans, RouteHolds, Canonical, StateShaped, HasShape, FuncShaped, Shaped, RouteShape, AndShape, Passes;
      hide IsFlag, Conjoins, OneTerm, RoutePassable, Branches;
      ghost var rs, sv := RouteShape(f, shapes), OperandShape(shapes, inc.value);
      ghost var shaped := InShape() && FuncShaped(f, shapes) && IsFlag(inc.value) && IncomingFits(rs, goal, sv);
      st, n, exact := GetLogicalNode(f, r);
      if st != Done { return; }
      ghost var t0 := store.table;
      if inc.value.Var? {
        var v := Find(entries, inc.value);
        if !v.At? || n.None? { return Crash, n, exact; }
        ghost var own := n;
        if shaped { OperandInShape(t0, entries, shapes, exitNodesOr, exitNodesAnd, inc.value, v.id); }
        var both;
        ghost var ok;
        both, ok := JoinTwo(n.value, v.id, rs, sv);
        exact := exact && ok;
        if shaped {
          StateExtends(t0, store.table, entries, shapes, exitNodesOr, exitNodesAnd);
          PassedShape(store.table, both, AndShape(rs, sv).value, goal);
        }
        if exact {
          RouteMeansExtends(t0, store.table, entries, f, r, n);
          ContributionMeans(store.table, entries, f, inc, r, n.value, both);
        }
        n := Some(both);
      } else if n.Some? {
        if exact { ContributionMeans(t0, entries, f, inc, r, n.value, n.value); }
        if shaped { PassedShape(t0, n.value, rs, goal) by { RoutePasses(f, shapes, goal); } }
      }
    }

    // The incoming edge at position k, if it can make the phi true at all.
    method PhiEdge(f: Func, ins: seq<Incoming>, k: nat, all: seq<Route>, ln0: Option<nat>, ghost goal: Shape)
      returns (st: Status, ln: Option<nat>, ghost exact: bool)
      requires Valid() && (forall r, b :: r in all && b in Blocks(r) ==> b < |f|) && (ln0.Some? ==> ln0.value < |store.table|)
      requires k < |ins|
      modifies store
      ensures Valid() && Grown(old(store.table), store.table) && (st == Done || st == Crash)
      ensures st == Done ==> ln.Some? ==> ln.value < |store.table|
      ensures st == Done && exact && Accumulated(old(store.table), entries, f, ln0, ins[..k], all, ins[k], []) ==>
        Accumulated(store.table, entries, f, ln, ins[..k + 1], all, IncomingAt(ins, k + 1), [])
      ensures EdgeTaken(old(store.table), entries, f, ins[k], all) ==> st == Done && (ln.Some? <==> ln0.Some? || EdgeCounts(ins[k], all))
      ensures st == Done && ins[k].value != Const(0) ==>
        [] !in all && forall r :: r in all && EndsIn(r, ins[k].block) ==> RouteTaken(old(store.table), entries, f, ins[k], r)
      ensures st == Done && ins[k].value.Var? ==>
        forall r :: r in all && EndsIn(r, ins[k].block) ==> Find(entries, ins[k].value).At?
      ensures old(InShape()) && FuncShaped(f, shapes) && IsFlag(ins[k].value) && (ln0.Some? ==> HasShape(old(store.table), ln0.value, goal))
          && (ins[k].value != Const(0) ==> IncomingFits(RouteShape(f, shapes), goal, OperandShape(shapes, ins[k].value)))
          && (forall r: Route :: r in all && r != [] ==> Branches(f, r)) && st == Done
        ==> InShape() && exact && (ln.Some? ==> HasShape(store.table, ln.value, goal))
    {
      hide Val, Accumulated, Canonical, Branches, Acyclic, Arity, Blocks, StateShaped, HasShape, FuncShaped;
      hide Shaped, IsFlag, EntriesIn, IncomingFits, OneTerm, RouteTaken;
      var inc := ins[k];
      ln, exact := ln0, true;
      ghost var t0 := store.table;
      ghost var start := Accumulated(store.table, entries, f, ln0, ins[..k], all, inc, []);
      if inc.value == Const(0) {
        if start { NextIncoming(store.table, entries, f, ln, ins, k, all, [], IncomingAt(ins, k + 1)); }
        st := Done;
      } else {
        var found;
        st, found := FindRoute(inc.block, all);
        if st != Done { return; }
        st, ln, exact := PhiIncoming(f, ins[..k], inc, all, found, ln0, goal);
        if st != Done { return; }
        if start && exact { NextIncoming(store.table, entries, f, ln, ins, k, all, found, IncomingAt(ins, k + 1)); }
        forall r | r in all && EndsIn(r, inc.block) && inc.value.Var? ensures Find(entries, inc.value).At? { assert r in found; }
        assert found != [] <==> EdgeCounts(inc, all) by { FoundCounts(inc, all, found); }
      }
    }

    function IncomingAt(ins: seq<Incoming>, k: nat): Incoming { if k < |ins| then ins[k] else Incoming(Const(0), 0) }

    method ProcessPhi(f: Func, b: nat, p: Phi) returns (st: Status)
      requires Valid() && Closed(f) && f != [] && b < |f|
      modifies this`entries, this`guarded, store
      ensures Valid() && Grown(old(store.table), store.table) && (st == Done || st == Crash)
      ensures guarded ==> old(guarded)
      ensures PhiTaken(old(store.table), old(entries), f, b, p) ==>
        st == Done && p.x in entries && (entries[p.x].Some? <==> PhiCounts(f, b, p))
      ensures st == Done ==>
        && p.x in entries && entries == old(entries)[p.x := entries[p.x]]
        && PhiOperandsFound(f, b, p, old(entries))
        && (guarded && entries[p.x].Some? ==> PhiMeans(store.table, old(entries), f, b, p, entries[p.x].value))
      ensures old(InEstimate()) && Covers(NOTHING, EstimateFor(estimates, p.x)) && st == Done ==> InEstimate()
      ensures old(InShape()) && FuncShaped(f, shapes) && PhiShaped(f, shapes, p) && f[0].term.CondBr? && st == Done ==>
        InShape() && guarded == old(guarded)
    {
      hide Val, Accumulated, Contributes, PhiTrue, Onward, Canonical, StateShaped, HasShape, FuncShaped, Shaped, PhiShaped;
      hide Acyclic, Arity, OneTerm, EdgeTaken, EdgeCounts, PhiTaken, PhiCounts, EntriesEstimated, Covers, InsFit, PhiMeans, PhiOperandsFound;
      hide Blocks, EndsIn, Branches, Closed, Find;
      ghost var known := InEstimate() && Covers(NOTHING, EstimateFor(estimates, p.x));
      ghost var e0, goal, t0 := entries, ShapeFor(shapes, p.x), store.table;
      ghost var shaped := InShape() && FuncShaped(f, shapes) && PhiShaped(f, shapes, p) && f[0].term.CondBr?;
      if shaped { PhiFits(f, shapes, p); }
      var all := AllRoutes(f, b);
      RoutesInside(f, b, all);
      RoutesBranch(f, b, all);
      PhiTakenListed(t0, entries, f, b, p, all);
      var ln: Option<nat>;
      ghost var exact;
      st, ln, exact := PhiNode(f, p.ins, all, goal);
      if st != Done { return; }
      OperandsFound(f, b, p, e0, all);
      if exact && ln.Some? { PhiFinished(store.table, e0, f, b, p, all, ln.value); }
      EnterPhi(p, ln, exact, t0, shaped, known);
    }

    // The phi's entry, made over table t0.
    method EnterPhi(p: Phi, ln: Option<nat>, ghost exact: bool, ghost t0: Table, ghost shaped: bool, ghost known: bool)
      requires Valid() && WellFormed(t0) && t0 <= store.table && (ln.Some? ==> ln.value < |store.table|)
      requires shaped ==> InShape() && exact && p.x.Flag? && ShapeFor(shapes, p.x).Condition?
      requires shaped && ln.Some? ==> HasShape(store.table, ln.value, ShapeFor(shapes, p.x))
      requires known ==> EntriesEstimated(t0, entries, estimates) && Covers(NOTHING, EstimateFor(estimates, p.x))
      modifies this`entries, this`guarded
      ensures Valid() && entries == old(entries)[p.x := ln] && guarded == (old(guarded) && exact)
      ensures (shaped ==> InShape()) && (known ==> InEstimate())
    {
      hide Canonical, StateShaped, HasShape, Shaped, OneTerm, EntriesEstimated, Covers;
      if shaped { PhiInShape(store.table, entries, shapes, exitNodesOr, exitNodesAnd, p.x, ln); }
      if known { PhiEntry(t0, store.table, entries, estimates, p.x, ln); }
      entries := entries[p.x := ln];
      guarded := guarded && exact;
    }

    // All incoming edges, one after another.
    method PhiNode(f: Func, ins: seq<Incoming>, all: seq<Route>, ghost goal: Shape) returns (st: Status, ln: Option<nat>, ghost exact: bool)
      requires Valid() && forall r, b :: r in all && b in Blocks(r) ==> b < |f|
      modifies store
      ensures Valid() && Grown(old(store.table), store.table) && (st == Done || st == Crash)
      ensures st == Done ==> ln.Some? ==> ln.value < |store.table|
      ensures st == Done && exact ==> Accumulated(store.table, entries, f, ln, ins, all, IncomingAt(ins, |ins|), [])
      ensures st == Done ==> forall j, r :: 0 <= j < |ins| && ins[j].value.Var? && r in all && EndsIn(r, ins[j].block) ==>
        Find(entries, ins[j].value).At?
      ensures (forall j :: 0 <= j < |ins| ==> EdgeTaken(old(store.table), entries, f, ins[j], all)) ==>
        st == Done && (ln.Some? <==> exists j :: 0 <= j < |ins| && EdgeCounts(ins[j], all))
      ensures old(InShape()) && FuncShaped(f, shapes) && InsFit(f, shapes, ins, goal)
          && (forall r: Route :: r in all && r != [] ==> Branches(f, r)) && st == Done
        ==> InShape() && exact && (ln.Some? ==> HasShape(store.table, ln.value, goal))
    {
      hide Val, Accumulated, Contributes, PhiTrue, Onward, Canonical, StateShaped, HasShape, FuncShaped, Shaped, Blocks, EndsIn;
      hide Acyclic, Arity, IncomingFits, OneTerm, EdgeTaken, EdgeCounts, EntriesIn, Branches, IsFlag;
      ghost var t0 := store.table;
      ghost var taken := forall j :: 0 <= j < |ins| ==> EdgeTaken(t0, entries, f, ins[j], all);
      ghost var shaped := InShape() && FuncShaped(f, shapes) && InsFit(f, shapes, ins, goal)
        && forall r: Route :: r in all && r != [] ==> Branches(f, r);
      ln, exact := None, true;
      var k := 0;
      StartPhi(store.table, entries, f, ins, all);
      while k < |ins|
        invariant 0 <= k <= |ins| && Valid() && Grown(t0, store.table)
        invariant ln.Some? ==> ln.value < |store.table|
        invariant exact ==> Accumulated(store.table, entries, f, ln, ins[..k], all, IncomingAt(ins, k), [])
        invariant taken ==> (ln.Some? <==> exists j :: 0 <= j < k && EdgeCounts(ins[j], all))
        invariant shaped ==> InShape() && exact && (ln.Some? ==> HasShape(store.table, ln.value, goal))
        invariant forall j, r :: 0 <= j < k && ins[j].value.Var? && r in all && EndsIn(r, ins[j].block) ==> Find(entries, ins[j].value).At?
      {
        ghost var ok;
        EdgeTakenExtends(t0, store.table, entries, f, ins[k], all);
        st, ln, ok := PhiEdge(f, ins, k, all, ln, goal);
        if st != Done { return; }
        exact := exact && ok;
        k := k + 1;
      }
      assert ins[..k] == ins;
      st := Done;
    }

    // ---- blocks ----

    // A return adds one exit node. The branch conditions stacked on the way are always popped again,
    // so nothing else goes into it.
    method ProcessRet(v: Operand) returns (st: Status)
      requires Valid()
      modifies this`exitNodesOr, this`exitNodesAnd, this`guarded, store
      ensures Valid() && Grown(old(store.table), store.table) && (guarded ==> old(guarded))
      ensures st == Done ==>
        ExitAdded(store.table, entries, v, old(exitNodesOr), old(exitNodesAnd), exitNodesOr, exitNodesAnd, guarded)
      ensures old(InShape()) && IsFlag(v) && st == Done ==> InShape() && guarded == old(guarded)
      ensures st == if v.Const? then Done else TakenIf(Find(entries, v))
      ensures old(InEstimate()) && st == Done ==> ExitsGrown(old(store.table), old(exitNodesOr), old(exitNodesAnd),
        store.table, exitNodesOr, exitNodesAnd, ReturnRoom(estimates, Ret(v)))
    {
      hide Val, ExitFor, AndGuard, Conjoins, Implied, Canonical, StateShaped, HasShape, Joinable, Lossless, Shaped, AllJoinable;
      hide IsFlag, ExitAdded, OneTerm, ExitsGrown, EntriesEstimated, Trees, AsDeniable, NumbersIn, AllNumbersIn, SumFree, AllSumFree, Joins;
      hide Firm, AllFirm, Single;
      ghost var t0, shaped, known := store.table, InShape() && IsFlag(v), InEstimate();
      if v.Const? {
        ReturnConstant(v, guarded);
        return Done;
      }
      var found := Find(entries, v);
      if found.Absent? { return Rejected; }
      if found.Null? { return Crash; }
      if shaped { OperandInShape(t0, entries, shapes, exitNodesOr, exitNodesAnd, v, found.id); }
      guarded := guarded && AndGuard(store.table, [found.id]);
      var n := store.GetAnd([found.id]);
      if shaped { ExitInShape(t0, store.table, entries, shapes, exitNodesOr, exitNodesAnd, n); }
      exitNodesOr := exitNodesOr + [n];
      if known { ExitKnown(t0, entries, estimates, v, found.id, old(exitNodesOr), exitNodesAnd, store.table, n); }
      if guarded { ExitNode(store.table, entries, v, found.id, n); }
      AddExit(store.table, entries, v, old(exitNodesOr), exitNodesAnd, n, guarded);
      st := Done;
    }

    // A constant is an exit of its own: FALSE among the alternatives, TRUE among the rest.
    method ReturnConstant(v: Operand, ghost exact: bool)
      requires Valid() && v.Const?
      modifies this`exitNodesOr, this`exitNodesAnd, store
      ensures Valid() && Grown(old(store.table), store.table)
      ensures ExitAdded(store.table, entries, v, old(exitNodesOr), old(exitNodesAnd), exitNodesOr, exitNodesAnd, exact)
      ensures ExitsGrown(old(store.table), old(exitNodesOr), old(exitNodesAnd), store.table, exitNodesOr, exitNodesAnd, Some(3))
      ensures old(InShape()) ==> InShape()
    {
      hide Val, ExitFor, Negates, Canonical, StateShaped, Joinable, Lossless, SumFree, Shaped, AllJoinable, ExitAdded, OneTerm;
      hide ExitsGrown, Deniable, DeniedWithin;
      ghost var t0, shaped := store.table, InShape();
      if shaped { StateParts(t0, entries, shapes, exitNodesOr, exitNodesAnd); }
      var n := store.GetTrue();
      ghost var t1 := store.table;
      LeafTree(t1, n);
      ConstantResult(store.table, n);
      ConstantSumFree(store.table, n);
      if v.v == 0 {
        var not := store.GetNot(n);
        SumFreeNumbers(store.table, not.value, NO_NUMBERS);
        if shaped { ExitInShape(t0, store.table, entries, shapes, exitNodesOr, exitNodesAnd, not.value); }
        ConstantExit(store.table, entries, v, n, not.value);
        AddExit(store.table, entries, v, exitNodesOr, exitNodesAnd, not.value, exact);
        ConstantRoom(t0, t1, n, exitNodesOr, exitNodesAnd, store.table, not.value);
        exitNodesOr := exitNodesOr + [not.value];
      } else {
        if shaped { ExitInShape(t0, store.table, entries, shapes, exitNodesOr, exitNodesAnd, n); }
        ConstantExit(store.table, entries, v, n, n);
        AddExit(store.table, entries, v, exitNodesOr, exitNodesAnd, n, exact);
        ConstantRoom(t0, t1, n, exitNodesOr, exitNodesAnd, store.table, n);
        exitNodesAnd := exitNodesAnd + [n];
      }
    }

    // A value that is used must have a node.
    function TakenIf(found: Lookup): Status { if found.Absent? then Rejected else if found.Null? then Crash else Done }

    method ProcessTerm(term: Term, valid: bool) returns (st: Status)
      requires Valid()
      modifies this`exitNodesOr, this`exitNodesAnd, this`guarded, store
      ensures Valid() && Grown(old(store.table), store.table) && (guarded ==> old(guarded))
      ensures st == Done ==>
        match term
        case Br(_) => exitNodesOr == old(exitNodesOr) && exitNodesAnd == old(exitNodesAnd)
        case CondBr(c, _, _) =>
          exitNodesOr == old(exitNodesOr) && exitNodesAnd == old(exitNodesAnd) && Find(entries, c).At?
        case Ret(v) =>
          ExitAdded(store.table, entries, v, old(exitNodesOr), old(exitNodesAnd), exitNodesOr, exitNodesAnd, guarded)
      ensures old(InShape()) && TermShaped(shapes, term) && st == Done ==> InShape() && guarded == old(guarded)
      ensures st == match term
                    case Br(_) => Done
                    case CondBr(c, _, _) =>
                      var found := Find(entries, c);
                      if !found.At? then TakenIf(found)
                      else if !Negatable(old(store.table), found.id) then Crash else if valid then Done else Rejected
                    case Ret(v) =>
                      var taken := if v.Const? then Done else TakenIf(Find(entries, v));
                      if taken == Done && !valid then Rejected else taken
      ensures old(InEstimate()) && st == Done ==> ExitsGrown(old(store.table), old(exitNodesOr), old(exitNodesAnd),
        store.table, exitNodesOr, exitNodesAnd, ReturnRoom(estimates, term))
    {
      hide Canonical, StateShaped, Shaped, HasShape, Joinable, Firm, OneTerm, Negatable, ExitsGrown, EntriesEstimated, Deniable, DeniedWithin;
      SameExits(store.table, exitNodesOr, exitNodesAnd);
      ghost var t0, shaped := store.table, InShape() && TermShaped(shapes, term);
      match term
      case Br(_) =>
        // leaves early, whatever was found invalid before
        st := Done;
      case CondBr(c, _, _) =>
        var found := Find(entries, c);
        if found.Absent? { return Rejected; }
        if found.Null? { return Crash; }
        if shaped { OperandInShape(t0, entries, shapes, exitNodesOr, exitNodesAnd, c, found.id); }
        var not := store.GetNot(found.id);
        if not.None? { return Crash; }
        if shaped { StateExtends(t0, store.table, entries, shapes, exitNodesOr, exitNodesAnd); }
        ExitsExtend(t0, store.table, exitNodesOr, exitNodesAnd);
        st := if valid then Done else Rejected;
      case Ret(v) =>
        st := ProcessRet(v);
        if st == Done && !valid { st := Rejected; }
    }

    // A function that is taken, after its first b blocks.
    ghost predicate Taking(f: Func, b: nat)
      reads this, store
    {
      && b <= |f| && InEstimate() && HaveNodes(entries, DefsBefore(f, b))
      && ExitsWithin(store.table, exitNodesOr, exitNodesAnd, RoomBefore(f, estimates, b))
    }

    method ProcessBlock(f: Func, b: nat) returns (st: Status)
      requires Valid() && Closed(f) && b < |f|
      requires Supported(f) && guarded ==> Progress(f, store.table, entries, b, {}) && Exits(f, store.table, exitNodesOr, exitNodesAnd, b)
      requires Straight(f) && guarded ==> Throughout(f, store.table, entries) && Joined(f, store.table, exitNodesOr, exitNodesAnd, b)
      modifies this, store
      ensures Valid() && old(store.table) <= store.table && (guarded ==> old(guarded))
      ensures Sumless(f[b]) ==> Grown(old(store.table), store.table)
      ensures st == Done && Supported(f) && guarded ==>
        Progress(f, store.table, entries, b + 1, {}) && Exits(f, store.table, exitNodesOr, exitNodesAnd, b + 1)
      ensures st == Done && Straight(f) && guarded ==>
        Throughout(f, store.table, entries) && Joined(f, store.table, exitNodesOr, exitNodesAnd, b + 1)
      ensures old(InShape()) && FuncShaped(f, shapes) && st == Done ==> InShape() && guarded == old(guarded)
      ensures TakenBy(f, estimates) && old(Taking(f, b)) ==> st == Done && Taking(f, b + 1)
    {
      hide Val, Supported, Canonical, Throughout, Joined, Straight, StateShaped, FuncShaped, Exits, ExitAdded;
      hide Progress, OneTerm, TakenBy, HaveNodes, DefsBefore, InstDefs, PhiDefs, Closed, Sumless, Defs, Forward, EntriesEstimated, ExitsWithin;
      hide RoomBefore;
      ghost var t0, ok := store.table, Supported(f);
      ghost var defined: set<Reg>;
      assert Supported(f) ==> Forward(f) by { if ok { FragmentOf(f, b); } }
      ghost var taken, or0, and0 := TakenBy(f, estimates) && Taking(f, b), exitNodesOr, exitNodesAnd;
      st, defined := ProcessPhis(f, b);
      if st != Done { return; }
      var valid;
      st, valid, defined := ProcessInsts(f, b, defined);
      if st != Done { return; }
      if taken {
        TakenAt(f, estimates, b);
        TakenAll(f, estimates, b, entries);
        ExitsWithinExtend(t0, store.table, or0, and0, RoomBefore(f, estimates, b));
      }
      st := FinishBlock(f, b, valid, t0, defined);
    }

    // The end of a block, after its instructions.
    method FinishBlock(f: Func, b: nat, valid: bool, ghost t0: Table, ghost defined: set<Reg>) returns (st: Status)
      requires Valid() && b < |f| && WellFormed(t0) && t0 <= store.table && In(t0, exitNodesOr) && In(t0, exitNodesAnd)
      requires Supported(f) && guarded ==> Forward(f) && defined <= Defs(f[b]) && Progress(f, store.table, entries, b, defined)
      requires Supported(f) && guarded ==> Exits(f, t0, exitNodesOr, exitNodesAnd, b)
      requires Straight(f) && guarded ==> Throughout(f, store.table, entries) && Joined(f, t0, exitNodesOr, exitNodesAnd, b)
      modifies this`exitNodesOr, this`exitNodesAnd, this`guarded, store
      ensures Valid() && Grown(old(store.table), store.table) && (guarded ==> old(guarded))
      ensures st == Done && Supported(f) && guarded ==>
        Progress(f, store.table, entries, b + 1, {}) && Exits(f, store.table, exitNodesOr, exitNodesAnd, b + 1)
      ensures st == Done && Straight(f) && guarded ==>
        Throughout(f, store.table, entries) && Joined(f, store.table, exitNodesOr, exitNodesAnd, b + 1)
      ensures old(InShape()) && FuncShaped(f, shapes) && st == Done ==> InShape() && guarded == old(guarded)
      ensures TakenBy(f, estimates) && valid && old(InEstimate()) && HaveNodes(entries, DefsBefore(f, b + 1))
          && ExitsWithin(old(store.table), old(exitNodesOr), old(exitNodesAnd), RoomBefore(f, estimates, b))
          && (f[b].term.Ret? && f[b].term.v.Var? ==> Find(entries, f[b].term.v).At?)
          && (f[b].term.CondBr? ==> Find(entries, f[b].term.c).At?)
        ==> st == Done && Taking(f, b + 1)
    {
      hide Val, Supported, Canonical, Throughout, Joined, Straight, StateShaped, FuncShaped, Exits, ExitAdded, Progress, OneTerm;
      hide TermShaped, Forward, Defs, TakenBy, HaveNodes, DefsBefore, EntriesEstimated, ExitsGrown, Negatable;
      if TakenBy(f, estimates) && InEstimate() && f[b].term.CondBr? && Find(entries, f[b].term.c).At? {
        TakenCondition(f, estimates, b, store.table, entries);
      }
      ghost var or0, and0, known := exitNodesOr, exitNodesAnd, InEstimate();
      ghost var t2, ok, straight := store.table, Supported(f) && guarded, Straight(f) && guarded;
      if InShape() && FuncShaped(f, shapes) { assert TermShaped(shapes, f[b].term) by { BlockOf(f, shapes, b); } }
      st := ProcessTerm(f[b].term, valid);
      if known {
        EntriesEstimatedExtend(t2, store.table, entries, estimates);
        if st == Done && ExitsWithin(t2, or0, and0, RoomBefore(f, estimates, b)) {
          RoomNext(f, estimates, b, t2, or0, and0, store.table, exitNodesOr, exitNodesAnd);
        }
      }
      if st == Done && ok && guarded {
        BlockProgress(f, b, t0, t2, store.table, entries, defined, old(exitNodesOr), old(exitNodesAnd), exitNodesOr, exitNodesAnd);
      }
      if st == Done && straight && guarded {
        BlockStraight(f, b, t0, t2, store.table, entries, old(exitNodesOr), old(exitNodesAnd), exitNodesOr, exitNodesAnd);
      }
    }

    method ProcessPhis(f: Func, b: nat) returns (st: Status, ghost defined: set<Reg>)
      requires Valid() && Closed(f) && b < |f|
      requires Supported(f) && guarded ==> Progress(f, store.table, entries, b, {})
      requires Straight(f) && guarded ==> Throughout(f, store.table, entries)
      modifies this`entries, this`guarded, store
      ensures Valid() && Grown(old(store.table), store.table) && (guarded ==> old(guarded)) && (st == Done || st == Crash)
      ensures defined <= Defs(f[b])
      ensures st == Done && Supported(f) && guarded ==> Progress(f, store.table, entries, b, defined)
      ensures st == Done && Straight(f) && guarded ==> Throughout(f, store.table, entries)
      ensures old(InShape()) && FuncShaped(f, shapes) && st == Done ==> InShape() && guarded == old(guarded)
      ensures f[b].phis == [] ==> st == Done && entries == old(entries)
      ensures TakenBy(f, estimates) && old(InEstimate()) && HaveNodes(old(entries), DefsBefore(f, b)) ==>
        st == Done && InEstimate() && HaveNodes(entries, DefsBefore(f, b) + PhiDefs(f[b].phis))
    {
      hide Val, PhiMeans, PhiOperandsFound, Supported, Canonical, Throughout, StateShaped, FuncShaped, Straight;
      hide Progress, PhiShaped, OneTerm, TakenBy, EntriesEstimated, HaveNodes, DefsBefore, PhiDefs, Covers, PhiTaken, PhiCounts;
      hide Defs, Forward, Closed, BlockShaped;
      ghost var have := DefsBefore(f, b);
      ghost var taken := TakenBy(f, estimates) && InEstimate() && HaveNodes(entries, have);
      if taken {
        TakenAt(f, estimates, b);
        NoPhisTaken(f, b, entries);
      }
      ghost var t0, ok := store.table, Supported(f);
      ghost var shaped := InShape() && FuncShaped(f, shapes);
      if shaped { BlockPhis(f, shapes, b); }
      assert ok ==> Forward(f) by { if ok { FragmentOf(f, b); } }
      assert Straight(f) ==> f[b].phis == [] by { if Straight(f) { StraightOf(f, b); } }
      st, defined := Done, {};
      var j := 0;
      while j < |f[b].phis|
        invariant 0 <= j <= |f[b].phis| && Valid() && Grown(t0, store.table) && (guarded ==> old(guarded))
        invariant defined <= Defs(f[b]) && st == Done
        invariant ok && guarded ==> Progress(f, store.table, entries, b, defined)
        invariant j == 0 ==> store.table == t0 && entries == old(entries) && guarded == old(guarded)
        invariant shaped ==> InShape() && guarded == old(guarded)
        invariant taken ==> InEstimate() && HaveNodes(entries, have + PhiDefs(f[b].phis[..j]))
      {
        var p := f[b].phis[j];
        if taken {
          PhiTakenHere(f, estimates, b, p, store.table, entries, have + PhiDefs(f[b].phis[..j]));
          PhiCovered(f, estimates, b, p);
        }
        ghost var t1, e1 := store.table, entries;
        st := ProcessPhi(f, b, p);
        if st != Done { return; }
        if taken { PhiStep(f, b, j, e1, entries); }
        if ok && guarded { PhiProgress(f, b, p, t1, e1, store.table, entries, defined) by { ProgressKnown(f, t1, e1, b, defined); } }
        PhiDefinedHere(f[b], p);
        defined := defined + {p.x};
        j := j + 1;
      }
      assert f[b].phis[..j] == f[b].phis;
    }

    method ProcessInsts(f: Func, b: nat, ghost defined0: set<Reg>) returns (st: Status, valid: bool,
        ghost defined: set<Reg>)
      requires Valid() && b < |f| && defined0 <= Defs(f[b])
      requires Supported(f) ==> Forward(f)
      requires Supported(f) && guarded ==> Progress(f, store.table, entries, b, defined0)
      requires Straight(f) && guarded ==> Throughout(f, store.table, entries)
      modifies this`entries, this`guarded, store
      ensures Valid() && old(store.table) <= store.table && (guarded ==> old(guarded)) && st != Invalid && st != Empty
      ensures Sumless(f[b]) ==> Grown(old(store.table), store.table)
      ensures defined <= Defs(f[b])
      ensures st == Done && Supported(f) && guarded ==> Progress(f, store.table, entries, b, defined)
      ensures st == Done && Straight(f) && guarded ==> Throughout(f, store.table, entries)
      ensures old(InShape()) && FuncShaped(f, shapes) && st == Done ==> InShape() && guarded == old(guarded)
      ensures TakenBy(f, estimates) && old(InEstimate()) && HaveNodes(old(entries), DefsBefore(f, b) + PhiDefs(f[b].phis)) ==>
        st == Done && valid && InEstimate() && HaveNodes(entries, DefsBefore(f, b) + PhiDefs(f[b].phis) + InstDefs(f[b].insts))
    {
      hide Val, Supported, Canonical, Throughout, StateShaped, FuncShaped, Straight, Progress, Adding, OneTerm, TakenBy;
      hide DefsBefore, InstDefs, PhiDefs, HaveNodes, Forward, Defs, EntriesEstimated;
      ghost var t0, ok, have := store.table, Supported(f), DefsBefore(f, b) + PhiDefs(f[b].phis);
      ghost var taken := TakenBy(f, estimates) && InEstimate() && HaveNodes(entries, have);
      ghost var shaped := InShape() && FuncShaped(f, shapes);
      st, valid, defined := Done, true, defined0;
      var j := 0;
      if taken { NothingTaken(f, b, entries); }
      while j < |f[b].insts|
        invariant 0 <= j <= |f[b].insts| && Valid() && t0 <= store.table && (guarded ==> old(guarded))
        invariant Sumless(f[b]) ==> Grown(t0, store.table)
        invariant defined <= Defs(f[b]) && st == Done
        invariant ok && guarded ==> Progress(f, store.table, entries, b, defined)
        invariant Straight(f) && guarded ==> Throughout(f, store.table, entries)
        invariant shaped ==> InShape() && guarded == old(guarded)
        invariant taken ==> valid && TakenTo(f, b, j)
      {
        assert f[b].insts[j] in f[b].insts;
        st, valid, defined := ProcessInstAt(f, b, j, valid, defined);
        if st != Done { return; }
        j := j + 1;
      }
      assert f[b].insts[..j] == f[b].insts;
    }

    // A function that is taken, in the middle of a block.
    ghost predicate TakenTo(f: Func, b: nat, j: nat)
      requires b < |f| && j <= |f[b].insts|
      reads this, store
    {
      InEstimate() && HaveNodes(entries, DefsBefore(f, b) + PhiDefs(f[b].phis) + InstDefs(f[b].insts[..j]))
    }

    // One more instruction of a block.
    method ProcessInstAt(f: Func, b: nat, j: nat, valid0: bool, ghost defined0: set<Reg>) returns (st: Status, valid: bool,
        ghost defined: set<Reg>)
      requires Valid() && b < |f| && j < |f[b].insts| && defined0 <= Defs(f[b])
      requires Supported(f) ==> Forward(f)
      requires Supported(f) && guarded ==> Progress(f, store.table, entries, b, defined0)
      requires Straight(f) && guarded ==> Throughout(f, store.table, entries)
      modifies this`entries, this`guarded, store
      ensures Valid() && old(store.table) <= store.table && (guarded ==> old(guarded)) && st != Invalid && st != Empty
      ensures !Adding(f[b].insts[j]) ==> Grown(old(store.table), store.table)
      ensures defined <= Defs(f[b])
      ensures st == Done && Supported(f) && guarded ==> Progress(f, store.table, entries, b, defined)
      ensures st == Done && Straight(f) && guarded ==> Throughout(f, store.table, entries)
      ensures old(InShape()) && FuncShaped(f, shapes) && st == Done ==> InShape() && guarded == old(guarded)
      ensures TakenBy(f, estimates) && old(TakenTo(f, b, j)) ==> st == Done && valid == valid0 && TakenTo(f, b, j + 1)
    {
      hide Val, Keeps, Supported, Fragment, Canonical, Throughout, StateShaped, FuncShaped, Straight, Progress;
      hide InstShaped, OneTerm, TakenBlock, TakenBy, InstTaken, UsesFound, DefsBefore, InstDefs, PhiDefs, HaveNodes, Forward, Defs;
      hide EntriesEstimated, Covers, InstEstimate, BlockShaped, Adding;
      var i := f[b].insts[j];
      ghost var t1, e1, ok := store.table, entries, Supported(f);
      ghost var taken := TakenBy(f, estimates) && TakenTo(f, b, j);
      ghost var shaped := InShape() && FuncShaped(f, shapes);
      if shaped { BlockInsts(f, shapes, b); }
      if taken {
        TakenAt(f, estimates, b);
        TakenReady(f, estimates, b, j, entries);
        InstCovered(f, estimates, b, i);
      }
      valid := valid0;
      st := ProcessInst(i);
      if taken { TakenStep(f, b, j, e1, entries); }
      defined := defined0 + {i.x};
      DefinedHere(f[b], i);
      if st == Rejected || st == Crash { return; }
      if st == Invalid { valid := false; }
      st := Done;
      if ok && guarded {
        FragmentOf(f, b);
        InstProgress(f, b, i, t1, e1, store.table, entries, defined0) by { ProgressKnown(f, t1, e1, b, defined0); }
      }
      if Straight(f) && guarded {
        StraightOf(f, b);
        ThroughoutStep(f, b, i, t1, e1, store.table, entries);
      }
    }

    // Done is an accepted function; root is then its expression.
    method Compile(f: Func) returns (st: Status, root: nat)
      requires Valid() && entries == map[] && exitNodesOr == [] && exitNodesAnd == [] && guarded
      requires Closed(f) && f != []
      modifies this, store
      ensures Valid() && old(store.table) <= store.table
      ensures AddsNothing(f) ==> Grown(old(store.table), store.table)
      ensures st == Done ==> root < |store.table|
      ensures st == Done && guarded ==> JoinsExits(store.table, root, exitNodesOr, exitNodesAnd)
      ensures st == Done && guarded && Straight(f) ==> MeansReturns(f, store.table, root)
      ensures st == Done && guarded && Supported(f) ==> Compiles(f, store.table, root)
      ensures Shaped(old(store.table)) && FuncShaped(f, shapes) && st == Done ==>
        Shaped(store.table) && Joinable(store.table, root) && guarded
      ensures TakenBy(f, estimates) ==> st == Done
      ensures TakenBy(f, estimates) && RoomBefore(f, estimates, |f|).Some? ==>
        Tree(store.table, root) <= RoomBefore(f, estimates, |f|).value + 3
    {
      hide TakenBy, RoomBefore, Trees, EntriesEstimated, ExitsWithin, HaveNodes, DefsBefore;
      hide Val, Supported, Progress, Exits, AndGuard, SumFree, BlockShaped, Conjoins, Disjoins, Implied;
      hide Canonical, OneTerm;
      hide Throughout, Joined, Straight, StateShaped, FuncShaped, JoinsExits, MeansReturns, Shaped, Joinable;
      root := 0;
      ghost var ok, shaped := Supported(f), Shaped(store.table) && FuncShaped(f, shapes);
      if ok { StartProgress(f, store.table); }
      StartJoined(f, store.table);
      if shaped { StartShaped(store.table, shapes); }
      StartTaking(f, store.table, estimates);
      var b := 0;
      while b < |f|
        invariant 0 <= b <= |f| && Valid() && old(store.table) <= store.table
        invariant AddsNothing(f) ==> Grown(old(store.table), store.table)
        invariant ok && guarded ==> Forward(f) && Progress(f, store.table, entries, b, {}) && Exits(f, store.table, exitNodesOr, exitNodesAnd, b)
        invariant Straight(f) && guarded ==> Throughout(f, store.table, entries) && Joined(f, store.table, exitNodesOr, exitNodesAnd, b)
        invariant shaped ==> InShape() && guarded
        invariant TakenBy(f, estimates) ==> Taking(f, b)
      {
        if ok { FragmentOf(f, b); }
        st := ProcessBlock(f, b);
        if st != Done { return; }
        b := b + 1;
      }
      ghost var t0 := store.table;
      ghost var exact;
      root, exact := JoinExits();
      if TakenBy(f, estimates) { RootWithin(t0, exitNodesOr, exitNodesAnd, RoomBefore(f, estimates, |f|)); }
      guarded := guarded && exact;
      st := Done;
      if ok && guarded { RootMeans(f, t0, store.table, exitNodesOr, exitNodesAnd, root); }
      if Straight(f) && guarded { RootReturns(f, t0, store.table, exitNodesOr, exitNodesAnd, root); }
    }

    // The root: some alternative and all the rest.
    method JoinExits() returns (root: nat, ghost exact: bool)
      requires Valid()
      modifies store
      ensures Valid() && Grown(old(store.table), store.table) && root < |store.table|
      ensures exact ==> JoinsExits(store.table, root, exitNodesOr, exitNodesAnd)
      ensures old(InShape()) ==> Shaped(store.table) && Joinable(store.table, root) && exact
      ensures Tree(store.table, root) <= Trees(old(store.table), exitNodesOr) + Trees(old(store.table), exitNodesAnd) + 3
    {
      hide Val, AndGuard, Conjoins, Disjoins, Implied, Canonical, StateShaped, JoinsExits, Shaped, Joinable, Trees, AsDeniable;
      hide AllJoinable, NoOffsets, OneTerm, ExitsShaped, Lossless, SumFree, AllSumFree;
      ghost var t0, shaped := store.table, InShape();
      if shaped {
        StateParts(t0, entries, shapes, exitNodesOr, exitNodesAnd);
        ExitsInShape(t0, exitNodesOr, exitNodesAnd);
      }
      var any := OrAll(exitNodesOr);
      ghost var t1 := store.table;
      if shaped {
        ExitsShapedExtend(t0, t1, exitNodesOr, exitNodesAnd);
        ExitsInShape(t1, exitNodesOr, exitNodesAnd);
      }
      var all;
      all, exact := AndAll(exitNodesAnd);
      ghost var t2 := store.table;
      if shaped {
        JoinablePair(t1, any, t2, all);
        NumbersExtend(t1, t2, any, NO_NUMBERS);
        LosslessGuard(t2, any, all);
      }
      exact := exact && AndGuard(t2, [any, all]);
      root := store.GetAnd([any, all]);
      RootSize(t0, exitNodesOr, exitNodesAnd, t1, any, t2, all, store.table, root);
      if exact { RootJoins(t0, t1, t2, store.table, exitNodesOr, exitNodesAnd, any, all, root); }
    }

    // No alternatives at all stand for TRUE here too.
    method OrAll(ids: seq<nat>) returns (r: nat)
      requires Valid() && In(store.table, ids)
      modifies store
      ensures Valid() && Grown(old(store.table), store.table) && r < |store.table|
      ensures if ids == [] then store.table[r].kind == True else Disjoins(store.table, r, ids)
      ensures Shaped(old(store.table)) && AllJoinable(old(store.table), ids) ==> Shaped(store.table) && Joinable(store.table, r)
      ensures (forall i :: i in ids ==> Lossless(old(store.table), i)) ==> Lossless(store.table, r)
      ensures Tree(store.table, r) <= Trees(old(store.table), ids) + 1
    {
      hide Canonical, Shaped, Joinable, AllJoinable, NoOffsets, Lossless, Firm, OnlyTerm, Disjoins, OneTerm, Trees, AsDeniable;
      ghost var t0 := store.table;
      if ids == [] {
        r := store.GetTrue();
        LeafTree(store.table, r);
        ConstantResult(store.table, r);
      } else {
        JoinableOffsets(store.table, ids);
        r := store.GetOr(ids);
        OrNumbers(t0, ids, store.table, r, NO_NUMBERS);
      }
    }

    method AndAll(ids: seq<nat>) returns (r: nat, ghost exact: bool)
      requires Valid() && In(store.table, ids)
      modifies store
      ensures Valid() && Grown(old(store.table), store.table) && r < |store.table|
      ensures ids == [] ==> store.table[r].kind == True
      ensures ids != [] && exact ==> Conjoins(store.table, r, ids)
      ensures Shaped(old(store.table)) && AllJoinable(old(store.table), ids) ==> Shaped(store.table) && Joinable(store.table, r)
      ensures AllSumFree(old(store.table), ids) ==> SumFree(store.table, r) && exact
      ensures Tree(store.table, r) <= Trees(old(store.table), ids) + 1
    {
      hide Trees, AsDeniable;
      hide Canonical, Shaped, Joinable, AllJoinable, AndGuard, Joins, SumFree, AllSumFree, NumbersIn, Lossless, Firm, OneTerm;
      exact := true;
      if ids == [] {
        r := store.GetTrue();
        LeafTree(store.table, r);
        ConstantResult(store.table, r);
        ConstantSumFree(store.table, r);
      } else {
        exact := AndGuard(store.table, ids);
        if AllSumFree(store.table, ids) { SumFreeGuard(store.table, ids); }
        r := store.GetAnd(ids);
      }
    }
  }
}

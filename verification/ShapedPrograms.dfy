// Functions whose i32 values have a shape, for which the compiler is always exact.
module ShapedPrograms {
  import opened Words
  import opened LogicalNodes
  import opened WrappedRanges
  import opened LogicalProgram
  import opened SumModifiers
  import opened NodeRules
  import opened NodeOrder
  import opened NodeSums
  import opened ShapedTables
  import opened Routes
  import opened CompilerRules

  // The shape of each value; a condition when nothing is known of it.
  type Shapes = map<Reg, Shape>

  function ShapeFor(shapes: Shapes, x: Reg): Shape { if x in shapes then shapes[x] else PLAIN }

  function OperandShape(shapes: Shapes, o: Operand): Shape { if o.Var? then ShapeFor(shapes, o.x) else PLAIN }

  function OnceFor(ns: Numbers): Option<Shape> { Some(Condition(Once, true, ns)) }

  // =Y,Y on terms not all of which are conditions: not to be negated, and to be joined with =Y only where
  // none match or there are not that many.
  function CountedShape(terms: nat, y: u32): Option<Shape> {
    if y == ALL_ONES then None
    else Some(Condition(Once, false, Numbers({}, if 0 < y <= terms then {y} else {})))
  }

  // The shape of comparing a value for equality, where that compiles exactly: a number of terms is not
  // compared with ~0.
  function EqualShape(s: Shape, v: u32): Option<Shape> {
    match s
    case Subsig => OnceFor(NO_NUMBERS)
    case Amount => OnceFor(Numbers({v}, {}))
    case AmountPlus(off) => OnceFor(Numbers({Minus(v, off)}, {}))
    case Tally(_) => if v == ALL_ONES then None else OnceFor(NO_NUMBERS)
    case TallyPlus(_, off) => if Minus(v, off) == ALL_ONES then None else OnceFor(NO_NUMBERS)
    case Mixed(terms) => CountedShape(terms, v)
    case MixedPlus(terms, off) => CountedShape(terms, Minus(v, off))
    case Condition(_, _, _) => None
  }

  function UnequalShape(s: Shape, v: u32): Option<Shape> {
    match s
    case Subsig => Some(if v == 0 then Condition(Bare, true, NO_NUMBERS) else PLAIN)
    case Mixed(_) => None
    case MixedPlus(_, _) => None
    case _ => if EqualShape(s, v).Some? then Some(PLAIN) else None
  }

  // Above zero is the value itself; other bounds need a total, and an offset that folds.
  function OverShape(s: Shape, b: u32): Option<Shape> {
    match s
    case Subsig => if b == 0 then Some(Condition(Bare, true, NO_NUMBERS)) else OnceFor(NO_NUMBERS)
    case Amount => if b == 0 then Some(PLAIN) else OnceFor(NO_NUMBERS)
    case Tally(_) => if b == 0 then Some(PLAIN) else if b == ALL_ONES then None else OnceFor(NO_NUMBERS)
    case Mixed(_) => if b == 0 then Some(PLAIN) else None
    case AmountPlus(off) => if b != 0 && GtFolds(off, b) then OnceFor(NO_NUMBERS) else None
    case _ => None
  }

  function UnderShape(s: Shape, b: u32): Option<Shape> {
    if s.Condition? then None
    else if b == 0 then Some(PLAIN)
    else
      match s
      case Subsig => OnceFor(NO_NUMBERS)
      case Amount => OnceFor(NO_NUMBERS)
      case Tally(_) => if b == ALL_ONES then None else OnceFor(NO_NUMBERS)
      case AmountPlus(off) =>
        if !LtFolds(off, b) then None else if off == b == ALL_ONES then Some(PLAIN) else OnceFor(NO_NUMBERS)
      case _ => None
  }

  function CompareShape(s: Shape, p: Predicate, v: u32): Option<Shape> {
    if Trivial(p, v) || !Unsigned(p) then Some(PLAIN)
    else if p == EQ then EqualShape(s, v)
    else if p == NE then UnequalShape(s, v)
    else if Over(p) then OverShape(s, Bound(p, v)) else UnderShape(s, Bound(p, v))
  }

  // Conditions may be joined when no =X of the one meets an =X,X of the other that loses the total.
  function AndShape(a: Shape, b: Shape): Option<Shape> {
    if a.Condition? && b.Condition? && Apart(a.ns, b.ns)
    then Some(Condition(if a.form == b.form == Once then Once else Open, a.firm && b.firm, Both(a.ns, b.ns)))
    else None
  }

  function OrShape(a: Shape, b: Shape): Option<Shape> {
    if a.Condition? && b.Condition? then Some(Condition(Open, a.firm && b.firm, Both(a.ns, b.ns))) else None
  }

  predicate FirmShape(s: Shape) { s.Condition? && s.firm }

  // The shape of an instruction's value from the shapes of its operands.
  function Infer(shapes: Shapes, i: Inst): Option<Shape> {
    match i
    case Load(_, _) => Some(Subsig)
    case Direct(_, _) => Some(Subsig)
    case Foreign(_) => Some(PLAIN)
    case ICmp(_, p, _, _) =>
      if Against(i).Const? && Measured(i).Var? && Measured(i).x in shapes
      then CompareShape(ShapeFor(shapes, Measured(i).x), p, Against(i).v) else Some(PLAIN)
    case AddI(_, a, b) =>
      if b.Var? then PlusShape(OperandShape(shapes, a), ShapeFor(shapes, b.x))
      else
        (match OperandShape(shapes, a)
         case Subsig => Some(AmountPlus(b.v))
         case Amount => Some(AmountPlus(b.v))
         case Tally(terms) => Some(TallyPlus(terms, b.v))
         case Mixed(terms) => Some(MixedPlus(terms, b.v))
         case _ => None)
    case AndI(_, a, b) => AndShape(OperandShape(shapes, a), OperandShape(shapes, b))
    case OrI(_, a, b) => OrShape(OperandShape(shapes, a), OperandShape(shapes, b))
    case XorI(_, a, _) => if FirmShape(OperandShape(shapes, a)) then Some(PLAIN) else None
    case ZExt(_, a, _, _) => CountShape(OperandShape(shapes, a))
    case Select(_, c, a, b) => ChoiceShape(OperandShape(shapes, c), OperandShape(shapes, a), OperandShape(shapes, b))
  }

  // A condition that matches at most once counts as one, and so does a match count above zero.
  function CountShape(s: Shape): Option<Shape> {
    if !s.Condition? then None
    else
      match s.form
      case Once => Some(Tally(1))
      case Bare => Some(Mixed(1))
      case Open => None
  }

  // One side of a choice: its guard, or that and the operand.
  function SideOf(c: Shape, a: Shape): Shape {
    if c.Condition? && a.Condition? then Condition(Open, a.firm, Both(c.ns, a.ns)) else PLAIN
  }

  // The condition of a choice is negated for the second side.
  function ChoiceShape(c: Shape, a: Shape, b: Shape): Option<Shape> {
    if FirmShape(c) && a.Condition? && b.Condition? && Apart(c.ns, a.ns)
    then Some(Condition(Open, a.firm && b.firm, Both(Both(c.ns, a.ns), b.ns)))
    else None
  }

  // An i32 value without a shape, which never gets a node.
  predicate Lacks(shapes: Shapes, o: Operand) { o.Var? && o.x.Word? && o.x !in shapes }

  // Instructions that are refused or reported, so that their values get no node either.
  predicate NoNode(shapes: Shapes, i: Inst) {
    || i.Foreign?
    || (i.AddI? && (i.a.Const? || Lacks(shapes, i.a) || Lacks(shapes, i.b)))
    || (i.ZExt? && (i.a.Const? || i.from != 1 || i.to != 32))
  }

  predicate InstShaped(shapes: Shapes, i: Inst) {
    Fragment(i) && (NoNode(shapes, i) || (i.x in shapes && Infer(shapes, i).Some? && Passes(Infer(shapes, i).value, shapes[i.x])))
  }

  // The totals the branch conditions may bring to a phi.
  function BranchTotals(f: Func, shapes: Shapes): set<u32> {
    set b, x | 0 <= b < |f| && f[b].term.CondBr? && x in TotalsOf(OperandShape(shapes, f[b].term.c)) :: x
  }

  function TotalsOf(s: Shape): set<u32> { if s.Condition? then s.ns.totals else {} }

  // The conditions of a route joined.
  function RouteShape(f: Func, shapes: Shapes): Shape { Condition(Open, true, Numbers(BranchTotals(f, shapes), {})) }

  // An incoming value joined with the conditions of its routes passes for the phi.
  predicate IncomingFits(route: Shape, s: Shape, v: Shape) {
    AndShape(route, v).Some? && s.Condition? && s.form == Open && Passes(AndShape(route, v).value, s)
  }

  predicate PhiShaped(f: Func, shapes: Shapes, p: Phi) {
    && p.x.Flag? && ShapeFor(shapes, p.x).Condition?
    && (forall k :: 0 <= k < |p.ins| ==> IsFlag(p.ins[k].value))
    && forall k :: 0 <= k < |p.ins| && p.ins[k].value != Const(0) ==>
         IncomingFits(RouteShape(f, shapes), ShapeFor(shapes, p.x), OperandShape(shapes, p.ins[k].value))
  }

  // Each incoming value of a phi fits it.
  predicate InsFit(f: Func, shapes: Shapes, ins: seq<Incoming>, goal: Shape) {
    forall k :: 0 <= k < |ins| ==>
      IsFlag(ins[k].value) && (ins[k].value != Const(0) ==> IncomingFits(RouteShape(f, shapes), goal, OperandShape(shapes, ins[k].value)))
  }

  lemma {:induction false} PhiFits(f: Func, shapes: Shapes, p: Phi)
    requires PhiShaped(f, shapes, p)
    ensures p.x.Flag? && ShapeFor(shapes, p.x).Condition? && InsFit(f, shapes, p.ins, ShapeFor(shapes, p.x))
  {
    hide IncomingFits, RouteShape;
  }

  predicate TermShaped(shapes: Shapes, term: Term) {
    TermFragment(term) && (term.CondBr? ==> FirmShape(OperandShape(shapes, term.c)))
  }

  // A branch condition may be negated. When there are phis, the entry block ends in a condition, as it
  // does once unconditional branches have been merged away.
  predicate BlockShaped(f: Func, shapes: Shapes, b: nat)
    requires b < |f|
  {
    && (forall i :: i in f[b].insts ==> InstShaped(shapes, i))
    && (forall p :: p in f[b].phis ==> PhiShaped(f, shapes, p))
    && TermShaped(shapes, f[b].term) && (f[b].phis != [] ==> f[0].term.CondBr?)
  }

  // The shapes fit the function, instruction by instruction.
  predicate FuncShaped(f: Func, shapes: Shapes) {
    forall b :: 0 <= b < |f| ==> BlockShaped(f, shapes, b)
  }

  // Every i32 value is a match count, a sum of them, a number of counted conditions and match counts, or
  // one of these plus a constant; every compare of one is in the range where it compiles exactly; what is
  // negated may be, and what is joined loses no total.
  ghost predicate ShapedFunc(f: Func) { exists shapes: Shapes :: FuncShaped(f, shapes) }

  function ShapedBy(shapes: Shapes, i: Inst): Shapes {
    if !NoNode(shapes, i) && Infer(shapes, i).Some? then shapes[i.x := Infer(shapes, i).value] else shapes
  }

  // Shapes to try, computed in layout order: FuncShaped tells whether they fit.
  function InstShapes(shapes: Shapes, insts: seq<Inst>): Shapes
    decreases insts
  {
    if insts == [] then shapes
    else
      InstShapes(ShapedBy(shapes, insts[0]), insts[1..])
  }

  // A phi has what its operands and the routes to them bring.
  function PhiShape(shapes: Shapes, s: Shape, ins: seq<Incoming>): Shape
    decreases ins
  {
    if ins == [] then s
    else
      var v := OrShape(s, OperandShape(shapes, ins[0].value));
      PhiShape(shapes, if ins[0].value == Const(0) || v.None? then s else v.value, ins[1..])
  }

  function PhiShapes(shapes: Shapes, route: Shape, phis: seq<Phi>): Shapes
    decreases phis
  {
    if phis == [] then shapes
    else PhiShapes(shapes[phis[0].x := PhiShape(shapes, route, phis[0].ins)], route, phis[1..])
  }

  function ShapesFrom(f: Func, route: Shape): Shapes {
    if f == [] then map[]
    else
      var b := f[|f| - 1];
      InstShapes(PhiShapes(ShapesFrom(f[..|f| - 1], route), route, b.phis), b.insts)
  }

  // The totals of the branch conditions first, then with them the phis.
  function ShapesOf(f: Func): Shapes { ShapesFrom(f, RouteShape(f, ShapesFrom(f, PLAIN))) }

  lemma {:induction false} ComputedShapes(f: Func)
    requires FuncShaped(f, ShapesOf(f))
    ensures ShapedFunc(f)
  {
  }

  // ---- functions over counts and their sums ----

  // No constant offsets and no counting of conditions.
  predicate CountInst(i: Inst) {
    Fragment(i) && !i.ZExt? && (i.AddI? ==> i.b.Var?)
  }

  predicate CountBlock(f: Func, b: nat)
    requires b < |f|
  {
    && (forall i :: i in f[b].insts ==> CountInst(i)) && (forall p :: p in f[b].phis ==> p.x.Flag?)
    && (f[b].phis != [] ==> f[0].term.CondBr?)
  }

  // Compares of counts and sums of counts, logic on the outcomes.
  predicate CountFunc(f: Func) {
    forall b :: 0 <= b < |f| ==> CountBlock(f, b)
  }

  // A condition that brings totals only.
  const TOTALS := Condition(Open, true, Numbers(set v: u32 | 0 <= v < TWO32, {}))

  function CountShapeOf(x: Reg): Shape { if x.Word? then Amount else TOTALS }

  function CountShapes(f: Func): Shapes {
    map b, x | 0 <= b < |f| && x in Defs(f[b]) :: x := CountShapeOf(x)
  }

  ghost predicate Counting(shapes: Shapes) {
    forall x :: x in shapes ==> shapes[x] == CountShapeOf(x)
  }

  // They are all in shape.
  lemma {:induction false} CountShaped(f: Func)
    requires Supported(f) && CountFunc(f)
    ensures FuncShaped(f, CountShapes(f)) && ShapedFunc(f)
  {
    hide Supported, BlockShaped, CountShapes;
    forall b | 0 <= b < |f| ensures BlockShaped(f, CountShapes(f), b) { CountBlockShaped(f, b); }
  }

  lemma {:induction false} CountBlockShaped(f: Func, b: nat)
    requires Supported(f) && CountFunc(f) && b < |f|
    ensures BlockShaped(f, CountShapes(f), b)
  {
    var shapes := CountShapes(f);
    assert CountBlock(f, b) && TermFragment(f[b].term) && forall p :: p in f[b].phis ==> PhiFragment(p);
    assert Counting(shapes);
    hide Supported, Fragment, CountShapes, InstShaped, PhiShaped;
    forall i | i in f[b].insts ensures InstShaped(shapes, i) {
      assert i.x in Defs(f[b]);
      assert i.x in shapes by { InCountShapes(f, b, i.x); }
      CountInstShaped(shapes, i);
    }
    forall p | p in f[b].phis ensures PhiShaped(f, shapes, p) {
      assert p.x in Defs(f[b]);
      assert p.x in shapes by { InCountShapes(f, b, p.x); }
      CountPhiShaped(f, shapes, p);
    }
  }

  lemma {:induction false} InCountShapes(f: Func, b: nat, x: Reg)
    requires b < |f| && x in Defs(f[b])
    ensures x in CountShapes(f)
  {
  }

  lemma {:induction false} CountInstShaped(shapes: Shapes, i: Inst)
    requires CountInst(i) && i.x in shapes && Counting(shapes)
    ensures InstShaped(shapes, i)
  {
  }

  lemma {:induction false} CountPhiShaped(f: Func, shapes: Shapes, p: Phi)
    requires PhiFragment(p) && p.x in shapes && Counting(shapes)
    ensures PhiShaped(f, shapes, p)
  {
    hide BranchTotals;
  }

  // ---- tables in shape ----

  ghost predicate EntriesShaped(t: Table, entries: Entries, shapes: Shapes) {
    forall x :: x in entries && entries[x].Some? ==>
      HasShape(t, entries[x].value, ShapeFor(shapes, x)) && if x.Flag? then ShapeFor(shapes, x).Condition? else x in shapes
  }

  lemma {:induction false} EntriesShapedExtend(t: Table, t': Table, entries: Entries, shapes: Shapes)
    requires Acyclic(t) && Arity(t) && Acyclic(t') && Arity(t') && t <= t' && EntriesShaped(t, entries, shapes)
    ensures EntriesShaped(t', entries, shapes)
  {
    hide HasShape;
    forall x | x in entries && entries[x].Some? ensures HasShape(t', entries[x].value, ShapeFor(shapes, x)) {
      HasShapeExtends(t, t', entries[x].value, ShapeFor(shapes, x));
    }
  }

  // Alternatives of the result lose nothing by themselves, and the rest has no equality over a sum.
  ghost predicate ExitsShaped(t: Table, exitsOr: seq<nat>, exitsAnd: seq<nat>) {
    && Acyclic(t) && Arity(t) && (forall i :: i in exitsOr ==> Joinable(t, i) && Lossless(t, i))
    && forall i :: i in exitsAnd ==> Joinable(t, i) && SumFree(t, i)
  }

  // Table, value map and exits in shape.
  ghost predicate StateShaped(t: Table, entries: Entries, shapes: Shapes, exitsOr: seq<nat>, exitsAnd: seq<nat>) {
    Shaped(t) && EntriesShaped(t, entries, shapes) && ExitsShaped(t, exitsOr, exitsAnd)
  }

  lemma {:induction false} ExitsShapedExtend(t: Table, t': Table, exitsOr: seq<nat>, exitsAnd: seq<nat>)
    requires Acyclic(t') && Arity(t') && t <= t' && ExitsShaped(t, exitsOr, exitsAnd)
    ensures ExitsShaped(t', exitsOr, exitsAnd)
  {
    hide Lossless, SumFree;
    forall i | i in exitsOr ensures Joinable(t', i) && Lossless(t', i) {
      JoinableExtends(t, t', i);
      NumbersExtend(t, t', i, NO_NUMBERS);
    }
    forall i | i in exitsAnd ensures Joinable(t', i) && SumFree(t', i) {
      JoinableExtends(t, t', i);
      SumFreeExtends(t, t', i);
    }
  }

  lemma {:induction false} StateExtends(t: Table, t': Table, entries: Entries, shapes: Shapes, exitsOr: seq<nat>,
      exitsAnd: seq<nat>)
    requires Acyclic(t) && Arity(t) && Acyclic(t') && Arity(t') && t <= t' && StateShaped(t, entries, shapes, exitsOr, exitsAnd)
    ensures Shaped(t') ==> StateShaped(t', entries, shapes, exitsOr, exitsAnd)
  {
    hide EntriesShaped, ExitsShaped, Shaped;
    EntriesShapedExtend(t, t', entries, shapes);
    ExitsShapedExtend(t, t', exitsOr, exitsAnd);
  }

  // Two values are added up.
  predicate Adding(i: Inst) { i.AddI? && i.b.Var? }

  predicate Sumless(b: Block) { forall i :: i in b.insts ==> !Adding(i) }

  ghost predicate AddsNothing(f: Func) { forall b :: 0 <= b < |f| ==> Sumless(f[b]) }

  ghost predicate Branches(f: Func, r: Route) {
    exists k :: 0 <= k < |r| && r[k].block < |f| && f[r[k].block].term.CondBr?
  }

  // An incoming value that fits the phi, routes with a condition each, and a condition to join with.
  ghost predicate IncomingShaped(f: Func, t: Table, shapes: Shapes, s: Shape, inc: Incoming, found: seq<Route>, ln: Option<nat>) {
    && FuncShaped(f, shapes) && IsFlag(inc.value) && (ln.Some? ==> HasShape(t, ln.value, s))
    && IncomingFits(RouteShape(f, shapes), s, OperandShape(shapes, inc.value))
    && forall r :: r in found ==> Branches(f, r)
  }

  lemma {:induction false} FitsOpen(route: Shape, s: Shape, v: Shape)
    requires IncomingFits(route, s, v)
    ensures s.Condition? && s.form == Open
  {
  }

  // ---- compares ----

  // Operand and bound of a compare are where its constructor is exact and keeps the table in shape.
  lemma {:induction false} EqualInRange(t: Table, n: nat, s: Shape, v: u32)
    requires WellFormed(t) && Shaped(t) && HasShape(t, n, s) && EqualShape(s, v).Some?
    ensures EqGuard(t, n, v) && EqShaped(t, n, v) && t[n].kind != AddBoth
    ensures UnequalShape(s, v).Some? ==> EqFirm(t, n)
  {
    assert ShapedNode(t, t[n]);
  }

  lemma {:induction false} EqualHasShape(t0: Table, t: Table, n: nat, s: Shape, v: u32, r: nat)
    requires WellFormed(t0) && HasShape(t0, n, s) && EqualShape(s, v).Some? && EqShaped(t0, n, v)
    requires WellFormed(t) && t0 <= t && Shaped(t) && EqFor(t, n, v, r) && Joinable(t, r) && (EqFirm(t0, n) ==> Firm(t, r))
    ensures HasShape(t, r, EqualShape(s, v).value)
  {
    var e := EqualShape(s, v).value;
    HasShapeExtends(t0, t, n, s);
    EqShapedExtends(t0, t, n, v);
    assert e.firm ==> EqFirm(t0, n);
    assert t[r].kind == Eq;
    hide Firm, Joinable, NumbersIn, Lossless;
    EqBrings(t, n, v, r, e.ns);
  }

  lemma {:induction false} UnequalInRange(t: Table, n: nat, s: Shape, v: u32)
    requires WellFormed(t) && Shaped(t) && HasShape(t, n, s) && UnequalShape(s, v).Some?
    ensures EqGuard(t, n, v) && EqShaped(t, n, v) && t[n].kind != AddBoth && EqFirm(t, n)
  {
    EqualInRange(t, n, s, v);
  }

  lemma {:induction false} BareShape(t: Table, n: nat)
    requires Acyclic(t) && Arity(t) && n < |t| && t[n].kind == SubSignature
    ensures HasShape(t, n, Condition(Bare, true, NO_NUMBERS))
  {
  }

  lemma {:induction false} UnequalHasShape(t0: Table, t: Table, n: nat, s: Shape, v: u32, r: nat)
    requires HasShape(t0, n, s) && UnequalShape(s, v).Some?
    requires Acyclic(t) && Arity(t) && t0 <= t && Joinable(t, r) && Firm(t, r) && SumFree(t, r)
    requires t0[n].kind == SubSignature && v == 0 ==> r == n
    ensures HasShape(t, r, UnequalShape(s, v).value)
  {
    if s == Subsig && v == 0 { BareShape(t, r); } else { PlainShape(t, r, NO_NUMBERS); }
  }

  lemma {:induction false} OverInRange(t: Table, n: nat, s: Shape, b: u32)
    requires WellFormed(t) && Shaped(t) && HasShape(t, n, s) && OverShape(s, b).Some?
    ensures GtGuard(t, n, b) && SumFree(t, n) && t[n].kind != AddBoth
    ensures OverShape(s, b).value.Condition?
    ensures b == 0 ==> Joinable(t, n) && Firm(t, n) && FormOf(t[n].kind, OverShape(s, b).value.form)
    ensures b != 0 ==> OrderShaped(t, n, b) && OverShape(s, b).value.form == Once && (t[n].kind == Add ==> GtOnce(t, n, b))
    ensures OverShape(s, b).value.ns == NO_NUMBERS && OverShape(s, b).value.firm
  {
    assert ShapedNode(t, t[n]);
  }

  lemma {:induction false} UnderInRange(t: Table, n: nat, s: Shape, b: u32)
    requires WellFormed(t) && Shaped(t) && HasShape(t, n, s) && UnderShape(s, b).Some?
    ensures LtGuard(t, n, b) && (b != 0 ==> OrderShaped(t, n, b))
    ensures UnderShape(s, b).value.Condition?
    ensures UnderShape(s, b).value.form == Once ==> b != 0 && (t[n].kind == Add ==> LtOnce(t, n, b))
    ensures UnderShape(s, b).value.form != Bare && UnderShape(s, b).value.ns == NO_NUMBERS && UnderShape(s, b).value.firm
  {
    assert ShapedNode(t, t[n]);
  }

  // An order brings no numbers.
  lemma {:induction false} OrderHasShape(t: Table, r: nat, s: Shape)
    requires Acyclic(t) && Arity(t) && Joinable(t, r) && Firm(t, r) && SumFree(t, r)
    requires s.Condition? && s.firm && s.ns == NO_NUMBERS && FormOf(t[r].kind, s.form)
    ensures HasShape(t, r, s)
  {
    PlainShape(t, r, NO_NUMBERS);
  }

  // Every compare the shape allows is inside the exactness condition of its constructor.
  lemma {:induction false} CompareInRange(t: Table, n: nat, s: Shape, p: Predicate, v: u32)
    requires WellFormed(t) && Shaped(t) && HasShape(t, n, s) && CompareShape(s, p, v).Some? && Unsigned(p) && !Trivial(p, v)
    ensures p == EQ || p == NE ==> EqGuard(t, n, v)
    ensures p == NE ==> EqFirm(t, n)
    ensures Over(p) ==> GtGuard(t, n, Bound(p, v))
    ensures Under(p) ==> LtGuard(t, n, Bound(p, v))
  {
    hide HasShape, GtGuard, LtGuard, EqGuard, NotGuard, Shaped, Canonical, EqFirm, EqShaped, EqFor, OverShape, UnderShape;
    if p == EQ {
      EqualInRange(t, n, s, v);
    } else if p == NE {
      UnequalInRange(t, n, s, v);
    } else if Over(p) {
      OverInRange(t, n, s, Bound(p, v));
    } else {
      UnderInRange(t, n, s, Bound(p, v));
    }
  }

  // ---- instruction by instruction ----

  lemma {:induction false} FlagInferred(shapes: Shapes, i: Inst)
    requires InstShaped(shapes, i) && !NoNode(shapes, i) && i.x.Flag?
    ensures ShapeFor(shapes, i.x).Condition?
  {
    hide EqualShape, UnequalShape, OverShape, UnderShape, CompareShape;
    if i.ICmp? && Against(i).Const? && Measured(i).Var? {
      CompareFlag(ShapeFor(shapes, Measured(i).x), i.p, Against(i).v);
    }
  }

  lemma {:induction false} CompareFlag(s: Shape, p: Predicate, v: u32)
    ensures CompareShape(s, p, v).Some? ==> CompareShape(s, p, v).value.Condition?
  {
  }

  lemma {:induction false} EntryShaped(t: Table, entries: Entries, shapes: Shapes, i: Inst, r: nat)
    requires EntriesShaped(t, entries, shapes) && InstShaped(shapes, i) && !NoNode(shapes, i) && HasShape(t, r, ShapeFor(shapes, i.x))
    ensures EntriesShaped(t, entries[i.x := Some(r)], shapes)
  {
    hide HasShape, Infer;
    if i.x.Flag? { FlagInferred(shapes, i); }
  }

  lemma {:induction false} CompareInferred(t: Table, entries: Entries, shapes: Shapes, i: Inst, n: nat)
    requires EntriesShaped(t, entries, shapes) && i.ICmp? && InstShaped(shapes, i) && Against(i).Const?
    requires Find(entries, Measured(i)) == At(n)
    ensures Measured(i).Var? && HasShape(t, n, ShapeFor(shapes, Measured(i).x)) && !NoNode(shapes, i)
    ensures var s := CompareShape(ShapeFor(shapes, Measured(i).x), i.p, Against(i).v);
      s.Some? && Passes(s.value, ShapeFor(shapes, i.x))
  {
    hide CompareShape, HasShape, Passes;
  }

  lemma {:induction false} CompareInShape(t: Table, entries: Entries, shapes: Shapes, i: Inst, n: nat, t': Table, r: nat)
    requires EntriesShaped(t, entries, shapes) && i.ICmp? && InstShaped(shapes, i) && Against(i).Const?
    requires Find(entries, Measured(i)) == At(n)
    requires var s := CompareShape(ShapeFor(shapes, Measured(i).x), i.p, Against(i).v); s.Some? ==> HasShape(t', r, s.value)
    ensures !NoNode(shapes, i) && HasShape(t', r, ShapeFor(shapes, i.x))
  {
    hide CompareShape, HasShape, Passes, EntriesShaped, InstShaped;
    CompareInferred(t, entries, shapes, i, n);
    PassedShape(t', r, CompareShape(ShapeFor(shapes, Measured(i).x), i.p, Against(i).v).value, ShapeFor(shapes, i.x));
  }

  lemma {:induction false} FlagOperand(t: Table, entries: Entries, shapes: Shapes, o: Operand, id: nat)
    requires EntriesShaped(t, entries, shapes) && IsFlag(o) && Find(entries, o) == At(id)
    ensures OperandShape(shapes, o).Condition? && HasShape(t, id, OperandShape(shapes, o))
  {
    hide HasShape;
  }

  lemma {:induction false} ConditionParts(t: Table, n: nat, s: Shape)
    requires HasShape(t, n, s) && s.Condition?
    ensures n < |t| && t[n].kind != Add && Joinable(t, n) && Lossless(t, n) && NumbersIn(t, n, s.ns) && (s.firm ==> Firm(t, n))
  {
  }

  // The value inferred for an instruction passes for its recorded shape.
  lemma {:induction false} InferredShape(shapes: Shapes, i: Inst, t: Table, r: nat)
    requires InstShaped(shapes, i) && !NoNode(shapes, i) && (Infer(shapes, i).Some? ==> HasShape(t, r, Infer(shapes, i).value))
    ensures HasShape(t, r, ShapeFor(shapes, i.x))
  {
    hide HasShape, Infer, Passes;
    PassedShape(t, r, Infer(shapes, i).value, ShapeFor(shapes, i.x));
  }

  // ---- conjunctions and disjunctions ----

  lemma {:induction false} AndOperands(t: Table, a: nat, b: nat, sa: Shape, sb: Shape)
    requires WellFormed(t) && HasShape(t, a, sa) && HasShape(t, b, sb) && sa.Condition? && sb.Condition? && Apart(sa.ns, sb.ns)
    ensures In(t, [a, b]) && AllJoinable(t, [a, b]) && AndGuard(t, [a, b]) && AllNumbersIn(t, [a, b], Both(sa.ns, sb.ns))
    ensures sa.firm && sb.firm ==> AllFirm(t, [a, b])
    ensures sa.form == Once && sb.form == Once ==> Joins(t, [a, b])
  {
    ConditionParts(t, a, sa);
    ConditionParts(t, b, sb);
    ApartGuard(t, a, b, sa.ns, sb.ns);
    NumbersWiden(t, a, sa.ns, Both(sa.ns, sb.ns));
    NumbersWiden(t, b, sb.ns, Both(sa.ns, sb.ns));
    hide HasShape, NumbersIn, Lossless, AndGuard, Joinable, Firm;
    forall i | i in [a, b] ensures i < |t| && NumbersIn(t, i, Both(sa.ns, sb.ns)) {}
    if sa.form == Once && sb.form == Once { assert Single(t[a].kind) && Single(t[b].kind) by { OnceKind(t, a, sa); OnceKind(t, b, sb); } }
  }

  lemma {:induction false} OnceKind(t: Table, n: nat, s: Shape)
    requires HasShape(t, n, s) && s.Condition? && s.form == Once
    ensures n < |t| && Single(t[n].kind)
  {
  }

  lemma {:induction false} ConditionShape(t: Table, r: nat, s: Shape)
    requires Acyclic(t) && Arity(t) && Joinable(t, r) && Lossless(t, r) && s.Condition? && NumbersIn(t, r, s.ns)
    requires (s.firm ==> Firm(t, r)) && FormOf(t[r].kind, s.form)
    ensures HasShape(t, r, s)
  {
  }

  lemma {:induction false} OrOperands(t: Table, a: nat, b: nat, sa: Shape, sb: Shape)
    requires WellFormed(t) && HasShape(t, a, sa) && HasShape(t, b, sb) && sa.Condition? && sb.Condition?
    ensures In(t, [a, b]) && AllJoinable(t, [a, b]) && NoOffsets(t, [a, b]) && (sa.firm && sb.firm ==> AllFirm(t, [a, b]))
    ensures AllNumbersIn(t, [a, b], Both(sa.ns, sb.ns)) && forall i :: i in [a, b] ==> Lossless(t, i)
  {
    ConditionParts(t, a, sa);
    ConditionParts(t, b, sb);
    NumbersWiden(t, a, sa.ns, Both(sa.ns, sb.ns));
    NumbersWiden(t, b, sb.ns, Both(sa.ns, sb.ns));
    hide HasShape, NumbersIn, Lossless, Firm;
    forall i | i in [a, b] ensures i < |t| && NumbersIn(t, i, Both(sa.ns, sb.ns)) {}
  }

  lemma {:induction false} OrHasShape(t: Table, a: nat, b: nat, sa: Shape, sb: Shape, t': Table, r: nat)
    requires WellFormed(t) && HasShape(t, a, sa) && HasShape(t, b, sb) && OrShape(sa, sb).Some?
    requires WellFormed(t') && t <= t' && r < |t'| && Joinable(t', r) && (sa.firm && sb.firm ==> Firm(t', r))
    requires r in [a, b] || t'[r].kind == Or || Constant(t'[r].kind)
    ensures HasShape(t', r, OrShape(sa, sb).value)
  {
    hide HasShape, NumbersIn, Lossless, Firm, Joinable, AllNumbersIn, Canonical;
    OrOperands(t, a, b, sa, sb);
    OrNumbers(t, [a, b], t', r, Both(sa.ns, sb.ns));
    ConditionShape(t', r, OrShape(sa, sb).value);
  }

  lemma {:induction false} OrSame(s: Shape)
    requires s.Condition?
    ensures OrShape(s, s).Some? && (s.form == Open ==> Passes(OrShape(s, s).value, s))
  {
  }

  // ---- sums ----

  lemma {:induction false} CountedOperand(t: Table, entries: Entries, shapes: Shapes, i: Inst, id: nat)
    requires EntriesShaped(t, entries, shapes) && i.ZExt? && i.from == 1 && i.to == 32 && InstShaped(shapes, i)
    requires Find(entries, i.a) == At(id)
    ensures id < |t| && (Single(t[id].kind) || t[id].kind == SubSignature) && !NoNode(shapes, i)
  {
    FlagOperand(t, entries, shapes, i.a, id);
  }

  lemma {:induction false} CountInShape(t: Table, entries: Entries, shapes: Shapes, i: Inst, id: nat, t': Table, r: nat)
    requires EntriesShaped(t, entries, shapes) && i.ZExt? && i.from == 1 && i.to == 32 && InstShaped(shapes, i)
    requires Find(entries, i.a) == At(id)
    requires Acyclic(t') && Arity(t') && t <= t' && r < |t'| && t'[r] == Plain(AddUniq, ALL_ONES, [id])
    ensures HasShape(t', r, ShapeFor(shapes, i.x))
  {
    FlagOperand(t, entries, shapes, i.a, id);
    assert t'[r].children[0] == id;
    assert Tallied(t', r) <==> Single(t[id].kind);
    hide Firm, NumbersIn, Lossless;
    InferredShape(shapes, i, t', r);
  }

  lemma {:induction false} OffsetOperand(t: Table, entries: Entries, shapes: Shapes, i: Inst, id: nat)
    requires EntriesShaped(t, entries, shapes) && i.AddI? && i.b.Const? && InstShaped(shapes, i) && Find(entries, i.a) == At(id)
    ensures id < |t| && (CountKind(t[id].kind) || t[id].kind == AddUniq)
  {
    assert HasShape(t, id, OperandShape(shapes, i.a));
  }

  lemma {:induction false} OffsetInShape(t: Table, entries: Entries, shapes: Shapes, i: Inst, id: nat, t': Table, r: nat)
    requires EntriesShaped(t, entries, shapes) && i.AddI? && i.b.Const? && InstShaped(shapes, i) && Find(entries, i.a) == At(id)
    requires Acyclic(t') && Arity(t') && t <= t' && r < |t'| && t'[r] == Plain(Add, i.b.v, [id])
    ensures !NoNode(shapes, i) && HasShape(t', r, ShapeFor(shapes, i.x))
  {
    assert HasShape(t, id, OperandShape(shapes, i.a));
    MeasureExtends(t, t', id);
  }

  lemma {:induction false} SumOperands(t: Table, entries: Entries, shapes: Shapes, i: Inst, l: nat, r: nat)
    requires EntriesShaped(t, entries, shapes) && i.AddI? && i.b.Var? && InstShaped(shapes, i)
    requires Find(entries, i.a) == At(l) && Find(entries, i.b) == At(r)
    ensures l < |t| && r < |t| && PlusShape(WordShape(t, l), WordShape(t, r)).Some?
    ensures Passes(PlusShape(WordShape(t, l), WordShape(t, r)).value, ShapeFor(shapes, i.x)) && !ShapeFor(shapes, i.x).Condition?
    ensures t[l].kind != Add || t[r].kind != Add
    ensures !NoNode(shapes, i)
  {
    var sl, sr := OperandShape(shapes, i.a), ShapeFor(shapes, i.b.x);
    assert HasShape(t, l, sl) && HasShape(t, r, sr);
    assert PlusShape(sl, sr).Some? && Passes(PlusShape(sl, sr).value, ShapeFor(shapes, i.x));
    PlusPasses(WordShape(t, l), WordShape(t, r), sl, sr);
    PassesOn(PlusShape(WordShape(t, l), WordShape(t, r)).value, PlusShape(sl, sr).value, ShapeFor(shapes, i.x));
    assert !PlusShape(sl, sr).value.Condition?;
  }

  lemma {:induction false} SumInShape(t: Table, entries: Entries, shapes: Shapes, i: Inst, l: nat, r: nat,
      t': Table, n: nat)
    requires EntriesShaped(t, entries, shapes) && i.AddI? && i.b.Var? && InstShaped(shapes, i)
    requires Find(entries, i.a) == At(l) && Find(entries, i.b) == At(r) && l < |t| && r < |t|
    requires Acyclic(t') && Arity(t') && n < |t'| && Some(WordShape(t', n)) == PlusShape(WordShape(t, l), WordShape(t, r))
    ensures !NoNode(shapes, i) && HasShape(t', n, ShapeFor(shapes, i.x))
  {
    SumOperands(t, entries, shapes, i, l, r);
  }

  // Without an offset, an addition succeeds exactly when both sides are counts or both count conditions,
  // and no term is there twice.
  ghost predicate AddsOnce(t: Table, l: nat, r: nat, st: Status) {
    l < |t| && r < |t| && t[l].kind != Add && t[r].kind != Add ==>
      st == if Addable(t, l, r) && Unique(Terms(t, l) + Terms(t, r)) then Done else Rejected
  }

  // A sum without offset has a term twice exactly when its operands do.
  lemma {:induction false} CollectedUnique(t: Table, t': Table, s: nat, l: nat, r: nat)
    requires Downward(t') && t <= t' && l < |t| && r < |t|
    requires Collects(t', s, SumKind(t', l), multiset(Terms(t', l)) + multiset(Terms(t', r)))
    ensures Unique(t'[s].children) <==> Unique(Terms(t, l) + Terms(t, r))
  {
    var xs: seq<nat> :| In(t', xs) && multiset(xs) == multiset(Terms(t', l)) + multiset(Terms(t', r))
      && t'[s] == Plain(SumKind(t', l), ALL_ONES, Sort(t', xs));
    assert multiset(t'[s].children) == multiset(Terms(t, l) + Terms(t, r));
    SameUnique(t'[s].children, Terms(t, l) + Terms(t, r));
  }

  lemma {:induction false} SameUnique(xs: seq<nat>, ys: seq<nat>)
    requires multiset(xs) == multiset(ys)
    ensures Unique(xs) <==> Unique(ys)
  {
    UniqueBag(xs);
    UniqueBag(ys);
  }

  lemma {:induction false} UniqueBag(xs: seq<nat>)
    ensures Unique(xs) <==> forall x :: multiset(xs)[x] <= 1
  {
    if xs != [] {
      TailIn(xs);
      UniqueBag(xs[1..]);
      if xs[0] in xs[1..] {
        var k :| 0 <= k < |xs[1..]| && xs[1..][k] == xs[0];
        assert xs[k + 1] == xs[0] && multiset(xs)[xs[0]] >= 2;
      } else {
        assert forall k :: 0 < k < |xs| ==> xs[k] == xs[1..][k - 1];
        assert Unique(xs) <==> Unique(xs[1..]);
        assert multiset(xs)[xs[0]] == 1;
        assert forall x :: x != xs[0] ==> multiset(xs)[x] == multiset(xs[1..])[x];
      }
    }
  }

  // The sides of a choice, which may pass for the goal.
  ghost predicate SidesShaped(t: Table, c: nat, yes: Option<nat>, no: Option<nat>, sc: Shape, sa: Shape, sb: Shape, goal: Shape) {
    && HasShape(t, c, sc) && ChoiceShape(sc, sa, sb).Some? && Passes(ChoiceShape(sc, sa, sb).value, goal)
    && (yes.Some? ==> HasShape(t, yes.value, sa)) && (no.Some? ==> HasShape(t, no.value, sb))
  }

  // One side of a choice in shape.
  ghost predicate SideShaped(t: Table, c: nat, id: Option<nat>, sc: Shape, sa: Shape) {
    Shaped(t) && HasShape(t, c, sc) && FirmShape(sc) && AndShape(sc, sa).Some? && (id.Some? ==> HasShape(t, id.value, sa))
  }

  lemma {:induction false} SidesParts(t: Table, c: nat, yes: Option<nat>, no: Option<nat>, sc: Shape, sa: Shape, sb: Shape, goal: Shape)
    requires Shaped(t) && SidesShaped(t, c, yes, no, sc, sa, sb, goal)
    ensures FirmShape(sc) && HasShape(t, c, sc) && SideShaped(t, c, yes, sc, sa)
    ensures EitherPasses(SideOf(sc, sa), SideOf(PLAIN, sb), goal)
  {
    ChoicePasses(sc, sa, sb);
    hide HasShape, Passes, EitherPasses, SideOf;
    EitherPassesOn(SideOf(sc, sa), SideOf(PLAIN, sb), ChoiceShape(sc, sa, sb).value, goal);
  }

  // The second side is taken when the condition does not hold.
  lemma {:induction false} OtherSide(t: Table, t': Table, c: nat, yes: Option<nat>, no: Option<nat>, sc: Shape, sa: Shape, sb: Shape,
      goal: Shape, not: nat)
    requires SidesShaped(t, c, yes, no, sc, sa, sb, goal) && WellFormed(t) && WellFormed(t') && t <= t' && Shaped(t')
    requires HasShape(t', not, PLAIN)
    ensures SideShaped(t', not, no, PLAIN, sb)
  {
    ChoicePasses(sc, sa, sb);
    hide HasShape;
    if no.Some? { HasShapeExtends(t, t', no.value, sb); }
  }

  lemma {:induction false} SelectShaped(t: Table, entries: Entries, shapes: Shapes, i: Inst, c: nat,
      yes: Option<nat>, no: Option<nat>)
    requires EntriesShaped(t, entries, shapes) && i.Select? && InstShaped(shapes, i) && Find(entries, i.c) == At(c)
    requires (yes.Some? ==> Find(entries, i.a) == At(yes.value)) && (no.Some? ==> Find(entries, i.b) == At(no.value))
    ensures SidesShaped(t, c, yes, no, OperandShape(shapes, i.c), OperandShape(shapes, i.a), OperandShape(shapes, i.b),
      ShapeFor(shapes, i.x))
    ensures !NoNode(shapes, i)
  {
    hide EntriesShaped, HasShape, ChoiceShape, Passes;
    FlagOperand(t, entries, shapes, i.c, c);
    if yes.Some? { FlagOperand(t, entries, shapes, i.a, yes.value); }
    if no.Some? { FlagOperand(t, entries, shapes, i.b, no.value); }
  }

  lemma {:induction false} SidePasses(c: Shape, a: Shape)
    requires FirmShape(c) && AndShape(c, a).Some?
    ensures a.Condition?
    ensures Passes(AndShape(c, a).value, SideOf(c, a)) && Passes(c, SideOf(c, a))
  {
  }

  // Either of two conditions, or both joined, pass for a third.
  predicate EitherPasses(s: Shape, s2: Shape, goal: Shape) {
    OrShape(s, s2).Some? && Passes(OrShape(s, s2).value, goal) && Passes(s, goal) && Passes(s2, goal)
  }

  lemma {:induction false} ChoicePasses(c: Shape, a: Shape, b: Shape)
    requires ChoiceShape(c, a, b).Some?
    ensures AndShape(c, a).Some? && AndShape(PLAIN, b).Some?
    ensures EitherPasses(SideOf(c, a), SideOf(PLAIN, b), ChoiceShape(c, a, b).value)
  {
  }

  lemma {:induction false} EitherPassesOn(s: Shape, s2: Shape, goal: Shape, goal': Shape)
    requires EitherPasses(s, s2, goal) && Passes(goal, goal')
    ensures EitherPasses(s, s2, goal')
  {
    hide Passes, OrShape;
    PassesOn(OrShape(s, s2).value, goal, goal');
    PassesOn(s, goal, goal');
    PassesOn(s2, goal, goal');
  }

  // A constant one brings what its routes do.
  lemma {:induction false} RoutePasses(f: Func, shapes: Shapes, s: Shape)
    requires IncomingFits(RouteShape(f, shapes), s, PLAIN)
    ensures Passes(RouteShape(f, shapes), s)
  {
    hide BranchTotals;
    PassesOn(RouteShape(f, shapes), AndShape(RouteShape(f, shapes), PLAIN).value, s);
  }

  lemma {:induction false} InstInShape(t: Table, t': Table, entries: Entries, shapes: Shapes, exitsOr: seq<nat>,
      exitsAnd: seq<nat>,
                         i: Inst, r: Option<nat>, empty: bool)
    requires WellFormed(t) && WellFormed(t') && t <= t' && Shaped(t') && StateShaped(t, entries, shapes, exitsOr, exitsAnd)
    requires InstShaped(shapes, i) && (r.Some? ==> !NoNode(shapes, i) && HasShape(t', r.value, ShapeFor(shapes, i.x)))
    ensures StateShaped(t', if r.Some? || empty then entries[i.x := r] else entries, shapes, exitsOr, exitsAnd)
  {
    hide HasShape, Infer, Shaped, ExitsShaped;
    StateExtends(t, t', entries, shapes, exitsOr, exitsAnd);
    if r.Some? { EntryShaped(t', entries, shapes, i, r.value); }
  }

  // ---- routes, phis and exits ----

  lemma {:induction false} BlockOf(f: Func, shapes: Shapes, b: nat)
    requires FuncShaped(f, shapes) && b < |f|
    ensures BlockShaped(f, shapes, b)
  {
  }

  lemma {:induction false} BlockInsts(f: Func, shapes: Shapes, b: nat)
    requires FuncShaped(f, shapes) && b < |f|
    ensures forall i :: i in f[b].insts ==> InstShaped(shapes, i)
  {
    BlockOf(f, shapes, b);
    hide InstShaped, FuncShaped;
  }

  lemma {:induction false} BlockPhis(f: Func, shapes: Shapes, b: nat)
    requires FuncShaped(f, shapes) && b < |f|
    ensures forall p :: p in f[b].phis ==> PhiShaped(f, shapes, p) && f[0].term.CondBr?
  {
    BlockOf(f, shapes, b);
    hide PhiShaped, FuncShaped;
  }

  lemma {:induction false} StartShaped(t: Table, shapes: Shapes)
    requires Acyclic(t) && Arity(t) && Shaped(t)
    ensures StateShaped(t, map[], shapes, [], [])
  {
  }

  lemma {:induction false} StateParts(t: Table, entries: Entries, shapes: Shapes, exitsOr: seq<nat>, exitsAnd: seq<nat>)
    requires StateShaped(t, entries, shapes, exitsOr, exitsAnd)
    ensures Shaped(t) && EntriesShaped(t, entries, shapes) && ExitsShaped(t, exitsOr, exitsAnd)
  {
  }

  lemma {:induction false} OperandInShape(t: Table, entries: Entries, shapes: Shapes, exitsOr: seq<nat>,
      exitsAnd: seq<nat>, o: Operand, id: nat)
    requires WellFormed(t) && StateShaped(t, entries, shapes, exitsOr, exitsAnd) && IsFlag(o) && Find(entries, o) == At(id)
    ensures Shaped(t) && HasShape(t, id, OperandShape(shapes, o)) && OperandShape(shapes, o).Condition?
    ensures Joinable(t, id) && t[id].kind != Add && AllJoinable(t, [id]) && AndGuard(t, [id])
    ensures OperandShape(shapes, o).firm ==> Firm(t, id)
  {
    hide HasShape, Firm, Joinable, EntriesShaped;
    FlagOperand(t, entries, shapes, o, id);
    ConditionParts(t, id, OperandShape(shapes, o));
  }

  // A branch condition as a step of a route takes it.
  lemma {:induction false} ConditionInShape(f: Func, b: nat, t: Table, entries: Entries, shapes: Shapes,
      exitsOr: seq<nat>, exitsAnd: seq<nat>, n: nat)
    requires WellFormed(t) && StateShaped(t, entries, shapes, exitsOr, exitsAnd) && FuncShaped(f, shapes)
    requires b < |f| && f[b].term.CondBr? && Find(entries, f[b].term.c) == At(n)
    ensures Shaped(t) && HasShape(t, n, RouteShape(f, shapes)) && FirmShape(RouteShape(f, shapes))
  {
    assert BlockShaped(f, shapes, b);
    var s := OperandShape(shapes, f[b].term.c);
    OperandInShape(t, entries, shapes, exitsOr, exitsAnd, f[b].term.c, n);
    assert s.ns.totals <= BranchTotals(f, shapes) by {
      forall x | x in s.ns.totals ensures x in BranchTotals(f, shapes) { assert x in TotalsOf(OperandShape(shapes, f[b].term.c)); }
    }
    hide StateShaped, FuncShaped, BranchTotals;
    FirmBrings(t, n, s);
    NumbersWiden(t, n, Numbers(s.ns.totals, {}), RouteShape(f, shapes).ns);
    hide Firm, NumbersIn, Lossless, Joinable;
    ConditionShape(t, n, RouteShape(f, shapes)) by { ConditionParts(t, n, s); }
  }

  // What is firm brings totals only.
  lemma {:induction false} FirmBrings(t: Table, n: nat, s: Shape)
    requires WellFormed(t) && Shaped(t) && HasShape(t, n, s) && s.Condition? && s.firm
    ensures NumbersIn(t, n, Numbers(s.ns.totals, {}))
  {
    var ns := Numbers(s.ns.totals, {});
    forall a | a in Atoms(t, n) ensures a <= n && Brings(t, a, ns) {
      assert Brings(t, a, s.ns);
      if SumEq(t, a) && t[a].op1 != ALL_ONES {
        FirmOperand(t, a);
        assert t[a].children[0] in t[a].children;
        TalliedConditions(t, t[a].children[0]);
      }
    }
  }

  lemma {:induction false} RouteTwice(f: Func, shapes: Shapes)
    ensures AndShape(RouteShape(f, shapes), RouteShape(f, shapes)) == Some(RouteShape(f, shapes))
  {
    hide BranchTotals;
    var ns := RouteShape(f, shapes).ns;
    assert Both(ns, ns) == ns;
  }

  // A negated condition passes for any on a route.
  lemma {:induction false} PlainOnRoute(f: Func, shapes: Shapes, t: Table, n: nat)
    requires HasShape(t, n, PLAIN)
    ensures HasShape(t, n, RouteShape(f, shapes))
  {
    hide BranchTotals, HasShape;
    PassedShape(t, n, PLAIN, RouteShape(f, shapes));
  }

  lemma {:induction false} PhiInShape(t: Table, entries: Entries, shapes: Shapes, exitsOr: seq<nat>,
      exitsAnd: seq<nat>, x: Reg, ln: Option<nat>)
    requires StateShaped(t, entries, shapes, exitsOr, exitsAnd) && x.Flag? && ShapeFor(shapes, x).Condition?
    requires ln.Some? ==> HasShape(t, ln.value, ShapeFor(shapes, x))
    ensures StateShaped(t, entries[x := ln], shapes, exitsOr, exitsAnd)
  {
    hide HasShape, ExitsShaped, Shaped;
  }

  lemma {:induction false} ExitInShape(t: Table, t': Table, entries: Entries, shapes: Shapes, exitsOr: seq<nat>,
      exitsAnd: seq<nat>, n: nat)
    requires WellFormed(t) && WellFormed(t') && t <= t' && Shaped(t') && StateShaped(t, entries, shapes, exitsOr, exitsAnd)
    requires Joinable(t', n)
    ensures Lossless(t', n) ==> StateShaped(t', entries, shapes, exitsOr + [n], exitsAnd)
    ensures SumFree(t', n) ==> StateShaped(t', entries, shapes, exitsOr, exitsAnd + [n])
  {
    hide EntriesShaped, Shaped, Lossless, SumFree, Joinable;
    StateExtends(t, t', entries, shapes, exitsOr, exitsAnd);
  }

  lemma {:induction false} ExitsInShape(t: Table, exitsOr: seq<nat>, exitsAnd: seq<nat>)
    requires ExitsShaped(t, exitsOr, exitsAnd)
    ensures AllJoinable(t, exitsOr) && AllJoinable(t, exitsAnd) && In(t, exitsOr) && In(t, exitsAnd)
    ensures AllSumFree(t, exitsAnd) && AndGuard(t, exitsAnd) && forall i :: i in exitsOr ==> Lossless(t, i)
  {
    hide Lossless, SumFree;
    SumFreeGuard(t, exitsAnd);
  }

  lemma {:induction false} BranchesPrefix(f: Func, r: Route, k: nat)
    requires k < |r| && Branches(f, r[..k + 1])
    ensures Branches(f, r[..k]) || (r[k].block < |f| && f[r[k].block].term.CondBr?)
  {
    var j :| 0 <= j < k + 1 && r[..k + 1][j].block < |f| && f[r[..k + 1][j].block].term.CondBr?;
    if j < k { assert r[..k][j] == r[..k + 1][j]; }
  }

  // Every nonempty route passes the entry's branch.
  lemma {:induction false} RoutesBranch(f: Func, b: nat, all: seq<Route>)
    requires Closed(f) && f != [] && multiset(all) == multiset(Onward(f, 0, b, []))
    ensures f[0].term.CondBr? ==> forall r: Route :: r in all && r != [] ==> Branches(f, r)
  {
    if f[0].term.CondBr? {
      forall r: Route | r in all && r != [] ensures Branches(f, r) {
        assert r in multiset(Onward(f, 0, b, []));
        OnwardStarts(f, 0, b, []);
        assert r[0].block == 0;
      }
    }
  }

  lemma {:induction false} OnwardStarts(f: Func, curr: nat, end: nat, r: Route)
    requires Closed(f) && curr < |f| && Simple(f, r)
    ensures forall x: Route :: x in Onward(f, curr, end, r) && x != [] ==> x[0].block == if r == [] then curr else r[0].block
    decreases |f| - |r|
  {
    if curr == end || curr in Blocks(r) || f[curr].term.Ret? { return; }
    SimpleExtends(f, r, Step(curr, true));
    SimpleExtends(f, r, Step(curr, false));
    match f[curr].term
    case Br(s) =>
      assert s in Targets(f[curr].term);
      OnwardStarts(f, s, end, r + [Step(curr, true)]);
    case CondBr(_, s, t) =>
      assert s in Targets(f[curr].term) && t in Targets(f[curr].term);
      OnwardStarts(f, s, end, r + [Step(curr, true)]);
      OnwardStarts(f, t, end, r + [Step(curr, false)]);
  }
}

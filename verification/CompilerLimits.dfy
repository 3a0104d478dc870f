// Where the logical compiler does not keep the meaning, and where its printer fails.
module CompilerLimits {
  import opened Words
  import opened LogicalNodes
  import opened LogicalProgram
  import opened WrappedRanges
  import opened SumModifiers
  import opened NodeRules
  import opened NodeStore
  import opened ShapedTables
  import opened ShapedPrograms
  import opened CompilerRules
  import opened CompilerProof
  import opened SignaturePrinter
  import opened Routes
  import opened PhiRules
  import opened NodeEstimates
  import opened TakenPrograms

  // A constant on the left is swapped to the right without turning the predicate round: whatever the
  // constant, that is right for the two symmetric predicates and for no other.
  lemma {:induction false} SwappedCompare(p: Predicate, v: u32)
    requires Unsigned(p)
    ensures (forall a: u32 :: Compare(p, a, v) <==> Compare(p, v, a)) <==> p == EQ || p == NE
  {
    if p != EQ && p != NE {
      var other: u32 := if v == 0 then 1 else 0;
      assert !(Compare(p, other, v) <==> Compare(p, v, other));
    }
  }

  // ---- direct loads ----

  // Returns whether the value read is over three.
  function OverThree(at: Place): Func {
    [Block([], [Direct(Word(0), at), ICmp(Flag(0), UGT, Var(Word(0)), Const(3))], Ret(Var(Flag(0))))]
  }

  lemma {:induction false} ExecTwo(i: Inst, j: Inst, env: Env, input: Input)
    ensures var mid := env[i.x := EvalInst(i, env, input)]; ExecInsts([i, j], env, input) == mid[j.x := EvalInst(j, mid, input)]
  {
    var mid := env[i.x := EvalInst(i, env, input)];
    assert [i, j][1..] == [j] && [j][1..] == [];
    assert ExecInsts([j], mid, input) == ExecInsts([], mid[j.x := EvalInst(j, mid, input)], input);
  }

  lemma {:induction false} OverThreeRun(at: Place, input: Input)
    ensures Forward(OverThree(at))
    ensures Execute(OverThree(at), input).value == Bit((if at.MatchCounts? then Count(input.counts, 0) else input.elsewhere(Word(0))) > 3)
  {
    var b := OverThree(at)[0];
    var x: u32 := if at.MatchCounts? then Count(input.counts, 0) else input.elsewhere(Word(0));
    ExecTwo(b.insts[0], b.insts[1], map[], input);
    assert ExecBlock(b, 0, map[], input) == map[Word(0) := x][Flag(0) := Bit(x > 3)];
  }

  // The expression built for it, whatever it reads, is that the first match count is over three: right
  // exactly when it reads the match counts.
  lemma {:induction false} DirectLoadCompiles(at: Place, t: Table, r: nat)
    requires Acyclic(t) && Arity(t) && r < |t| && forall m: Counts :: Truth(t, r, m) <==> Count(m, 0) > 3
    ensures Compiles(OverThree(at), t, r) <==> at.MatchCounts?
  {
    hide Val, Execute;
    forall input: Input ensures Truth(t, r, input.counts) <==> Count(input.counts, 0) > 3 {}
    if at.MatchCounts? {
      forall input: Input ensures Truth(t, r, input.counts) <==> Execute(OverThree(at), input).value != 0 { OverThreeRun(at, input); }
      OverThreeRun(at, Input([], _ => 0));
    } else {
      var input := Input([], _ => 4);
      OverThreeRun(at, input);
      assert !(Truth(t, r, input.counts) <==> Execute(OverThree(at), input).value != 0);
    }
  }

  // ---- what is in shape ----

  // Whether count0 + off is below v, counted and compared with one.
  function CountedRange(off: u32, v: u32): seq<Inst> {
    [ Load(Word(0), 0), AddI(Word(1), Var(Word(0)), Const(off)), ICmp(Flag(0), ULT, Var(Word(1)), Const(v)),
      ZExt(Word(2), Var(Flag(0)), 1, 32), ICmp(Flag(1), EQ, Var(Word(2)), Const(1))]
  }

  // The function returning it is in shape exactly when the offset folds.
  lemma {:induction false} CountedRangeShaped(off: u32, v: u32)
    requires 0 < v < ALL_ONES
    ensures ShapedFunc([Block([], CountedRange(off, v), Ret(Var(Flag(1))))]) <==> LtFolds(off, v)
  {
    var f := [Block([], CountedRange(off, v), Ret(Var(Flag(1))))];
    if LtFolds(off, v) {
      forall i | i in f[0].insts ensures InstShaped(RangeShapes(off), i) {
        var k :| 0 <= k < 5 && f[0].insts[k] == i;
        RangeInstShaped(off, v, k);
      }
      hide InstShaped;
      assert BlockShaped(f, RangeShapes(off), 0);
      assert FuncShaped(f, RangeShapes(off));
    } else if shapes: Shapes :| FuncShaped(f, shapes) {
      RangeUnshaped(off, v, f, shapes);
    }
  }

  function RangeShapes(off: u32): Shapes {
    var once := Condition(Once, true, NO_NUMBERS);
    map[Word(0) := Subsig, Word(1) := AmountPlus(off), Flag(0) := once, Word(2) := Shape.Tally(1), Flag(1) := once]
  }

  lemma {:induction false} RangeInstShaped(off: u32, v: u32, k: nat)
    requires 0 < v < ALL_ONES && LtFolds(off, v) && k < 5
    ensures InstShaped(RangeShapes(off), CountedRange(off, v)[k])
  {
  }

  lemma {:induction false} RangeUnshaped(off: u32, v: u32, f: Func, shapes: Shapes)
    requires 0 < v < ALL_ONES && !LtFolds(off, v) && f == [Block([], CountedRange(off, v), Ret(Var(Flag(1))))]
    ensures !FuncShaped(f, shapes)
  {
    var insts := CountedRange(off, v);
    assert insts[0] in f[0].insts && insts[1] in f[0].insts && insts[2] in f[0].insts;
    if InstShaped(shapes, insts[0]) && InstShaped(shapes, insts[1]) {
      assert shapes[Word(1)] == AmountPlus(off);
      assert !InstShaped(shapes, insts[2]);
    }
    hide InstShaped;
    assert FuncShaped(f, shapes) ==> BlockShaped(f, shapes, 0);
  }

  // ---- a branch and a phi ----

  // return count0 > m && count1 > n; as it is usually lowered
  function BothAbove(m: u32, n: u32): Func {
    [ Block([], [Load(Word(0), 0), ICmp(Flag(0), UGT, Var(Word(0)), Const(m)), Load(Word(1), 1), ICmp(Flag(1), UGT, Var(Word(1)), Const(n))],
        CondBr(Var(Flag(0)), 1, 2)),
      Block([], [], Br(2)),
      Block([Phi(Flag(2), [Incoming(Var(Flag(1)), 1), Incoming(Const(0), 0)])], [], Ret(Var(Flag(2))))]
  }

  function BothEstimates(): Estimates { map[Word(0) := Estimate(Only(Match(0)), 2, None), Flag(0) := Estimate(Whole, 2, None)] }

  lemma {:induction false} BothDefs(f: Func)
    requires exists m: u32, n: u32 :: f == BothAbove(m, n)
    ensures Word(0) in DefsBefore(f, 1) && Flag(0) in DefsBefore(f, 1) && Flag(1) in DefsBefore(f, 2) && Flag(2) in DefsBefore(f, 3)
  {
    assert f[0].insts[0] in f[0].insts && f[0].insts[1] in f[0].insts && f[0].insts[3] in f[0].insts && f[2].phis[0] in f[2].phis;
    assert Word(0) in Defs(f[0]) && Flag(0) in Defs(f[0]) && Flag(1) in Defs(f[0]) && Flag(2) in Defs(f[2]);
  }

  lemma {:induction false} BothForward(m: u32, n: u32)
    ensures Forward(BothAbove(m, n))
  {
  }

  // The route through the second block.
  lemma {:induction false} BothRoute(f: Func)
    requires Forward(f) && |f| == 3 && f[0].term.CondBr? && f[0].term.yes == 1 && f[1].term == Br(2)
    ensures [Step(0, true), Step(1, true)] in Onward(f, 0, 2, [])
  {
    var r: Route := [Step(0, true), Step(1, true)];
    OnwardExact(f, 0, 2, []);
    hide Onward, Forward;
    assert r[0..] == r && r[1..] == [Step(1, true)] && r[1..][1..] == [];
    assert Walk(f, 2, 2, r[1..][1..]);
    assert Target(f, r[1]) == 2 && Target(f, r[0]) == 1;
    assert Walk(f, 1, 2, r[1..]);
    assert Walk(f, 0, 2, r);
  }

  lemma {:induction false} BothPhi(m: u32, n: u32)
    ensures PhiReady(BothAbove(m, n), 2, BothAbove(m, n)[2].phis[0])
  {
    var f := BothAbove(m, n);
    BothForward(m, n);
    BothRoute(f);
    BothDefs(f);
    hide Onward, Forward, DefsBefore;
    var r: Route := [Step(0, true), Step(1, true)];
    var p := f[2].phis[0];
    assert EndsIn(r, p.ins[0].block);
    assert EdgeCounts(p.ins[0], Onward(f, 0, 2, []));
  }

  // It is certain to be compiled.
  lemma {:induction false} BothTaken(m: u32, n: u32)
    ensures TakenFunc(BothAbove(m, n))
  {
    hide BothAbove, TakenBlock;
    var f := BothAbove(m, n);
    BothStart(m, n);
    BothRest(m, n);
    assert TakenBy(f, BothEstimates());
  }

  lemma {:induction false} BothStart(m: u32, n: u32)
    ensures TakenBlock(BothAbove(m, n), BothEstimates(), 0)
  {
    BothDefs(BothAbove(m, n));
    BothInsts(m, n);
    hide DefsBefore, InstReady, InstTaken, InstEstimate, Covers;
  }

  lemma {:induction false} BothRest(m: u32, n: u32)
    ensures |BothAbove(m, n)| == 3
    ensures TakenBlock(BothAbove(m, n), BothEstimates(), 1) && TakenBlock(BothAbove(m, n), BothEstimates(), 2)
  {
    BothDefs(BothAbove(m, n));
    BothPhi(m, n);
    hide DefsBefore, InstReady, InstTaken, InstEstimate, PhiReady;
  }

  lemma {:induction false} BothInsts(m: u32, n: u32)
    ensures var f, ests := BothAbove(m, n), BothEstimates();
      && (forall i :: i in f[0].insts ==> Covers(InstEstimate(ests, i), EstimateFor(ests, i.x)))
      && forall j :: 0 <= j < 4 ==>
           InstTaken(ests, f[0].insts[j]) && InstReady(f[0].insts[j], DefsBefore(f, 0) + PhiDefs(f[0].phis) + InstDefs(f[0].insts[..j]))
  {
    var f, ests := BothAbove(m, n), BothEstimates();
    var insts := f[0].insts;
    forall j | 0 <= j < 4
      ensures Covers(InstEstimate(ests, insts[j]), EstimateFor(ests, insts[j].x)) && InstTaken(ests, insts[j])
      ensures InstReady(insts[j], DefsBefore(f, 0) + PhiDefs(f[0].phis) + InstDefs(insts[..j]))
    {
      if j == 1 { assert insts[0] in insts[..1]; }
      if j == 3 { assert insts[2] in insts[..3] by { assert insts[..3][2] == insts[2]; } }
    }
  }

  // ---- several returns ----

  // if (count0 > 3) return 1; return count1 > 5;
  function TwoReturns(): Func {
    [ Block([], [Load(Word(0), 0), ICmp(Flag(0), UGT, Var(Word(0)), Const(3))], CondBr(Var(Flag(0)), 1, 2)),
      Block([], [], Ret(Const(1))),
      Block([], [Load(Word(1), 1), ICmp(Flag(1), UGT, Var(Word(1)), Const(5))], Ret(Var(Flag(1))))]
  }

  lemma {:induction false} TwoReturnsRun(input: Input)
    requires Count(input.counts, 0) > 3
    ensures Forward(TwoReturns()) && Execute(TwoReturns(), input).value == 1
  {
    var f, x := TwoReturns(), Count(input.counts, 0);
    ExecTwo(f[0].insts[0], f[0].insts[1], map[], input);
    assert ExecBlock(f[0], 0, map[], input) == map[Word(0) := x][Flag(0) := Bit(x > 3)];
  }

  lemma {:induction false} TwoReturnsValues(input: Input, env: Env)
    requires input.counts == [4, 0] && env == map[Word(0) := 4, Flag(0) := 1, Word(1) := 0, Flag(1) := 0]
    ensures AllComputed(TwoReturns(), env, input) && !JoinedReturns(TwoReturns(), env)
  {
    var f := TwoReturns();
    forall b, i | 0 <= b < |f| && i in f[b].insts ensures InstHolds(i, env, input) {}
    assert !SomeReturn(f, 3, env) && !ReturnsOne(f[2].term);
  }

  // Its exits are joined without the branch condition, so the root is the second return's value alone.
  lemma {:induction false} TwoReturnsMisread(t: Table, root: nat)
    requires MeansReturns(TwoReturns(), t, root)
    ensures Straight(TwoReturns()) && !Compiles(TwoReturns(), t, root)
  {
    var input := Input([4, 0], _ => 0);
    var env: Env := map[Word(0) := 4, Flag(0) := 1, Word(1) := 0, Flag(1) := 0];
    TwoReturnsValues(input, env);
    TwoReturnsRun(input);
    hide Val, Execute, AllComputed, JoinedReturns;
    assert !(Truth(t, root, input.counts) <==> Execute(TwoReturns(), input).value != 0);
  }

  // ---- the printer's failing case ----

  // Count plus constant compared with "above v": the offset itself is what comes back exactly when v is
  // zero, and it cannot be printed; anything else can, unless it is constant.
  method OffsetAbove(store: Store, i: nat, v: u32) returns (r: nat)
    requires store.Valid() && Shaped(store.table) && i < |store.table| && WordShape(store.table, i).AmountPlus?
    modifies store
    ensures store.Valid() && old(store.table) <= store.table && r < |store.table|
    ensures v == 0 ==> store.table[r].kind == Add && !Printable(store.table, r)
    ensures v != 0 && !Constant(store.table[r].kind) ==> Printable(store.table, r)
  {
    assert ShapedNode(store.table, store.table[i]);
    r := store.GetGT(i, v);
    if v != 0 && !Constant(store.table[r].kind) { ShapedPrintable(store.table, r); }
  }

  // A counted "below v" can be printed exactly when v is not zero: below zero is FALSE, counted all the same.
  method CountedBelow(store: Store, i: nat, v: u32) returns (r: nat)
    requires store.Valid() && Shaped(store.table) && i < |store.table| && CountKind(store.table[i].kind)
    modifies store
    ensures store.Valid() && old(store.table) <= store.table && r < |store.table| && store.table[r].kind == AddUniq
    ensures Printable(store.table, r) <==> v != 0
  {
    var c := store.GetLT(i, v);
    r := store.GetUniqueSigs(c);
    assert c in store.table[r].children;
    if v != 0 { ShapedPrintable(store.table, r); }
  }
}

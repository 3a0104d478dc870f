// Triggers that ask for a total and a number of different signatures at once, which become one =X,Y.
module MergedTriggers {
  import opened Words
  import opened LogicalNodes
  import opened LogicalProgram
  import opened SumModifiers
  import opened NodeRules
  import opened NodeStore
  import opened ShapedTables
  import opened ShapedPrograms
  import opened CompilerRules
  import opened CompilerProof
  import opened NodeEstimates
  import opened TakenPrograms

  const MAGIC: u32 := 0
  const ZERO: u32 := 1
  const CHECK: u32 := 2
  const FIVE_TO_TEN: u32 := 3

  // The counts added up, and each of them that is above zero counted.
  function Summed(): seq<Inst> {
    [ Load(Word(0), MAGIC), Load(Word(1), ZERO), Load(Word(2), FIVE_TO_TEN),
      AddI(Word(3), Var(Word(0)), Var(Word(1))), AddI(Word(4), Var(Word(3)), Var(Word(2)))]
  }

  function CountOne(w: nat, fl: nat, n: nat): seq<Inst> {
    [ICmp(Flag(fl), NE, Var(Word(w)), Const(0)), ZExt(Word(n), Var(Flag(fl)), 1, 32)]
  }

  function AddOnes(): seq<Inst> {
    [AddI(Word(8), Var(Word(5)), Var(Word(6))), AddI(Word(9), Var(Word(8)), Var(Word(7)))]
  }

  function Counted(): seq<Inst> { CountOne(0, 0, 5) + CountOne(1, 1, 6) + CountOne(2, 2, 7) + AddOnes() }

  // sum == x && unique == y
  function Asked(x: u32, y: u32): seq<Inst> {
    [ ICmp(Flag(3), EQ, Var(Word(4)), Const(x)), ICmp(Flag(4), EQ, Var(Word(9)), Const(y)),
      AndI(Flag(5), Var(Flag(3)), Var(Flag(4)))]
  }

  function Checked(z: u32): seq<Inst> {
    [ Load(Word(10), CHECK), ICmp(Flag(6), EQ, Var(Word(10)), Const(z)), OrI(Flag(7), Var(Flag(5)), Var(Flag(6)))]
  }

  function Merging(x: u32, y: u32): seq<Inst> { Summed() + Counted() + Asked(x, y) }

  function OneBlock(insts: seq<Inst>, n: nat): Func { [Block([], insts, Ret(Var(Flag(n))))] }

  // return sum == x && unique == y;
  function Trigger(x: u32, y: u32): Func { OneBlock(Merging(x, y), 5) }

  // return (sum == x && unique == y) || check == z;
  function CheckedTrigger(x: u32, y: u32, z: u32): Func { OneBlock(Merging(x, y) + Checked(z), 7) }

  // if (sum == x && unique == y) return true; return check == z; with one return.
  function BranchingTrigger(x: u32, y: u32, z: u32): Func {
    [ Block([], Merging(x, y), CondBr(Var(Flag(5)), 2, 1)),
      Block([], Checked(z)[..2], Br(2)),
      Block([Phi(Flag(7), [Incoming(Const(1), 0), Incoming(Var(Flag(6)), 1)])], [], Ret(Var(Flag(7))))]
  }

  // ---- what the triggers compute ----

  function TotalOf(m: Counts): u32 { Plus(Plus(Count(m, MAGIC), Count(m, ZERO)), Count(m, FIVE_TO_TEN)) }

  function DifferentOf(m: Counts): u32 {
    Bit(Count(m, MAGIC) != 0) + Bit(Count(m, ZERO) != 0) + Bit(Count(m, FIVE_TO_TEN) != 0)
  }

  lemma {:induction false} ExecAppend(a: seq<Inst>, b: seq<Inst>, env: Env, input: Input)
    ensures ExecInsts(a + b, env, input) == ExecInsts(b, ExecInsts(a, env, input), input)
  {
    if a == [] {
      assert a + b == b;
    } else {
      hide EvalInst;
      assert (a + b)[0] == a[0] && (a + b)[1..] == a[1..] + b;
      ExecAppend(a[1..], b, env[a[0].x := EvalInst(a[0], env, input)], input);
    }
  }

  // One instruction after another.
  lemma {:induction false} ExecSnoc(a: seq<Inst>, i: Inst, env: Env, input: Input)
    ensures var mid := ExecInsts(a, env, input); ExecInsts(a + [i], env, input) == mid[i.x := EvalInst(i, mid, input)]
  {
    hide EvalInst;
    ExecAppend(a, [i], env, input);
    assert [i][1..] == [];
  }

  // The values after the first k instructions.
  lemma {:induction false} ExecTo(insts: seq<Inst>, k: nat, env: Env, input: Input)
    requires k < |insts|
    ensures var mid := ExecInsts(insts[..k], env, input);
      ExecInsts(insts[..k + 1], env, input) == mid[insts[k].x := EvalInst(insts[k], mid, input)]
  {
    assert insts[..k + 1] == insts[..k] + [insts[k]];
    ExecSnoc(insts[..k], insts[k], env, input);
  }

  lemma {:induction false} SummedRun(env: Env, input: Input)
    ensures var end := ExecInsts(Summed(), env, input);
      && {Word(0), Word(1), Word(2), Word(4)} <= end.Keys
      && end[Word(0)] == Count(input.counts, MAGIC) && end[Word(1)] == Count(input.counts, ZERO)
      && end[Word(2)] == Count(input.counts, FIVE_TO_TEN) && end[Word(4)] == TotalOf(input.counts)
  {
    var s := Summed();
    assert s[..0] == [] && s[..5] == s;
    forall k | 0 <= k < 5
      ensures ExecInsts(s[..k + 1], env, input)
           == ExecInsts(s[..k], env, input)[s[k].x := EvalInst(s[k], ExecInsts(s[..k], env, input), input)]
    {
      ExecTo(s, k, env, input);
    }
    assert s[..0 + 1] == s[..1] && s[..1 + 1] == s[..2] && s[..2 + 1] == s[..3] && s[..3 + 1] == s[..4] && s[..4 + 1] == s[..5];
    hide ExecInsts;
  }

  // A compared count, counted: the other values stay.
  lemma {:induction false} CountedStep(env: Env, input: Input, w: nat, fl: nat, n: nat)
    requires Word(w) in env
    ensures ExecInsts(CountOne(w, fl, n), env, input)
         == env[Flag(fl) := Bit(env[Word(w)] != 0)][Word(n) := Bit(env[Word(w)] != 0)]
  {
    var i, j := ICmp(Flag(fl), NE, Var(Word(w)), Const(0)), ZExt(Word(n), Var(Flag(fl)), 1, 32);
    assert [i, j] == [i] + [j] && [i] == [] + [i];
    ExecSnoc([i], j, env, input);
    ExecSnoc([], i, env, input);
  }

  lemma {:induction false} AddedRun(env: Env, input: Input)
    requires {Word(5), Word(6), Word(7)} <= env.Keys
    ensures ExecInsts(AddOnes(), env, input)
         == env[Word(8) := Plus(env[Word(5)], env[Word(6)])][Word(9) := Plus(Plus(env[Word(5)], env[Word(6)]), env[Word(7)])]
  {
    var i, j := AddOnes()[0], AddOnes()[1];
    assert [i, j] == [i] + [j] && [i] == [] + [i];
    ExecSnoc([i], j, env, input);
    ExecSnoc([], i, env, input);
  }

  lemma {:induction false} CountedRun(env: Env, input: Input)
    requires {Word(0), Word(1), Word(2), Word(4)} <= env.Keys
    ensures var end := ExecInsts(Counted(), env, input);
      && {Word(4), Word(9)} <= end.Keys && end[Word(4)] == env[Word(4)]
      && end[Word(9)] == Bit(env[Word(0)] != 0) + Bit(env[Word(1)] != 0) + Bit(env[Word(2)] != 0)
  {
    hide ExecInsts, CountOne, AddOnes;
    CountedStep(env, input, 0, 0, 5);
    var e1 := ExecInsts(CountOne(0, 0, 5), env, input);
    CountedStep(e1, input, 1, 1, 6);
    var e2 := ExecInsts(CountOne(1, 1, 6), e1, input);
    CountedStep(e2, input, 2, 2, 7);
    var e3 := ExecInsts(CountOne(2, 2, 7), e2, input);
    AddedRun(e3, input);
    ExecAppend(CountOne(0, 0, 5), CountOne(1, 1, 6), env, input);
    ExecAppend(CountOne(0, 0, 5) + CountOne(1, 1, 6), CountOne(2, 2, 7), env, input);
    ExecAppend(CountOne(0, 0, 5) + CountOne(1, 1, 6) + CountOne(2, 2, 7), AddOnes(), env, input);
  }

  lemma {:induction false} AskedRun(x: u32, y: u32, env: Env, input: Input)
    requires {Word(4), Word(9)} <= env.Keys
    ensures var end := ExecInsts(Asked(x, y), env, input);
      Flag(5) in end && end[Flag(5)] == Bit(env[Word(4)] == x && env[Word(9)] == y)
  {
    var s := Asked(x, y);
    assert s == [s[0], s[1]] + [s[2]] && [s[0], s[1]] == [s[0]] + [s[1]] && [s[0]] == [] + [s[0]];
    ExecSnoc([s[0], s[1]], s[2], env, input);
    ExecSnoc([s[0]], s[1], env, input);
    ExecSnoc([], s[0], env, input);
  }

  lemma {:induction false} MergingRun(x: u32, y: u32, env: Env, input: Input)
    ensures var end := ExecInsts(Merging(x, y), env, input);
      Flag(5) in end && end[Flag(5)] == Bit(TotalOf(input.counts) == x && DifferentOf(input.counts) == y)
  {
    var e1 := ExecInsts(Summed(), env, input);
    var e2 := ExecInsts(Counted(), e1, input);
    SummedRun(env, input);
    CountedRun(e1, input);
    AskedRun(x, y, e2, input);
    hide ExecInsts, Summed, Counted, Asked;
    ExecAppend(Summed() + Counted(), Asked(x, y), env, input);
    ExecAppend(Summed(), Counted(), env, input);
  }

  lemma {:induction false} TriggerRun(x: u32, y: u32, input: Input)
    ensures Forward(Trigger(x, y))
    ensures Execute(Trigger(x, y), input).value == Bit(TotalOf(input.counts) == x && DifferentOf(input.counts) == y)
  {
    var f := Trigger(x, y);
    MergingRun(x, y, map[], input);
    hide ExecInsts, Merging;
    assert ExecBlock(f[0], 0, map[], input) == ExecInsts(Merging(x, y), map[], input);
  }

  // With the check besides.
  predicate Asks(m: Counts, x: u32, y: u32, z: u32) { (TotalOf(m) == x && DifferentOf(m) == y) || Count(m, CHECK) == z }

  lemma {:induction false} CheckRun(z: u32, env: Env, input: Input)
    requires Flag(5) in env
    ensures var end := ExecInsts(Checked(z), env, input);
      Flag(7) in end && end[Flag(7)] == Bit(env[Flag(5)] != 0 || Count(input.counts, CHECK) == z)
  {
    var s := Checked(z);
    assert s == [s[0], s[1]] + [s[2]] && [s[0], s[1]] == [s[0]] + [s[1]] && [s[0]] == [] + [s[0]];
    ExecSnoc([s[0], s[1]], s[2], env, input);
    ExecSnoc([s[0]], s[1], env, input);
    ExecSnoc([], s[0], env, input);
  }

  lemma {:induction false} CheckedTriggerRun(x: u32, y: u32, z: u32, input: Input)
    ensures Forward(CheckedTrigger(x, y, z))
    ensures Execute(CheckedTrigger(x, y, z), input).value == Bit(Asks(input.counts, x, y, z))
  {
    var f := CheckedTrigger(x, y, z);
    MergingRun(x, y, map[], input);
    CheckRun(z, ExecInsts(Merging(x, y), map[], input), input);
    ExecAppend(Merging(x, y), Checked(z), map[], input);
    hide ExecInsts, Merging, Checked, TotalOf, DifferentOf;
    assert ExecBlock(f[0], 0, map[], input) == ExecInsts(Merging(x, y) + Checked(z), map[], input);
  }

  // ---- the merged equality ----

  // Entry c is the sum over the three signatures.
  ghost predicate SumOfThree(t: Table, c: nat) {
    && c < |t| && t[c].kind == AddBoth && |t[c].children| == 3
    && (forall k :: 0 <= k < 3 ==> t[c].children[k] < |t|)
    && t[t[c].children[0]] == Plain(SubSignature, MAGIC, [])
    && t[t[c].children[1]] == Plain(SubSignature, ZERO, [])
    && t[t[c].children[2]] == Plain(SubSignature, FIVE_TO_TEN, [])
  }

  lemma {:induction false} ThreeTotal(vs: seq<nat>)
    requires |vs| == 3
    ensures Sum(vs) == vs[0] + vs[1] + vs[2]
    ensures Nonzero(vs) == Bit(vs[0] != 0) + Bit(vs[1] != 0) + Bit(vs[2] != 0)
  {
    assert vs[1..][0] == vs[1] && vs[1..][1..][0] == vs[2] && vs[1..][1..][1..] == [];
    assert Sum(vs[1..]) == vs[1] + Sum(vs[1..][1..]) && Sum(vs[1..][1..]) == vs[2];
    assert Nonzero(vs[1..]) == Bit(vs[1] != 0) + Nonzero(vs[1..][1..]) && Nonzero(vs[1..][1..]) == Bit(vs[2] != 0);
  }

  lemma {:induction false} ThreeMeans(t: Table, c: nat, m: Counts)
    requires Acyclic(t) && Arity(t) && SumOfThree(t, c)
    ensures Val(t, c, m) == TotalOf(m) && Different(t, c, m) == DifferentOf(m)
  {
    var cs := t[c].children;
    assert cs[0] in cs && cs[1] in cs && cs[2] in cs;
    var vs: seq<nat> := Vals(t, cs, c, m);
    assert vs[0] == Count(m, MAGIC) && vs[1] == Count(m, ZERO) && vs[2] == Count(m, FIVE_TO_TEN);
    ThreeTotal(vs);
    WrapPlus(vs[0] + vs[1], vs[2]);
    WrapPlus(vs[0], vs[1]);
  }

  lemma {:induction false} ThreePlain(t: Table, c: nat)
    requires Acyclic(t) && SumOfThree(t, c)
    ensures PlainCounts(t, c)
  {
    var cs := t[c].children;
    forall d | d in cs ensures d < c && t[d] == Plain(SubSignature, t[d].op0, []) {
      var k :| 0 <= k < 3 && cs[k] == d;
    }
  }

  // What sum == x && unique == y becomes says so exactly when the two numbers differ, or none or more
  // than three different matches are asked for.
  lemma {:induction false} TriggerExact(x: u32, y: u32, t: Table, root: nat, c: nat)
    requires WellFormed(t) && root < |t| && t[root] == Node(Eq, x, y, [c]) && SumOfThree(t, c) && y != ALL_ONES
    ensures Compiles(Trigger(x, y), t, root) <==> x != y || y == 0 || y > 3
  {
    ThreePlain(t, c);
    SomeTerms(t, c);
    KeepsTotalExact(t, c, x);
    assert KeepsTotal(t, c, x) <==> x == 0 || x > 3;
    forall m: Counts ensures Val(t, c, m) == TotalOf(m) && Different(t, c, m) == DifferentOf(m) { ThreeMeans(t, c, m); }
    forall m: Counts ensures Truth(t, root, m) <==> DifferentOf(m) == y && (x != y ==> TotalOf(m) == x) {
      SumEqTruth(t, root, m);
      ThreeMeans(t, c, m);
    }
    hide KeepsTotal;
    hide Val, Different, Execute, TotalOf, DifferentOf, Trigger, PlainCounts, Conditions, SumOfThree;
    forall input: Input ensures Execute(Trigger(x, y), input).value == Bit(TotalOf(input.counts) == x && DifferentOf(input.counts) == y) {
      TriggerRun(x, y, input);
    }
    if x == y && 0 < y <= 3 {
      var m: Counts :| Different(t, c, m) == x && Val(t, c, m) != x;
      var input := Input(m, _ => 0);
      assert Truth(t, root, input.counts) && Execute(Trigger(x, y), input).value == 0;
    } else {
      TriggerRun(x, y, Input([], _ => 0));
    }
  }

  // ---- what is in shape ----

  function MergingShapes(x: u32, y: u32): Shapes {
    var bare, ns := Condition(Bare, true, NO_NUMBERS), if 0 < y <= 3 then {y} else {};
    map[ Word(0) := Subsig, Word(1) := Subsig, Word(2) := Subsig, Word(3) := Amount, Word(4) := Amount,
         Flag(0) := bare, Flag(1) := bare, Flag(2) := bare,
         Word(5) := Mixed(1), Word(6) := Mixed(1), Word(7) := Mixed(1), Word(8) := Mixed(2), Word(9) := Mixed(3),
         Flag(3) := Condition(Once, true, Numbers({x}, {})), Flag(4) := Condition(Once, false, Numbers({}, ns)),
         Flag(5) := Condition(Once, false, Numbers({x}, ns)),
         Word(10) := Subsig, Flag(6) := Condition(Once, true, NO_NUMBERS), Flag(7) := Condition(Open, false, Numbers({x}, ns))]
  }

  predicate Exactly(x: u32, y: u32) { y != ALL_ONES && (x != y || y == 0 || y > 3) }

  lemma {:induction false} SummedShaped(x: u32, y: u32, k: nat)
    requires k < 5
    ensures InstShaped(MergingShapes(x, y), Summed()[k])
  {
  }

  lemma {:induction false} CountedShaped(x: u32, y: u32, k: nat)
    requires k < 3
    ensures InstShaped(MergingShapes(x, y), CountOne(k, k, k + 5)[0])
    ensures InstShaped(MergingShapes(x, y), CountOne(k, k, k + 5)[1])
  {
  }

  lemma {:induction false} AddedShaped(x: u32, y: u32, k: nat)
    requires k < 2
    ensures InstShaped(MergingShapes(x, y), AddOnes()[k])
  {
  }

  lemma {:induction false} CountOneSize(w: nat, fl: nat, n: nat)
    ensures |CountOne(w, fl, n)| == 2 && |AddOnes()| == 2
  {
  }

  lemma {:induction false} OneOfTwo(s: seq<Inst>, i: Inst)
    requires i in s && |s| == 2
    ensures i == s[0] || i == s[1]
  {
  }

  lemma {:induction false} AskedShaped(x: u32, y: u32, k: nat)
    requires Exactly(x, y) && k < 3
    ensures InstShaped(MergingShapes(x, y), Asked(x, y)[k])
  {
  }

  lemma {:induction false} CheckedShaped(x: u32, y: u32, z: u32, k: nat)
    requires k < 3
    ensures InstShaped(MergingShapes(x, y), Checked(z)[k])
  {
  }

  lemma {:induction false} MergingShaped(x: u32, y: u32, z: u32, i: Inst)
    requires Exactly(x, y) && i in Merging(x, y) + Checked(z)
    ensures InstShaped(MergingShapes(x, y), i)
  {
    hide InstShaped, MergingShapes, CountOne, AddOnes;
    if i in Summed() {
      var k :| 0 <= k < 5 && Summed()[k] == i;
      SummedShaped(x, y, k);
    } else if i in Counted() {
      if i in CountOne(0, 0, 5) || i in CountOne(1, 1, 6) || i in CountOne(2, 2, 7) {
        var k: nat := if i in CountOne(0, 0, 5) then 0 else if i in CountOne(1, 1, 6) then 1 else 2;
        assert i in CountOne(k, k, k + 5);
        assert |CountOne(k, k, k + 5)| == 2 by { CountOneSize(k, k, k + 5); }
        OneOfTwo(CountOne(k, k, k + 5), i);
        CountedShaped(x, y, k);
      } else {
        var k: nat :| k < |AddOnes()| && AddOnes()[k] == i;
        assert |AddOnes()| == 2 by { CountOneSize(0, 0, 5); }
        AddedShaped(x, y, k);
      }
    } else if i in Asked(x, y) {
      var k :| 0 <= k < 3 && Asked(x, y)[k] == i;
      AskedShaped(x, y, k);
    } else {
      var k :| 0 <= k < 3 && Checked(z)[k] == i;
      CheckedShaped(x, y, z, k);
    }
  }

  // The trigger, alone or with another condition besides, is in shape exactly when merging is exact.
  lemma {:induction false} TriggerShaped(x: u32, y: u32, z: u32)
    ensures ShapedFunc(Trigger(x, y)) <==> Exactly(x, y)
    ensures ShapedFunc(CheckedTrigger(x, y, z)) <==> Exactly(x, y)
  {
    if Exactly(x, y) {
      forall i | i in Merging(x, y) + Checked(z) ensures InstShaped(MergingShapes(x, y), i) { MergingShaped(x, y, z, i); }
      hide InstShaped, Merging, Checked, MergingShapes;
      assert BlockShaped(Trigger(x, y), MergingShapes(x, y), 0) && BlockShaped(CheckedTrigger(x, y, z), MergingShapes(x, y), 0);
      assert FuncShaped(Trigger(x, y), MergingShapes(x, y)) && FuncShaped(CheckedTrigger(x, y, z), MergingShapes(x, y));
    } else {
      forall f: Func, shapes: Shapes | f == Trigger(x, y) || f == CheckedTrigger(x, y, z) ensures !FuncShaped(f, shapes) {
        if FuncShaped(f, shapes) {
          assert BlockShaped(f, shapes, 0);
          forall i | i in Merging(x, y) ensures InstShaped(shapes, i) { assert i in f[0].insts; }
          MergingUnshaped(x, y, shapes);
        }
      }
    }
  }

  lemma {:induction false} SummedShapes(x: u32, y: u32, shapes: Shapes)
    requires forall i :: i in Merging(x, y) ==> InstShaped(shapes, i)
    ensures Word(4) in shapes && shapes[Word(4)] == Amount
  {
    var s := Summed();
    assert s[0] in Merging(x, y) && s[1] in Merging(x, y) && s[2] in Merging(x, y) && s[3] in Merging(x, y) && s[4] in Merging(x, y);
    assert InstShaped(shapes, s[0]) && InstShaped(shapes, s[1]) && InstShaped(shapes, s[2]);
    assert AmountShape(shapes[Word(0)]) && AmountShape(shapes[Word(1)]) && AmountShape(shapes[Word(2)]);
    assert InstShaped(shapes, s[3]);
    assert InstShaped(shapes, s[4]);
  }

  // A counted match count is a number of one term.
  lemma {:induction false} CountedShapes(shapes: Shapes, w: nat, fl: nat, n: nat)
    requires Word(w) in shapes && AmountShape(shapes[Word(w)]) && forall i :: i in CountOne(w, fl, n) ==> InstShaped(shapes, i)
    ensures Word(n) in shapes && shapes[Word(n)] == Mixed(1)
  {
    var s := CountOne(w, fl, n);
    assert s[0] in s && s[1] in s;
    assert InstShaped(shapes, s[0]) && InstShaped(shapes, s[1]);
  }

  lemma {:induction false} LoadedShapes(x: u32, y: u32, shapes: Shapes, k: nat)
    requires (forall i :: i in Merging(x, y) ==> InstShaped(shapes, i)) && k < 3
    ensures Word(k) in shapes && AmountShape(shapes[Word(k)])
  {
    assert Summed()[k] in Merging(x, y);
    assert InstShaped(shapes, Summed()[k]);
  }

  lemma {:induction false} AddedShapes(shapes: Shapes)
    requires forall i :: i in AddOnes() ==> InstShaped(shapes, i)
    requires forall k :: 5 <= k < 8 ==> Word(k) in shapes && shapes[Word(k)] == Mixed(1)
    ensures Word(9) in shapes && shapes[Word(9)] == Mixed(3)
  {
    var s := AddOnes();
    assert s[0] in s && s[1] in s;
    assert InstShaped(shapes, s[0]);
    assert InstShaped(shapes, s[1]);
  }

  lemma {:induction false} NumberShapes(x: u32, y: u32, shapes: Shapes)
    requires forall i :: i in Merging(x, y) ==> InstShaped(shapes, i)
    ensures Word(9) in shapes && shapes[Word(9)] == Mixed(3)
  {
    hide InstShaped, CountOne, AddOnes, Summed, Asked;
    LoadedShapes(x, y, shapes, 0);
    LoadedShapes(x, y, shapes, 1);
    LoadedShapes(x, y, shapes, 2);
    assert forall i :: i in Counted() ==> i in Merging(x, y);
    CountedShapes(shapes, 0, 0, 5);
    CountedShapes(shapes, 1, 1, 6);
    CountedShapes(shapes, 2, 2, 7);
    AddedShapes(shapes);
  }

  lemma {:induction false} MergingUnshaped(x: u32, y: u32, shapes: Shapes)
    requires forall i :: i in Merging(x, y) ==> InstShaped(shapes, i)
    ensures Exactly(x, y)
  {
    SummedShapes(x, y, shapes);
    NumberShapes(x, y, shapes);
    var s := Asked(x, y);
    assert s[0] in Merging(x, y) && s[1] in Merging(x, y) && s[2] in Merging(x, y);
    assert InstShaped(shapes, s[0]) && InstShaped(shapes, s[1]) && InstShaped(shapes, s[2]);
    var a, b := shapes[Flag(3)], shapes[Flag(4)];
    assert x in a.ns.totals;
    assert y != ALL_ONES && (0 < y <= 3 ==> y in b.ns.uniqs);
    assert Apart(a.ns, b.ns);
  }

  // ---- the triggers are in the supported fragment ----

  // Each value is new and used after its definition; have are the values already there.
  predicate Ordered(insts: seq<Inst>, have: set<Reg>) {
    insts == [] ||
    (InstReady(insts[0], have) && insts[0].x !in have && Fragment(insts[0]) && Ordered(insts[1..], have + {insts[0].x}))
  }

  function Gained(insts: seq<Inst>, have: set<Reg>): set<Reg> {
    if insts == [] then have else Gained(insts[1..], have + {insts[0].x})
  }

  lemma {:induction false} OrderedAppend(a: seq<Inst>, b: seq<Inst>, have: set<Reg>)
    requires Ordered(a, have) && Ordered(b, Gained(a, have))
    ensures Ordered(a + b, have) && Gained(a + b, have) == Gained(b, Gained(a, have))
  {
    if a == [] {
      assert a + b == b;
    } else {
      hide InstReady, Fragment;
      assert (a + b)[0] == a[0] && (a + b)[1..] == a[1..] + b;
      OrderedAppend(a[1..], b, have + {a[0].x});
    }
  }

  lemma {:induction false} OrderedNew(insts: seq<Inst>, have: set<Reg>)
    requires Ordered(insts, have)
    ensures forall i :: i in insts ==> i.x !in have && Fragment(i)
  {
    if insts != [] {
      hide Fragment, InstReady;
      TailIn(insts);
      OrderedNew(insts[1..], have + {insts[0].x});
    }
  }

  lemma {:induction false} OrderedDistinct(insts: seq<Inst>, have: set<Reg>)
    requires Ordered(insts, have)
    ensures forall i, j :: 0 <= i < j < |insts| ==> insts[i].x != insts[j].x
  {
    if insts != [] {
      hide Fragment, InstReady;
      var rest := insts[1..];
      OrderedNew(rest, have + {insts[0].x});
      OrderedDistinct(rest, have + {insts[0].x});
      forall i, j | 0 <= i < j < |insts| ensures insts[i].x != insts[j].x {
        assert insts[j] == rest[j - 1] && insts[j] in rest;
        if i > 0 { assert insts[i] == rest[i - 1]; }
      }
    }
  }

  lemma {:induction false} OrderedReady(insts: seq<Inst>, have: set<Reg>, j: nat)
    requires Ordered(insts, have) && j < |insts|
    ensures InstReady(insts[j], have + InstDefs(insts[..j]))
  {
    hide Fragment, InstReady, InstDefs;
    if j == 0 {
      assert have + InstDefs(insts[..0]) == have by { NoDefs(insts); }
    } else {
      var rest, more := insts[1..], have + {insts[0].x};
      OrderedReady(rest, more, j - 1);
      assert insts[..j][1..] == rest[..j - 1];
      InstDefsHead(insts[..j]);
      assert have + InstDefs(insts[..j]) == more + InstDefs(rest[..j - 1]);
    }
  }

  lemma {:induction false} NoDefs(insts: seq<Inst>)
    ensures InstDefs(insts[..0]) == {}
  {
  }

  lemma {:induction false} GainedDefs(insts: seq<Inst>, have: set<Reg>)
    ensures Gained(insts, have) == have + InstDefs(insts)
  {
    if insts != [] {
      hide InstDefs;
      InstDefsHead(insts);
      GainedDefs(insts[1..], have + {insts[0].x});
    } else {
      NoDefs(insts);
    }
  }

  lemma {:induction false} OneBlockReady(insts: seq<Inst>, n: nat)
    requires Ordered(insts, {}) && Flag(n) in Gained(insts, {})
    ensures BlockReady(OneBlock(insts, n), [], 0)
  {
    GainedDefs(insts, {});
    hide InstReady, Ordered, Gained;
    var f := OneBlock(insts, n);
    forall j | 0 <= j < |insts| ensures InstReady(insts[j], Avail(f, []) + PhiDefs([]) + InstDefs(insts[..j])) {
      OrderedReady(insts, {}, j);
      assert Avail(f, []) + PhiDefs([]) + InstDefs(insts[..j]) == {} + InstDefs(insts[..j]);
    }
    assert Flag(n) in Avail(f, []) + Defs(f[0]);
  }

  // One block of ordered instructions that returns one of their values.
  lemma {:induction false} OneBlockSupported(insts: seq<Inst>, n: nat)
    requires Ordered(insts, {}) && Flag(n) in Gained(insts, {})
    ensures Supported(OneBlock(insts, n))
  {
    var f := OneBlock(insts, n);
    OrderedNew(insts, {});
    OrderedDistinct(insts, {});
    OneBlockReady(insts, n);
    assert SingleDefs(f) && Forward(f);
    hide Fragment, Ordered, Gained, BlockReady, IsPath, SingleDefs, Forward;
    forall path: seq<nat>, b: nat | IsPath(f, path + [b]) ensures Within(f, path, b) && BlockReady(f, path, b) {
      OneBlockPath(f, path, b);
    }
    hide UsesFollowDefs;
  }

  lemma {:induction false} PathContinues(f: Func, path: seq<nat>)
    requires IsPath(f, path) && |path| > 1
    ensures path[0] == 0 && 0 < |f| && !f[0].term.Ret?
  {
    assert path[0] in path && path[0 + 1] in Targets(f[path[0]].term);
  }

  lemma {:induction false} OneBlockPath(f: Func, path: seq<nat>, b: nat)
    requires |f| == 1 && f[0].term.Ret? && IsPath(f, path + [b])
    ensures path == [] && b == 0
  {
    hide IsPath;
    if path != [] { PathContinues(f, path + [b]); }
    OnePath(f, path + [b]);
    assert b in path + [b];
  }

  lemma {:induction false} OnePath(f: Func, path: seq<nat>)
    requires IsPath(f, path)
    ensures forall b :: b in path ==> b < |f|
  {
  }

  lemma {:induction false} OrderedOne(i: Inst, have: set<Reg>)
    requires InstReady(i, have) && i.x !in have && Fragment(i)
    ensures Ordered([i], have) && Gained([i], have) == have + {i.x}
  {
    assert [i][1..] == [];
  }

  lemma {:induction false} OrderedSnoc(insts: seq<Inst>, k: nat, have: set<Reg>)
    requires k < |insts| && Ordered(insts[..k], have) && InstReady(insts[k], Gained(insts[..k], have))
    requires insts[k].x !in Gained(insts[..k], have) && Fragment(insts[k])
    ensures Ordered(insts[..k + 1], have) && Gained(insts[..k + 1], have) == Gained(insts[..k], have) + {insts[k].x}
  {
    hide Fragment, InstReady;
    OrderedOne(insts[k], Gained(insts[..k], have));
    OrderedAppend(insts[..k], [insts[k]], have);
    assert insts[..k + 1] == insts[..k] + [insts[k]];
  }

  lemma {:induction false} SummedOrdered()
    ensures Ordered(Summed(), {}) && Gained(Summed(), {}) == {Word(0), Word(1), Word(2), Word(3), Word(4)}
  {
    var s := Summed();
    assert Ordered(s[..0], {}) && Gained(s[..0], {}) == {};
    hide Ordered, Gained;
    OrderedSnoc(s, 0, {});
    OrderedSnoc(s, 1, {});
    OrderedSnoc(s, 2, {});
    OrderedSnoc(s, 3, {});
    OrderedSnoc(s, 4, {});
    assert s[..5] == s;
  }

  lemma {:induction false} CountOneOrdered(w: nat, fl: nat, n: nat, have: set<Reg>)
    requires Word(w) in have && Flag(fl) !in have && Word(n) !in have
    ensures Ordered(CountOne(w, fl, n), have) && Gained(CountOne(w, fl, n), have) == have + {Flag(fl), Word(n)}
  {
    var s := CountOne(w, fl, n);
    assert Ordered(s[..0], have) && Gained(s[..0], have) == have;
    hide Ordered, Gained;
    OrderedSnoc(s, 0, have);
    OrderedSnoc(s, 1, have);
    assert s[..2] == s;
  }

  lemma {:induction false} AddOnesOrdered(have: set<Reg>)
    requires {Word(5), Word(6), Word(7)} <= have && Word(8) !in have && Word(9) !in have
    ensures Ordered(AddOnes(), have) && Gained(AddOnes(), have) == have + {Word(8), Word(9)}
  {
    var s := AddOnes();
    assert Ordered(s[..0], have) && Gained(s[..0], have) == have;
    hide Ordered, Gained;
    OrderedSnoc(s, 0, have);
    OrderedSnoc(s, 1, have);
    assert s[..2] == s;
  }

  lemma {:induction false} CountedOrdered(have: set<Reg>)
    requires have == {Word(0), Word(1), Word(2), Word(3), Word(4)}
    ensures Ordered(Counted(), have)
    ensures Gained(Counted(), have) == have + {Flag(0), Word(5), Flag(1), Word(6), Flag(2), Word(7), Word(8), Word(9)}
  {
    hide Ordered, Gained, CountOne, AddOnes;
    var a, b, c, d := CountOne(0, 0, 5), CountOne(1, 1, 6), CountOne(2, 2, 7), AddOnes();
    CountOneOrdered(0, 0, 5, have);
    CountOneOrdered(1, 1, 6, Gained(a, have));
    OrderedAppend(a, b, have);
    CountOneOrdered(2, 2, 7, Gained(a + b, have));
    OrderedAppend(a + b, c, have);
    AddOnesOrdered(Gained(a + b + c, have));
    OrderedAppend(a + b + c, d, have);
  }

  lemma {:induction false} AskedOrdered(x: u32, y: u32, have: set<Reg>)
    requires {Word(4), Word(9)} <= have && Flag(3) !in have && Flag(4) !in have && Flag(5) !in have
    ensures Ordered(Asked(x, y), have) && Gained(Asked(x, y), have) == have + {Flag(3), Flag(4), Flag(5)}
  {
    var s := Asked(x, y);
    assert Ordered(s[..0], have) && Gained(s[..0], have) == have;
    hide Ordered, Gained;
    OrderedSnoc(s, 0, have);
    OrderedSnoc(s, 1, have);
    OrderedSnoc(s, 2, have);
    assert s[..3] == s;
  }

  lemma {:induction false} CheckedOrdered(z: u32, have: set<Reg>)
    requires Flag(5) in have && Word(10) !in have && Flag(6) !in have && Flag(7) !in have
    ensures Ordered(Checked(z), have) && Gained(Checked(z), have) == have + {Word(10), Flag(6), Flag(7)}
  {
    var s := Checked(z);
    assert Ordered(s[..0], have) && Gained(s[..0], have) == have;
    hide Ordered, Gained;
    OrderedSnoc(s, 0, have);
    OrderedSnoc(s, 1, have);
    OrderedSnoc(s, 2, have);
    assert s[..3] == s;
  }

  lemma {:induction false} MergingOrdered(x: u32, y: u32)
    ensures Ordered(Merging(x, y), {}) && Flag(5) in Gained(Merging(x, y), {})
    ensures Word(10) !in Gained(Merging(x, y), {}) && Flag(6) !in Gained(Merging(x, y), {}) && Flag(7) !in Gained(Merging(x, y), {})
  {
    hide Ordered, Gained, Summed, Counted, Asked;
    var a, b, c := Summed(), Counted(), Asked(x, y);
    SummedOrdered();
    CountedOrdered(Gained(a, {}));
    OrderedAppend(a, b, {});
    AskedOrdered(x, y, Gained(a + b, {}));
    OrderedAppend(a + b, c, {});
  }

  lemma {:induction false} TriggerSupported(x: u32, y: u32, z: u32)
    ensures Supported(Trigger(x, y)) && Supported(CheckedTrigger(x, y, z))
  {
    hide Ordered, Gained, Merging, Checked, Supported;
    MergingOrdered(x, y);
    OneBlockSupported(Merging(x, y), 5);
    CheckedOrdered(z, Gained(Merging(x, y), {}));
    OrderedAppend(Merging(x, y), Checked(z), {});
    OneBlockSupported(Merging(x, y) + Checked(z), 7);
  }

  // ---- the same trigger with a branch ----

  // Match counts with the total x, a number of different matches that is not y, and z of the check.
  function Told(x: u32, y: u32, z: u32): Counts {
    var first, second: u32 :=
      if x == 0 then (if y == 0 then 0x8000_0000 else 0) else if y != 1 then x else if x == 1 then ALL_ONES else 1,
      if x == 0 then (if y == 0 then 0x8000_0000 else 0) else if y != 1 then 0 else if x == 1 then 2 else x - 1;
    [first, second, z, 0]
  }

  lemma {:induction false} ToldApart(x: u32, y: u32, z: u32)
    ensures TotalOf(Told(x, y, z)) == x && DifferentOf(Told(x, y, z)) != y && Count(Told(x, y, z), CHECK) == z
  {
  }

  lemma {:induction false} CheckedRun(z: u32, env: Env, input: Input)
    ensures var end := ExecInsts(Checked(z)[..2], env, input); Flag(6) in end && end[Flag(6)] == Bit(Count(input.counts, CHECK) == z)
  {
    var i, j := Checked(z)[0], Checked(z)[1];
    assert Checked(z)[..2] == [i] + [j] && [i] == [] + [i];
    ExecSnoc([i], j, env, input);
    ExecSnoc([], i, env, input);
  }

  // Where the merged condition fails and the check matches, the function returns true.
  lemma {:induction false} BranchingRun(x: u32, y: u32, z: u32, input: Input)
    requires TotalOf(input.counts) == x && DifferentOf(input.counts) != y && Count(input.counts, CHECK) == z
    ensures Forward(BranchingTrigger(x, y, z)) && Execute(BranchingTrigger(x, y, z), input).value == 1
  {
    var f := BranchingTrigger(x, y, z);
    MergingRun(x, y, map[], input);
    var e0 := ExecInsts(Merging(x, y), map[], input);
    CheckedRun(z, e0, input);
    var e1 := ExecInsts(Checked(z)[..2], e0, input);
    hide Merging, Checked, TotalOf, DifferentOf;
    var e2 := e1[Flag(7) := e1[Flag(6)]];
    PhiRun(f[2].phis[0], e1);
    assert ExecBlock(f[0], 0, map[], input) == e0 && Next(f[0].term, e0) == 1;
    assert ExecBlock(f[1], 0, e0, input) == e1;
    assert ExecBlock(f[2], 1, e1, input) == e2;
    assert RunFrom(f, input, 2, [0, 1], e1).value == 1;
    assert [0] + [1] == [0, 1] && [] + [0] == [0];
    assert RunFrom(f, input, 1, [0], e0) == RunFrom(f, input, 2, [0, 1], e1);
  }

  lemma {:induction false} PhiRun(p: Phi, env: Env)
    requires p == Phi(Flag(7), [Incoming(Const(1), 0), Incoming(Var(Flag(6)), 1)]) && Flag(6) in env
    ensures EnterPhis([p], 1, env, env) == env[Flag(7) := env[Flag(6)]]
  {
    assert [p][1..] == [] && p.ins[1..][0] == p.ins[1];
    assert Chosen(p.ins, 1) == p.ins[1].value;
  }

  // The second way into the last block is guarded by the negation of the merged equality, which says only
  // that the total is not x. Whatever the three numbers, the disjunction built is not the function's result.
  method BranchingMisread(store: Store, x: u32, y: u32, z: u32, e: nat, c: nat, check: nat, k: nat) returns (root: nat)
    requires store.Valid() && e < |store.table| && store.table[e] == Node(Eq, x, y, [c]) && SumOfThree(store.table, c) && y != ALL_ONES
    requires check < |store.table| && store.table[check] == Plain(SubSignature, CHECK, [])
    requires k < |store.table| && store.table[k] == Plain(Eq, z, [check])
    modifies store
    ensures store.Valid() && old(store.table) <= store.table && root < |store.table|
    ensures !Compiles(BranchingTrigger(x, y, z), store.table, root)
  {
    hide Val, Canonical, Different, Conjoins, Disjoins, Implied, ValueDiffers, Execute, BranchingTrigger, TotalOf, DifferentOf, Told;
    hide Shaped, Joinable, AllJoinable, Firm, AllFirm, Lossless, NumbersIn, AllNumbersIn, Joins, NoOffsets, OnlyTerm, OneTerm;
    hide SumFree, AllSumFree, AndGuard, EqualityBounds, Negatable, NotGuard, Negates, ZeroCount, SumOfThree, Acyclic, Arity;
    ghost var t0, m := store.table, Told(x, y, z);
    ToldApart(x, y, z);
    MergedFalse(t0, x, y, e, c, m);
    assert EqualityBounds(t0, e) by { SumBounds(t0, e, c); }
    var not := store.GetNot(e);
    ghost var t1 := store.table;
    NotTold(t1, not.value, c, x, m) by { ThreeExtends(t0, t1, c); }
    CheckGuard(t1, not.value, k, check);
    var both := store.GetAnd([not.value, k]);
    ghost var t2 := store.table;
    JoinedFalse(t1, t2, not.value, k, both, m);
    root := store.GetOr([e, both]);
    EitherFalse(t0, t2, store.table, e, both, root, m);
    BranchingRun(x, y, z, Input(m, _ => 0));
    assert Input(m, _ => 0).counts == m;
  }

  lemma {:induction false} MergedFalse(t: Table, x: u32, y: u32, e: nat, c: nat, m: Counts)
    requires Acyclic(t) && Arity(t) && e < |t| && t[e] == Node(Eq, x, y, [c]) && SumOfThree(t, c) && y != ALL_ONES
    requires DifferentOf(m) != y
    ensures !Truth(t, e, m)
  {
    SumEqTruth(t, e, m);
    ThreeMeans(t, c, m);
  }

  lemma {:induction false} SumBounds(t: Table, e: nat, c: nat)
    requires Acyclic(t) && Arity(t) && e < |t| && t[e].kind == Eq && t[e].children == [c] && SumOfThree(t, c)
    ensures EqualityBounds(t, e)
  {
  }

  lemma {:induction false} ThreeExtends(t: Table, t': Table, c: nat)
    requires Acyclic(t) && t <= t' && SumOfThree(t, c)
    ensures SumOfThree(t', c)
  {
  }

  lemma {:induction false} NotTold(t: Table, n: nat, c: nat, x: u32, m: Counts)
    requires Acyclic(t) && Arity(t) && n < |t| && SumOfThree(t, c) && ValueDiffers(t, n, c, x) && TotalOf(m) == x
    ensures !Truth(t, n, m)
  {
    ThreeMeans(t, c, m);
  }

  lemma {:induction false} CheckSumFree(t: Table, k: nat, check: nat)
    requires Acyclic(t) && k < |t| && check < |t| && t[k].kind == Eq && t[k].children == [check] && t[check].kind == SubSignature
    ensures SumFree(t, k)
  {
  }

  lemma {:induction false} CheckGuard(t: Table, n: nat, k: nat, check: nat)
    requires Acyclic(t) && Arity(t) && n < |t| && SumFree(t, n)
    requires k < |t| && check < |t| && t[k].kind == Eq && t[k].children == [check] && t[check].kind == SubSignature
    ensures In(t, [n, k]) && AndGuard(t, [n, k])
  {
    CheckSumFree(t, k, check);
    SumFreeGuard(t, [n, k]);
  }

  lemma {:induction false} JoinedFalse(t: Table, t': Table, n: nat, k: nat, r: nat, m: Counts)
    requires WellFormed(t) && WellFormed(t') && t <= t' && n < |t| && k < |t| && r < |t'| && Conjoins(t', r, [n, k]) && !Truth(t, n, m)
    ensures !Truth(t', r, m)
  {
    hide Val;
    ValExtends(t, t', n, m);
    assert n in [n, k];
  }

  lemma {:induction false} EitherFalse(t0: Table, t2: Table, t: Table, e: nat, b: nat, r: nat, m: Counts)
    requires WellFormed(t0) && WellFormed(t2) && WellFormed(t) && t0 <= t2 <= t && e < |t0| && b < |t2| && r < |t|
    requires Disjoins(t, r, [e, b]) && !Truth(t0, e, m) && !Truth(t2, b, m)
    ensures !Truth(t, r, m)
  {
    hide Val;
    ValExtends(t0, t, e, m);
    ValExtends(t2, t, b, m);
    assert forall i :: i in [e, b] ==> !Truth(t, i, m);
  }

  // ---- the trigger is taken ----

  const THREE: set<Piece> := {Match(MAGIC), Match(ZERO), Match(FIVE_TO_TEN)}

  function TriggerEstimates(): Estimates {
    var m, z, n := Only(Match(MAGIC)), Only(Match(ZERO)), Only(Match(FIVE_TO_TEN));
    map[ Word(0) := Estimate(m, 2, Some(1)), Word(1) := Estimate(z, 2, Some(1)), Word(2) := Estimate(n, 2, Some(1)),
         Word(3) := Estimate(Totals({Match(MAGIC), Match(ZERO)}), 0, Some(3)), Word(4) := Estimate(Totals(THREE), 0, Some(5)),
         Flag(0) := Estimate(m, 2, Some(1)), Flag(1) := Estimate(z, 2, Some(1)), Flag(2) := Estimate(n, 2, Some(1)),
         Word(5) := Estimate(Tallies({Match(MAGIC)}), 0, Some(2)), Word(6) := Estimate(Tallies({Match(ZERO)}), 0, Some(2)),
         Word(7) := Estimate(Tallies({Match(FIVE_TO_TEN)}), 0, Some(2)),
         Word(8) := Estimate(Tallies({Match(MAGIC), Match(ZERO)}), 0, Some(5)), Word(9) := Estimate(Tallies(THREE), 0, Some(8)),
         Flag(3) := Estimate(Whole, 1, Some(6)), Flag(4) := Estimate(Whole, 1, Some(9)), Flag(5) := Estimate(Whole, 1, Some(16)),
         Word(10) := Estimate(Only(Match(CHECK)), 2, Some(1)), Flag(6) := Estimate(Whole, 2, Some(2)),
         Flag(7) := Estimate(Loose, 0, Some(19))]
  }

  predicate KnownAs(i: Inst) {
    InstTaken(TriggerEstimates(), i) && Covers(InstEstimate(TriggerEstimates(), i), EstimateFor(TriggerEstimates(), i.x))
  }

  lemma {:induction false} SummedKnown(k: nat)
    requires k < 5
    ensures KnownAs(Summed()[k])
  {
  }

  lemma {:induction false} CountedKnown(k: nat)
    requires k < 3
    ensures KnownAs(CountOne(k, k, k + 5)[0]) && KnownAs(CountOne(k, k, k + 5)[1])
  {
  }

  lemma {:induction false} AddedKnown(k: nat)
    requires k < 2
    ensures KnownAs(AddOnes()[k])
  {
  }

  lemma {:induction false} AskedKnown(x: u32, y: u32, k: nat)
    requires k < 3
    ensures KnownAs(Asked(x, y)[k])
  {
  }

  lemma {:induction false} CheckedKnown(z: u32, k: nat)
    requires k < 3
    ensures KnownAs(Checked(z)[k])
  {
  }

  lemma {:induction false} MergingKnown(x: u32, y: u32, z: u32, i: Inst)
    requires i in Merging(x, y) + Checked(z)
    ensures KnownAs(i)
  {
    hide KnownAs, CountOne, AddOnes;
    if i in Summed() {
      var k :| 0 <= k < 5 && Summed()[k] == i;
      SummedKnown(k);
    } else if i in Counted() {
      if i in CountOne(0, 0, 5) || i in CountOne(1, 1, 6) || i in CountOne(2, 2, 7) {
        var k: nat := if i in CountOne(0, 0, 5) then 0 else if i in CountOne(1, 1, 6) then 1 else 2;
        assert i in CountOne(k, k, k + 5);
        assert |CountOne(k, k, k + 5)| == 2 by { CountOneSize(k, k, k + 5); }
        OneOfTwo(CountOne(k, k, k + 5), i);
        CountedKnown(k);
      } else {
        var k: nat :| k < |AddOnes()| && AddOnes()[k] == i;
        assert |AddOnes()| == 2 by { CountOneSize(0, 0, 5); }
        AddedKnown(k);
      }
    } else if i in Asked(x, y) {
      var k :| 0 <= k < 3 && Asked(x, y)[k] == i;
      AskedKnown(x, y, k);
    } else {
      var k :| 0 <= k < 3 && Checked(z)[k] == i;
      CheckedKnown(z, k);
    }
  }

  lemma {:induction false} OneBlockTaken(insts: seq<Inst>, n: nat, ests: Estimates)
    requires Ordered(insts, {}) && Flag(n) in Gained(insts, {})
    requires forall i :: i in insts ==> InstTaken(ests, i) && Covers(InstEstimate(ests, i), EstimateFor(ests, i.x))
    ensures TakenBy(OneBlock(insts, n), ests)
  {
    GainedDefs(insts, {});
    hide InstReady, Ordered, Gained, InstTaken, Covers, InstEstimate;
    var f := OneBlock(insts, n);
    forall j | 0 <= j < |insts| ensures InstReady(insts[j], DefsBefore(f, 0) + PhiDefs([]) + InstDefs(insts[..j])) {
      OrderedReady(insts, {}, j);
      assert DefsBefore(f, 0) + PhiDefs([]) + InstDefs(insts[..j]) == {} + InstDefs(insts[..j]);
    }
    assert Flag(n) in Defs(f[0]) && Flag(n) in DefsBefore(f, 1);
    assert TakenBlock(f, ests, 0);
  }

  lemma {:induction false} TriggerKnown(x: u32, y: u32, z: u32)
    ensures TakenBy(CheckedTrigger(x, y, z), TriggerEstimates())
  {
    forall i | i in Merging(x, y) + Checked(z) ensures KnownAs(i) { MergingKnown(x, y, z, i); }
    hide Ordered, Gained, Merging, Checked, InstTaken, Covers, InstEstimate, EstimateFor, TriggerEstimates, TakenBy;
    MergingOrdered(x, y);
    CheckedOrdered(z, Gained(Merging(x, y), {}));
    OrderedAppend(Merging(x, y), Checked(z), {});
    OneBlockTaken(Merging(x, y) + Checked(z), 7, TriggerEstimates());
  }

  // Whatever the numbers, the trigger compiles, and what it compiles to is small.
  lemma {:induction false} TriggerTaken(x: u32, y: u32, z: u32, room: nat)
    requires room >= 23
    ensures TakenWithin(CheckedTrigger(x, y, z), room) && TakenFunc(CheckedTrigger(x, y, z))
  {
    assert ReturnRoom(TriggerEstimates(), Ret(Var(Flag(7)))) == Some(20);
    hide Merging, Checked, TriggerEstimates, TakenBy, ReturnRoom;
    TriggerKnown(x, y, z);
    var f := CheckedTrigger(x, y, z);
    assert RoomBefore(f, TriggerEstimates(), 0) == Some(0);
    assert RoomBefore(f, TriggerEstimates(), 1) == Some(20);
  }
}

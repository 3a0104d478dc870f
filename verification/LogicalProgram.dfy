// The functions a logical signature is compiled from: loop-free SSA code over match counts.
module LogicalProgram {
  import opened Words
  import opened LogicalNodes

  // A value of type i1 or i32; the type is part of the name.
  datatype Reg = Flag(n: nat) | Word(n: nat)

  datatype Operand = Const(v: u32) | Var(x: Reg)

  datatype Predicate = EQ | NE | UGT | UGE | ULT | ULE | SGT | SGE | SLT | SLE

  datatype Inst =
    | Load(x: Reg, sig: u32)                      // a match count
    | Direct(x: Reg, at: Place)                   // a load whose address is no constant expression
    | Foreign(x: Reg)                             // a load from any other constant expression
    | ICmp(x: Reg, p: Predicate, a: Operand, b: Operand)
    | AddI(x: Reg, a: Operand, b: Operand)
    | AndI(x: Reg, a: Operand, b: Operand)
    | OrI(x: Reg, a: Operand, b: Operand)
    | XorI(x: Reg, a: Operand, b: Operand)
    | ZExt(x: Reg, a: Operand, from: nat, to: nat)
    | Select(x: Reg, c: Operand, a: Operand, b: Operand)

  // Where a direct load reads: the match counts themselves, or any other variable, argument or address.
  datatype Place = MatchCounts | Elsewhere

  datatype Incoming = Incoming(value: Operand, block: nat)

  datatype Phi = Phi(x: Reg, ins: seq<Incoming>)

  datatype Term = Br(to: nat) | CondBr(c: Operand, yes: nat, no: nat) | Ret(v: Operand)

  datatype Block = Block(phis: seq<Phi>, insts: seq<Inst>, term: Term)

  // Block 0 is the entry; the list is the layout order.
  type Func = seq<Block>

  // What a run depends on: the match counts, and whatever the other loads read.
  datatype Input = Input(counts: Counts, elsewhere: Reg -> u32)

  type Env = map<Reg, u32>

  function Targets(t: Term): seq<nat> {
    match t
    case Br(s) => [s]
    case CondBr(_, yes, no) => [yes, no]
    case Ret(_) => []
  }

  predicate Closed(f: Func) {
    forall b :: 0 <= b < |f| ==> forall s :: s in Targets(f[b].term) ==> s < |f|
  }

  // Laid out in topological order, hence without loops.
  predicate Forward(f: Func) {
    f != [] && Closed(f) && forall b :: 0 <= b < |f| ==> forall s :: s in Targets(f[b].term) ==> b < s
  }

  // ---- running ----

  function Eval(o: Operand, env: Env): u32 {
    match o
    case Const(v) => v
    case Var(x) => if x in env then env[x] else 0
  }

  function Signed(v: u32): int { if v < 0x8000_0000 then v else v - TWO32 }

  predicate Compare(p: Predicate, a: u32, b: u32) {
    match p
    case EQ => a == b
    case NE => a != b
    case UGT => a > b
    case UGE => a >= b
    case ULT => a < b
    case ULE => a <= b
    case SGT => Signed(a) > Signed(b)
    case SGE => Signed(a) >= Signed(b)
    case SLT => Signed(a) < Signed(b)
    case SLE => Signed(a) <= Signed(b)
  }

  function EvalInst(i: Inst, env: Env, input: Input): u32 {
    match i
    case Load(_, sig) => Count(input.counts, sig)
    case Direct(x, at) => if at.MatchCounts? then Count(input.counts, 0) else input.elsewhere(x)
    case Foreign(x) => input.elsewhere(x)
    case ICmp(_, p, a, b) => Bit(Compare(p, Eval(a, env), Eval(b, env)))
    case AddI(_, a, b) => Plus(Eval(a, env), Eval(b, env))
    case AndI(_, a, b) => Bit(Eval(a, env) != 0 && Eval(b, env) != 0)
    case OrI(_, a, b) => Bit(Eval(a, env) != 0 || Eval(b, env) != 0)
    case XorI(_, a, b) => Bit((Eval(a, env) != 0) != (Eval(b, env) != 0))
    case ZExt(_, a, _, _) => Bit(Eval(a, env) != 0)
    case Select(_, c, a, b) => if Eval(c, env) != 0 then Eval(a, env) else Eval(b, env)
  }

  // The operand a phi selects on entry from block prev.
  function Chosen(ins: seq<Incoming>, prev: nat): Operand {
    if ins == [] then Const(0) else if ins[0].block == prev then ins[0].value else Chosen(ins[1..], prev)
  }

  // Phis read the values at the end of the previous block, all at once.
  function EnterPhis(phis: seq<Phi>, prev: nat, before: Env, env: Env): Env {
    if phis == [] then env
    else EnterPhis(phis[1..], prev, before, env[phis[0].x := Eval(Chosen(phis[0].ins, prev), before)])
  }

  function ExecInsts(insts: seq<Inst>, env: Env, input: Input): Env {
    if insts == [] then env
    else ExecInsts(insts[1..], env[insts[0].x := EvalInst(insts[0], env, input)], input)
  }

  function ExecBlock(b: Block, prev: nat, env: Env, input: Input): Env {
    ExecInsts(b.insts, EnterPhis(b.phis, prev, env, env), input)
  }

  function Next(t: Term, env: Env): nat
    requires !t.Ret?
  {
    match t
    case Br(s) => s
    case CondBr(c, yes, no) => if Eval(c, env) != 0 then yes else no
  }

  datatype Run = Run(path: seq<nat>, env: Env, value: u32)

  function Last(path: seq<nat>): nat { if path == [] then 0 else path[|path| - 1] }

  // Continue a run into block b.
  function RunFrom(f: Func, input: Input, b: nat, path: seq<nat>, env: Env): Run
    requires Forward(f) && b < |f|
    decreases |f| - b
  {
    var after := ExecBlock(f[b], Last(path), env, input);
    if f[b].term.Ret? then Run(path + [b], after, Eval(f[b].term.v, after))
    else
      assert Next(f[b].term, after) in Targets(f[b].term);
      RunFrom(f, input, Next(f[b].term, after), path + [b], after)
  }

  function Execute(f: Func, input: Input): Run
    requires Forward(f)
  {
    RunFrom(f, input, 0, [], map[])
  }

  // ---- SSA form ----

  function PhiDefs(phis: seq<Phi>): set<Reg> { set p | p in phis :: p.x }

  function InstDefs(insts: seq<Inst>): set<Reg> { set i | i in insts :: i.x }

  function Defs(b: Block): set<Reg> { PhiDefs(b.phis) + InstDefs(b.insts) }

  function Avail(f: Func, path: seq<nat>): set<Reg>
    requires forall b :: b in path ==> b < |f|
  {
    set b, x | b in path && x in Defs(f[b]) :: x
  }

  predicate Ready(o: Operand, have: set<Reg>) { o.Var? ==> o.x in have }

  function Uses(i: Inst): seq<Operand> {
    match i
    case Load(_, _) => []
    case Direct(_, _) => []
    case Foreign(_) => []
    case ICmp(_, _, a, b) => [a, b]
    case AddI(_, a, b) => [a, b]
    case AndI(_, a, b) => [a, b]
    case OrI(_, a, b) => [a, b]
    case XorI(_, a, b) => [a, b]
    case ZExt(_, a, _, _) => [a]
    case Select(_, c, a, b) => [c, a, b]
  }

  predicate InstReady(i: Inst, have: set<Reg>) { forall o :: o in Uses(i) ==> Ready(o, have) }

  predicate TermReady(t: Term, have: set<Reg>) {
    match t
    case Br(_) => true
    case CondBr(c, _, _) => Ready(c, have)
    case Ret(v) => Ready(v, have)
  }

  ghost predicate IsPath(f: Func, path: seq<nat>) {
    && path != [] && path[0] == 0
    && (forall b :: b in path ==> b < |f|)
    && forall k :: 0 <= k < |path| - 1 ==> path[k] < |f| && path[k + 1] in Targets(f[path[k]].term)
  }

  // Each value has one definition.
  ghost predicate SingleDefs(f: Func) {
    && (forall b :: 0 <= b < |f| ==>
         && (forall i, j :: 0 <= i < j < |f[b].phis| ==> f[b].phis[i].x != f[b].phis[j].x)
         && (forall i, j :: 0 <= i < j < |f[b].insts| ==> f[b].insts[i].x != f[b].insts[j].x)
         && PhiDefs(f[b].phis) !! InstDefs(f[b].insts))
    && forall a, b :: 0 <= a < b < |f| ==> Defs(f[a]) !! Defs(f[b])
  }

  // On every path from the entry each use follows its definition; a phi uses its operand at the end
  // of the incoming block. This is dominance, said of paths.
  ghost predicate UsesFollowDefs(f: Func) {
    forall path, b :: IsPath(f, path + [b]) ==> Within(f, path, b) && BlockReady(f, path, b)
  }

  ghost predicate Within(f: Func, path: seq<nat>, b: nat) { b < |f| && forall c :: c in path ==> c < |f| }

  ghost predicate BlockReady(f: Func, path: seq<nat>, b: nat)
    requires Within(f, path, b)
  {
    && (path != [] ==> forall p :: p in f[b].phis ==> Ready(Chosen(p.ins, Last(path)), Avail(f, path)))
    && (forall j :: 0 <= j < |f[b].insts| ==>
         InstReady(f[b].insts[j], Avail(f, path) + PhiDefs(f[b].phis) + InstDefs(f[b].insts[..j])))
    && TermReady(f[b].term, Avail(f, path) + Defs(f[b]))
  }

  ghost predicate SSA(f: Func) {
    f != [] && f[0].phis == [] && SingleDefs(f) && UsesFollowDefs(f)
  }

  // ---- what holds of a finished run ----

  ghost predicate InstHolds(i: Inst, env: Env, input: Input) {
    i.x in env && InstReady(i, env.Keys) && env[i.x] == EvalInst(i, env, input)
  }

  ghost predicate PhiHolds(p: Phi, prev: nat, env: Env) {
    p.x in env && Ready(Chosen(p.ins, prev), env.Keys) && env[p.x] == Eval(Chosen(p.ins, prev), env)
  }

  ghost predicate BlockHolds(b: Block, prev: nat, env: Env, input: Input) {
    && (forall p :: p in b.phis ==> PhiHolds(p, prev, env))
    && (forall i :: i in b.insts ==> InstHolds(i, env, input))
    && TermReady(b.term, env.Keys)
  }

  // Every equation of the visited blocks holds of the values env.
  ghost predicate Solved(f: Func, path: seq<nat>, env: Env, input: Input) {
    && (forall b :: b in path ==> b < |f|)
    && env.Keys == Avail(f, path)
    && forall k :: 0 <= k < |path| ==> path[k] < |f| && BlockHolds(f[path[k]], Last(path[..k]), env, input)
  }

  ghost predicate Extends(env: Env, env': Env) {
    env.Keys <= env'.Keys && forall x :: x in env ==> env'[x] == env[x]
  }

  lemma {:induction false} BlockHoldsExtends(b: Block, prev: nat, env: Env, env': Env, input: Input)
    requires BlockHolds(b, prev, env, input) && Extends(env, env')
    ensures BlockHolds(b, prev, env', input)
  {
    forall i | i in b.insts ensures InstHolds(i, env', input) {
      assert InstHolds(i, env, input);
      forall o | o in Uses(i) ensures Ready(o, env'.Keys) && Eval(o, env') == Eval(o, env) { assert Ready(o, env.Keys); }
      EvalSame(i, env, env', input);
    }
    forall p | p in b.phis ensures PhiHolds(p, prev, env') { assert PhiHolds(p, prev, env); }
  }

  lemma {:induction false} EvalSame(i: Inst, env: Env, env': Env, input: Input)
    requires forall o :: o in Uses(i) ==> Eval(o, env') == Eval(o, env)
    ensures EvalInst(i, env', input) == EvalInst(i, env, input)
  {
    match i {
      case Select(_, c, a, b) => assert c in Uses(i) && a in Uses(i) && b in Uses(i);
      case ICmp(_, _, a, b) => assert a in Uses(i) && b in Uses(i);
      case AddI(_, a, b) => assert a in Uses(i) && b in Uses(i);
      case AndI(_, a, b) => assert a in Uses(i) && b in Uses(i);
      case OrI(_, a, b) => assert a in Uses(i) && b in Uses(i);
      case XorI(_, a, b) => assert a in Uses(i) && b in Uses(i);
      case ZExt(_, a, _, _) => assert a in Uses(i);
      case Load(_, _) =>
      case Direct(_, _) =>
      case Foreign(_) =>
    }
  }

  lemma {:induction false} RestReady(insts: seq<Inst>, have: set<Reg>)
    requires insts != []
    requires forall j :: 0 <= j < |insts| ==> InstReady(insts[j], have + InstDefs(insts[..j]))
    ensures forall j :: 0 <= j < |insts[1..]| ==>
      InstReady(insts[1..][j], have + {insts[0].x} + InstDefs(insts[1..][..j]))
  {
    var rest := insts[1..];
    forall j | 0 <= j < |rest| ensures InstReady(rest[j], have + {insts[0].x} + InstDefs(rest[..j])) {
      assert rest[j] == insts[j + 1] && insts[..j + 1] == [insts[0]] + rest[..j];
      assert InstDefs(insts[..j + 1]) == {insts[0].x} + InstDefs(rest[..j]);
      assert InstReady(insts[j + 1], have + InstDefs(insts[..j + 1]));
      assert have + InstDefs(insts[..j + 1]) == have + {insts[0].x} + InstDefs(rest[..j]);
    }
  }

  lemma {:induction false} ExecInstsHold(insts: seq<Inst>, env: Env, input: Input)
    requires forall i, j :: 0 <= i < j < |insts| ==> insts[i].x != insts[j].x
    requires InstDefs(insts) !! env.Keys
    requires forall j :: 0 <= j < |insts| ==> InstReady(insts[j], env.Keys + InstDefs(insts[..j]))
    ensures var env' := ExecInsts(insts, env, input);
      && Extends(env, env') && env'.Keys == env.Keys + InstDefs(insts)
      && forall i :: i in insts ==> InstHolds(i, env', input)
  {
    if insts != [] {
      hide EvalInst, Uses, InstHolds, InstReady, InstDefs;
      var i, rest := insts[0], insts[1..];
      TailIn(insts);
      InstDefsHead(insts);
      var env1 := env[i.x := EvalInst(i, env, input)];
      assert InstReady(i, env.Keys) by {
        assert insts[..0] == [];
        assert env.Keys + InstDefs([]) == env.Keys;
      }
      assert env1.Keys == env.Keys + {i.x};
      RestReady(insts, env.Keys);
      ExecInstsHold(rest, env1, input);
      InstHoldsLater(i, env, ExecInsts(rest, env1, input), input);
    }
  }

  lemma {:induction false} InstDefsHead(insts: seq<Inst>)
    requires insts != []
    ensures InstDefs(insts) == {insts[0].x} + InstDefs(insts[1..]) && InstDefs([]) == {}
    ensures (forall i, j :: 0 <= i < j < |insts| ==> insts[i].x != insts[j].x) ==> insts[0].x !in InstDefs(insts[1..])
  {
    TailIn(insts);
    assert InstDefs(insts) == {insts[0].x} + InstDefs(insts[1..]);
    forall r | r in insts[1..] && (forall i, j :: 0 <= i < j < |insts| ==> insts[i].x != insts[j].x)
      ensures r.x != insts[0].x
    {
      var k :| 0 <= k < |insts[1..]| && insts[1..][k] == r;
      assert insts[k + 1] == r;
    }
  }

  // An instruction's equation survives every later definition.
  lemma {:induction false} InstHoldsLater(i: Inst, env: Env, env': Env, input: Input)
    requires InstReady(i, env.Keys) && i.x !in env && Extends(env[i.x := EvalInst(i, env, input)], env')
    ensures InstHolds(i, env', input)
  {
    forall o | o in Uses(i) ensures Ready(o, env'.Keys) && Eval(o, env') == Eval(o, env) { assert Ready(o, env.Keys); }
    EvalSame(i, env, env', input);
  }

  lemma {:induction false} EnterPhisHold(phis: seq<Phi>, prev: nat, before: Env, env: Env)
    requires forall i, j :: 0 <= i < j < |phis| ==> phis[i].x != phis[j].x
    requires PhiDefs(phis) !! env.Keys && Extends(before, env)
    requires forall p :: p in phis ==> Ready(Chosen(p.ins, prev), before.Keys)
    ensures var env' := EnterPhis(phis, prev, before, env);
      && Extends(env, env') && env'.Keys == env.Keys + PhiDefs(phis)
      && forall p :: p in phis ==> PhiHolds(p, prev, env')
  {
    if phis != [] {
      hide Chosen, Eval, PhiDefs, PhiHolds;
      var p, rest := phis[0], phis[1..];
      TailIn(phis);
      PhiDefsHead(phis);
      var env1 := env[p.x := Eval(Chosen(p.ins, prev), before)];
      assert env1.Keys == env.Keys + {p.x};
      EnterPhisHold(rest, prev, before, env1);
      PhiHoldsLater(p, prev, before, env, EnterPhis(rest, prev, before, env1));
    }
  }

  lemma {:induction false} PhiHoldsLater(p: Phi, prev: nat, before: Env, env: Env, env': Env)
    requires Ready(Chosen(p.ins, prev), before.Keys) && Extends(before, env) && p.x !in env
    requires Extends(env[p.x := Eval(Chosen(p.ins, prev), before)], env')
    ensures PhiHolds(p, prev, env')
  {
  }

  lemma {:induction false} PhiDefsHead(phis: seq<Phi>)
    requires phis != []
    ensures PhiDefs(phis) == {phis[0].x} + PhiDefs(phis[1..]) && PhiDefs([]) == {}
    ensures (forall i, j :: 0 <= i < j < |phis| ==> phis[i].x != phis[j].x) ==> phis[0].x !in PhiDefs(phis[1..])
  {
    TailIn(phis);
    assert PhiDefs(phis) == {phis[0].x} + PhiDefs(phis[1..]);
    forall r | r in phis[1..] && (forall i, j :: 0 <= i < j < |phis| ==> phis[i].x != phis[j].x)
      ensures r.x != phis[0].x
    {
      var k :| 0 <= k < |phis[1..]| && phis[1..][k] == r;
      assert phis[k + 1] == r;
    }
  }

  lemma {:induction false} ExecBlockHolds(f: Func, path: seq<nat>, b: nat, env: Env, input: Input)
    requires SSA(f) && b < |f| && (forall c :: c in path ==> c < b) && (path == [] ==> b == 0)
    requires env.Keys == Avail(f, path) && BlockReady(f, path, b)
    ensures var env' := ExecBlock(f[b], Last(path), env, input);
      && Extends(env, env') && env'.Keys == env.Keys + Defs(f[b]) && BlockHolds(f[b], Last(path), env', input)
  {
    forall x | x in Avail(f, path) ensures x !in Defs(f[b]) {
      var c :| c in path && x in Defs(f[c]);
      assert Defs(f[c]) !! Defs(f[b]);
    }
    EnterPhisHold(f[b].phis, Last(path), env, env);
    var mid := EnterPhis(f[b].phis, Last(path), env, env);
    forall j | 0 <= j < |f[b].insts| ensures InstReady(f[b].insts[j], mid.Keys + InstDefs(f[b].insts[..j])) {}
    ExecInstsHold(f[b].insts, mid, input);
    var env' := ExecInsts(f[b].insts, mid, input);
    forall p | p in f[b].phis ensures PhiHolds(p, Last(path), env') { assert PhiHolds(p, Last(path), mid); }
  }

  // ---- the finished run satisfies all its equations ----

  ghost predicate Follows(f: Func, path: seq<nat>, env: Env) {
    forall k :: 0 <= k < |path| - 1 ==>
      path[k] < |f| && !f[path[k]].term.Ret? && path[k + 1] == Next(f[path[k]].term, env)
  }

  ghost predicate IsRun(f: Func, input: Input, r: Run) {
    && IsPath(f, r.path) && Solved(f, r.path, r.env, input) && Follows(f, r.path, r.env)
    && f[Last(r.path)].term.Ret? && r.value == Eval(f[Last(r.path)].term.v, r.env)
  }

  lemma {:induction false} PathReady(f: Func, path: seq<nat>, b: nat)
    requires UsesFollowDefs(f) && IsPath(f, path + [b])
    ensures Within(f, path, b) && BlockReady(f, path, b)
  {
  }

  lemma {:induction false} PathStep(f: Func, path: seq<nat>, b: nat, n: nat)
    requires Closed(f) && IsPath(f, path + [b]) && b < |f| && n in Targets(f[b].term)
    ensures IsPath(f, path + [b] + [n])
  {
    var path' := path + [b];
    forall k | 0 <= k < |path'| ensures path'[k] < |f| && (path' + [n])[k + 1] in Targets(f[path'[k]].term) {
      if k < |path'| - 1 { assert path'[k + 1] in Targets(f[path'[k]].term); }
    }
  }

  lemma {:induction false} RunHolds(f: Func, input: Input, b: nat, path: seq<nat>, env: Env)
    requires Forward(f) && SSA(f) && b < |f| && IsPath(f, path + [b]) && (forall c :: c in path ==> c < b)
    requires Solved(f, path, env, input) && Follows(f, path + [b], env)
    ensures IsRun(f, input, RunFrom(f, input, b, path, env))
    decreases |f| - b
  {
    hide ExecBlock, BlockHolds, BlockReady, SingleDefs, UsesFollowDefs;
    var after := ExecBlock(f[b], Last(path), env, input);
    assert Within(f, path, b) && BlockReady(f, path, b) by { PathReady(f, path, b); }
    assert path == [] ==> (path + [b])[0] == b;
    ExecBlockHolds(f, path, b, env, input);
    var path' := path + [b];
    SolvedStep(f, path, b, env, after, input);
    FollowsExtends(f, path, b, env, after, input);
    if !f[b].term.Ret? {
      var n := Next(f[b].term, after);
      assert n in Targets(f[b].term) && Last(path') == b;
      PathStep(f, path, b, n);
      RunHolds(f, input, n, path', after);
    }
  }

  lemma {:induction false} SolvedStep(f: Func, path: seq<nat>, b: nat, env: Env, after: Env, input: Input)
    requires b < |f| && Solved(f, path, env, input) && Extends(env, after)
    requires after.Keys == env.Keys + Defs(f[b]) && BlockHolds(f[b], Last(path), after, input)
    ensures Solved(f, path + [b], after, input)
  {
    var path' := path + [b];
    forall k | 0 <= k < |path'| ensures path'[k] < |f| && BlockHolds(f[path'[k]], Last(path'[..k]), after, input) {
      if k < |path| {
        assert path'[..k] == path[..k];
        BlockHoldsExtends(f[path[k]], Last(path[..k]), env, after, input);
      } else {
        assert path'[..k] == path;
      }
    }
    assert forall c :: c in path' <==> c in path || c == b;
  }

  lemma {:induction false} FollowsExtends(f: Func, path: seq<nat>, b: nat, env: Env, after: Env, input: Input)
    requires b < |f| && Solved(f, path, env, input) && Extends(env, after) && Follows(f, path + [b], env)
    ensures Follows(f, path + [b], after)
    ensures !f[b].term.Ret? ==> Follows(f, path + [b] + [Next(f[b].term, after)], after)
  {
    var path' := path + [b];
    forall k | 0 <= k < |path'| - 1
      ensures path'[k] < |f| && !f[path'[k]].term.Ret? && path'[k + 1] == Next(f[path'[k]].term, after)
    {
      assert path'[k] == path[k] && BlockHolds(f[path[k]], Last(path[..k]), env, input);
    }
  }

  // Every run of an SSA function solves the equations of the blocks it visits.
  lemma {:induction false} ExecuteSolves(f: Func, input: Input)
    requires Forward(f) && SSA(f)
    ensures IsRun(f, input, Execute(f, input))
  {
    assert Avail(f, []) == {};
    assert [] + [0] == [0];
    assert IsPath(f, [0]);
    RunHolds(f, input, 0, [], map[]);
  }
}

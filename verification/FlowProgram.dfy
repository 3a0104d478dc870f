// SSA code over an arbitrary control-flow graph, with stack slots, and its runs block by block.
module FlowProgram {
  import opened Words

  datatype Operand = Imm(v: int) | Use(x: nat)

  // Every other instruction is an operation that may also read and change the outside world.
  datatype Inst =
    | Op(x: nat, code: int, args: seq<Operand>)
    | Load(x: nat, slot: nat)
    | Store(slot: nat, v: Operand)
    | Cast(x: nat, from: nat, to: nat, v: Operand)

  datatype Incoming = Incoming(v: Operand, block: nat)

  datatype Phi = Phi(x: nat, ins: seq<Incoming>)

  datatype Case = Case(value: int, block: nat)

  // A branch picks one of its successors by a selector, a switch by comparing with its cases; returning ends the run.
  datatype Term =
    | Goto(sel: Operand, succs: seq<nat>)
    | Switch(sel: Operand, default: nat, cases: seq<Case>)
    | Return(v: Operand)

  datatype Block = Block(phis: seq<Phi>, body: seq<Inst>, term: Term)

  // Block 0 is the entry.
  type Program = seq<Block>

  type Env = map<nat, int>

  // What operations compute from arguments and world, and how a selector value picks a successor.
  datatype Machine = Machine(op: (int, seq<int>, int) -> (int, int), pick: (int, nat) -> nat)

  // Mem is what an instruction sees: values, stack slots, world.
  datatype Mem = Mem(env: Env, slots: Env, world: int)

  datatype State = At(block: nat, prev: Option<nat>, mem: Mem) | Finished(value: int, mem: Mem) | Stuck

  function Eval(o: Operand, env: Env): int {
    match o
    case Imm(v) => v
    case Use(x) => if x in env then env[x] else 0
  }

  function Evals(os: seq<Operand>, env: Env): seq<int> {
    seq(|os|, k requires 0 <= k < |os| => Eval(os[k], env))
  }

  function Pow2(w: nat): (r: int)
    ensures r >= 1
  {
    if w == 0 then 1 else 2 * Pow2(w - 1)
  }

  // Integers of width w are 0 up to Pow2(w); changing the width truncates or extends the sign bit.
  function Resize(v: int, from: nat, to: nat): int {
    if to <= from then v % Pow2(to)
    else if from == 0 || v < Pow2(from - 1) then v
    else v + Pow2(to) - Pow2(from)
  }

  function Exec(i: Inst, m: Mem, mach: Machine): Mem {
    match i
    case Op(x, code, args) =>
      var (v, w) := mach.op(code, Evals(args, m.env), m.world);
      Mem(m.env[x := v], m.slots, w)
    case Load(x, slot) => m.(env := m.env[x := if slot in m.slots then m.slots[slot] else 0])
    case Cast(x, from, to, v) => m.(env := m.env[x := Resize(Eval(v, m.env), from, to)])
    case Store(slot, v) => m.(slots := m.slots[slot := Eval(v, m.env)])
  }

  function ExecAll(body: seq<Inst>, m: Mem, mach: Machine): Mem {
    if body == [] then m else ExecAll(body[1..], Exec(body[0], m, mach), mach)
  }

  // The operand listed for a predecessor.
  function Chosen(ins: seq<Incoming>, prev: nat): Option<Operand> {
    if ins == [] then None else if ins[0].block == prev then Some(ins[0].v) else Chosen(ins[1..], prev)
  }

  function PhiValue(p: Phi, prev: Option<nat>, env: Env): int {
    if prev.Some? && Chosen(p.ins, prev.value).Some? then Eval(Chosen(p.ins, prev.value).value, env) else 0
  }

  // All phis of a block take effect together, from the values before the block.
  function EnterPhis(phis: seq<Phi>, prev: Option<nat>, before: Env, env: Env): Env {
    if phis == [] then env
    else EnterPhis(phis[1..], prev, before, env[phis[0].x := PhiValue(phis[0], prev, before)])
  }

  function CaseFor(cases: seq<Case>, v: int, default: nat): nat {
    if cases == [] then default else if cases[0].value == v then cases[0].block else CaseFor(cases[1..], v, default)
  }

  function Leave(t: Term, block: nat, m: Mem, mach: Machine): State {
    match t
    case Return(v) => Finished(Eval(v, m.env), m)
    case Goto(sel, succs) =>
      var k := mach.pick(Eval(sel, m.env), |succs|);
      if k < |succs| then At(succs[k], Some(block), m) else Stuck
    case Switch(sel, default, cases) => At(CaseFor(cases, Eval(sel, m.env), default), Some(block), m)
  }

  // One block executed.
  function Step(p: Program, s: State, mach: Machine): State {
    if !s.At? || s.block >= |p| then s
    else
      var b := p[s.block];
      var entered := s.mem.(env := EnterPhis(b.phis, s.prev, s.mem.env, s.mem.env));
      Leave(b.term, s.block, ExecAll(b.body, entered, mach), mach)
  }

  function Run(p: Program, s: State, n: nat, mach: Machine): State {
    if n == 0 then s else Step(p, Run(p, s, n - 1, mach), mach)
  }

  function Start(env: Env, world: int): State { At(0, None, Mem(env, map[], world)) }

  function Succs(t: Term): seq<nat> {
    match t
    case Goto(_, succs) => succs
    case Switch(_, default, cases) => [default] + CaseBlocks(cases)
    case Return(_) => []
  }

  function CaseBlocks(cases: seq<Case>): seq<nat> {
    if cases == [] then [] else [cases[0].block] + CaseBlocks(cases[1..])
  }

  lemma {:induction false} CaseForListed(cases: seq<Case>, v: int, default: nat)
    ensures CaseFor(cases, v, default) in [default] + CaseBlocks(cases)
  {
    if cases != [] && cases[0].value != v { CaseForListed(cases[1..], v, default); }
  }

  lemma {:induction false} LeaveGoesOn(t: Term, block: nat, m: Mem, mach: Machine)
    ensures var s := Leave(t, block, m, mach); s.At? ==> s.block in Succs(t) && s.prev == Some(block) && s.mem == m
  {
    if t.Switch? { CaseForListed(t.cases, Eval(t.sel, m.env), t.default); }
  }

  // The phis of a block have different names and list every predecessor.
  ghost predicate PhisListed(p: Program, b: nat)
    requires b < |p|
  {
    && (forall i, j :: 0 <= i < j < |p[b].phis| ==> p[b].phis[i].x != p[b].phis[j].x)
    && forall q :: q in p[b].phis ==>
         && (forall i :: 0 <= i < |q.ins| ==> q.ins[i].block < |p|)
         && forall c :: 0 <= c < |p| && b in Succs(p[c].term) ==> Chosen(q.ins, c).Some?
  }

  // Nothing leads to the entry block, which has no phis, and every edge leads somewhere.
  ghost predicate EdgesOk(p: Program) {
    && p != [] && p[0].phis == []
    && forall b, s :: 0 <= b < |p| && s in Succs(p[b].term) ==> 0 < s < |p|
  }

  ghost predicate Sound(p: Program) { EdgesOk(p) && forall b :: 0 <= b < |p| ==> PhisListed(p, b) }

  // Moreover an edge listed twice has the same operand twice.
  ghost predicate PhisOk(p: Program) { EdgesOk(p) && forall b :: 0 <= b < |p| ==> BlockPhisOk(p, b) }

  ghost predicate BlockPhisOk(p: Program, b: nat)
    requires b < |p|
  {
    PhisListed(p, b) && forall q :: q in p[b].phis ==> Consistent(q.ins)
  }

  ghost predicate Consistent(ins: seq<Incoming>) {
    forall i, j :: 0 <= i < |ins| && 0 <= j < |ins| && ins[i].block == ins[j].block ==> ins[i].v == ins[j].v
  }

  function SlotOf(i: Inst): set<nat> { if i.Load? || i.Store? then {i.slot} else {} }

  // No instruction touches the slot.
  ghost predicate Untouched(body: seq<Inst>, slot: nat) { forall i :: i in body ==> slot !in SlotOf(i) }

  ghost predicate SlotFree(p: Program, slot: nat) { forall b :: 0 <= b < |p| ==> Untouched(p[b].body, slot) }

  // ---- facts about runs ----

  function Entered(b: Block, s: State): Mem
    requires s.At?
  {
    s.mem.(env := EnterPhis(b.phis, s.prev, s.mem.env, s.mem.env))
  }

  lemma {:induction false} ExecAppend(a: seq<Inst>, b: seq<Inst>, m: Mem, mach: Machine)
    ensures ExecAll(a + b, m, mach) == ExecAll(b, ExecAll(a, m, mach), mach)
  {
    if a == [] {
      assert a + b == b;
    } else {
      assert (a + b)[0] == a[0] && (a + b)[1..] == a[1..] + b;
      ExecAppend(a[1..], b, Exec(a[0], m, mach), mach);
    }
  }

  // Removing one phi from the parallel assignment and making it last gives the same values.
  lemma {:induction false} EnterWithout(phis: seq<Phi>, j: nat, prev: Option<nat>, before: Env, env: Env)
    requires j < |phis| && forall i, k :: 0 <= i < k < |phis| ==> phis[i].x != phis[k].x
    ensures EnterPhis(phis, prev, before, env)
         == EnterPhis(phis[..j] + phis[j + 1..], prev, before, env)[phis[j].x := PhiValue(phis[j], prev, before)]
  {
    var others := phis[..j] + phis[j + 1..];
    if j == 0 {
      assert others == phis[1..];
      EnterOther(phis[1..], prev, before, env, phis[0].x, PhiValue(phis[0], prev, before));
    } else {
      assert others[0] == phis[0] && others[1..] == phis[1..][..j - 1] + phis[1..][j..];
      EnterWithout(phis[1..], j - 1, prev, before, env[phis[0].x := PhiValue(phis[0], prev, before)]);
    }
  }

  lemma {:induction false} EnterOther(phis: seq<Phi>, prev: Option<nat>, before: Env, env: Env, x: nat, v: int)
    requires forall p :: p in phis ==> p.x != x
    ensures EnterPhis(phis, prev, before, env[x := v]) == EnterPhis(phis, prev, before, env)[x := v]
  {
    if phis != [] {
      TailIn(phis);
      var y, w := phis[0].x, PhiValue(phis[0], prev, before);
      assert env[x := v][y := w] == env[y := w][x := v];
      EnterOther(phis[1..], prev, before, env[y := w], x, v);
    }
  }

  // Between blocks a run stands where the terminator of the previous block sent it.
  ghost predicate Arrived(p: Program, s: State) {
    s.At? ==> s.block < |p| && (if s.prev.Some? then s.prev.value < |p| && s.block in Succs(p[s.prev.value].term) else s.block == 0)
  }

  lemma {:induction false} StepArrives(p: Program, s: State, mach: Machine)
    requires EdgesOk(p) && Arrived(p, s)
    ensures Arrived(p, Step(p, s, mach))
  {
    if s.At? {
      LeaveGoesOn(p[s.block].term, s.block, ExecAll(p[s.block].body, Entered(p[s.block], s), mach), mach);
    }
  }

  lemma {:induction false} ChosenListed(ins: seq<Incoming>, c: nat)
    ensures Chosen(ins, c).Some? <==> exists k :: 0 <= k < |ins| && ins[k].block == c
    ensures Chosen(ins, c).Some? ==> exists k :: 0 <= k < |ins| && ins[k].block == c && ins[k].v == Chosen(ins, c).value
  {
    if ins != [] && ins[0].block != c {
      ChosenListed(ins[1..], c);
      forall k | 0 <= k < |ins[1..]| ensures ins[1..][k] == ins[k + 1] {}
      forall k | 0 < k < |ins| ensures ins[k] == ins[1..][k - 1] {}
    }
  }

  lemma {:induction false} StepUnfolds(p: Program, s: State, mach: Machine)
    requires s.At? && s.block < |p|
    ensures Step(p, s, mach) == Leave(p[s.block].term, s.block, ExecAll(p[s.block].body, Entered(p[s.block], s), mach), mach)
  {
  }

  lemma {:induction false} StepStays(p: Program, s: State, mach: Machine)
    requires !s.At?
    ensures Step(p, s, mach) == s
  {
  }
}

// SSA functions, and what it means for one to be another with its values renamed.
module SsaRenaming {
  import opened Words
  import opened FlowProgram
  import opened Dominance

  // ---- names and uses ----

  function PhiNames(phis: seq<Phi>): set<nat> { set q | q in phis :: q.x }

  function BodyNames(body: seq<Inst>): set<nat> { set i | i in body && !i.Store? :: i.x }

  function Names(b: Block): set<nat> { PhiNames(b.phis) + BodyNames(b.body) }

  function Uses(i: Inst): seq<Operand> {
    match i
    case Op(_, _, args) => args
    case Load(_, _) => []
    case Store(_, v) => [v]
    case Cast(_, _, _, v) => [v]
  }

  function TermUse(t: Term): Operand {
    match t
    case Goto(sel, _) => sel
    case Switch(sel, _, _) => sel
    case Return(v) => v
  }

  // Every value has one definition.
  ghost predicate DefinedOnce(p: Program, args: seq<nat>) {
    && Unique(args)
    && (forall b :: 0 <= b < |p| ==> BlockDefinesOnce(p[b]) && forall x :: x in Names(p[b]) ==> x !in args)
    && forall b, c, x :: 0 <= b < |p| && 0 <= c < |p| && b != c && x in Names(p[b]) ==> x !in Names(p[c])
  }

  ghost predicate BlockDefinesOnce(b: Block) {
    && (forall i, j :: 0 <= i < j < |b.phis| ==> b.phis[i].x != b.phis[j].x)
    && (forall i, j :: 0 <= i < j < |b.body| && !b.body[i].Store? && !b.body[j].Store? ==> b.body[i].x != b.body[j].x)
    && (forall j :: 0 <= j < |b.body| && !b.body[j].Store? ==> b.body[j].x !in PhiNames(b.phis))
  }

  // Defined in a block that every way to b goes through first.
  ghost predicate FromAbove(p: Program, b: nat, x: nat) {
    exists d :: 0 <= d < |p| && StrictlyDominates(p, d, b) && x in Names(p[d])
  }

  // The definition comes before position k of block b on every way there.
  ghost predicate Available(p: Program, args: seq<nat>, b: nat, k: nat, o: Operand)
    requires b < |p| && k <= |p[b].body|
  {
    o.Use? ==> o.x in args || o.x in PhiNames(p[b].phis) || o.x in BodyNames(p[b].body[..k]) || FromAbove(p, b, o.x)
  }

  ghost predicate Known(p: Program, args: seq<nat>, o: Operand) {
    o.Use? ==> o.x in args || exists d :: 0 <= d < |p| && o.x in Names(p[d])
  }

  // A function in SSA form with no unreachable block.
  ghost predicate Ssa(p: Program, args: seq<nat>) {
    && p != [] && DefinedOnce(p, args)
    && (forall b :: 0 <= b < |p| ==> Reachable(p, b) && BlockUsesOk(p, args, b))
    && forall b, s :: 0 <= b < |p| && s in Succs(p[b].term) ==> s < |p|
  }

  ghost predicate BlockUsesOk(p: Program, args: seq<nat>, b: nat)
    requires b < |p|
  {
    && (forall k, o :: 0 <= k < |p[b].body| && o in Uses(p[b].body[k]) ==> Available(p, args, b, k, o))
    && Available(p, args, b, |p[b].body|, TermUse(p[b].term))
    && forall q :: q in p[b].phis ==> q.ins != [] && forall k :: 0 <= k < |q.ins| ==> Known(p, args, q.ins[k].v)
  }

  // ---- renaming ----

  type Renaming = map<nat, nat>

  ghost predicate Injective(v: Renaming) { forall x, y :: x in v && y in v && v[x] == v[y] ==> x == y }

  ghost predicate Extends(v: Renaming, w: Renaming) { forall x :: x in v ==> x in w && w[x] == v[x] }

  function NameIn(v: Renaming, x: nat): nat { if x in v then v[x] else x }

  function OperandIn(v: Renaming, o: Operand): Operand { if o.Use? then Use(NameIn(v, o.x)) else o }

  function OperandsIn(v: Renaming, os: seq<Operand>): seq<Operand> {
    seq(|os|, k requires 0 <= k < |os| => OperandIn(v, os[k]))
  }

  function InstIn(v: Renaming, i: Inst): Inst {
    match i
    case Op(x, code, args) => Op(NameIn(v, x), code, OperandsIn(v, args))
    case Load(x, slot) => Load(NameIn(v, x), slot)
    case Store(slot, o) => Store(slot, OperandIn(v, o))
    case Cast(x, from, to, o) => Cast(NameIn(v, x), from, to, OperandIn(v, o))
  }

  function BodyIn(v: Renaming, body: seq<Inst>): seq<Inst> {
    seq(|body|, k requires 0 <= k < |body| => InstIn(v, body[k]))
  }

  function InsIn(v: Renaming, ins: seq<Incoming>): seq<Incoming> {
    seq(|ins|, k requires 0 <= k < |ins| => Incoming(OperandIn(v, ins[k].v), ins[k].block))
  }

  function PhisIn(v: Renaming, phis: seq<Phi>): seq<Phi> {
    seq(|phis|, k requires 0 <= k < |phis| => Phi(NameIn(v, phis[k].x), InsIn(v, phis[k].ins)))
  }

  function TermIn(v: Renaming, t: Term): Term {
    match t
    case Goto(sel, succs) => Goto(OperandIn(v, sel), succs)
    case Switch(sel, default, cases) => Switch(OperandIn(v, sel), default, cases)
    case Return(o) => Return(OperandIn(v, o))
  }

  function BlockIn(v: Renaming, b: Block): Block { Block(PhisIn(v, b.phis), BodyIn(v, b.body), TermIn(v, b.term)) }

  // The program with every value renamed, everything else and every order kept.
  function Renamed(v: Renaming, p: Program): Program { seq(|p|, b requires 0 <= b < |p| => BlockIn(v, p[b])) }

  ghost predicate Covers(v: Renaming, o: Operand) { o.Use? ==> o.x in v }

  // ---- a renamed program runs like the original ----

  // The same values under their new names.
  ghost predicate Agree(v: Renaming, env: Env, env': Env) {
    forall x :: x in v ==> (x in env <==> v[x] in env') && (x in env ==> env[x] == env'[v[x]])
  }

  ghost predicate AgreeMem(v: Renaming, m: Mem, m': Mem) {
    Agree(v, m.env, m'.env) && m.slots == m'.slots && m.world == m'.world
  }

  ghost predicate AgreeState(v: Renaming, s: State, s': State) {
    match (s, s')
    case (At(b, prev, m), At(b', prev', m')) => b == b' && prev == prev' && AgreeMem(v, m, m')
    case (Finished(r, m), Finished(r', m')) => r == r' && AgreeMem(v, m, m')
    case (Stuck, Stuck) => true
    case _ => false
  }

  ghost predicate CoversBlock(v: Renaming, b: Block) {
    && Names(b) <= v.Keys
    && (forall i, o :: i in b.body && o in Uses(i) ==> Covers(v, o))
    && Covers(v, TermUse(b.term))
    && forall q, k :: q in b.phis && 0 <= k < |q.ins| ==> Covers(v, q.ins[k].v)
  }

  lemma {:induction false} AgreeUpdate(v: Renaming, env: Env, env': Env, x: nat, r: int)
    requires Injective(v) && Agree(v, env, env') && x in v
    ensures Agree(v, env[x := r], env'[v[x] := r])
  {
  }

  lemma {:induction false} EvalsAgree(v: Renaming, env: Env, env': Env, os: seq<Operand>)
    requires Agree(v, env, env') && forall o :: o in os ==> Covers(v, o)
    ensures Evals(os, env) == Evals(OperandsIn(v, os), env')
  {
    forall k | 0 <= k < |os| ensures Evals(os, env)[k] == Evals(OperandsIn(v, os), env')[k] { assert os[k] in os; }
  }

  lemma {:induction false} ExecAgrees(v: Renaming, i: Inst, m: Mem, m': Mem, mach: Machine)
    requires Injective(v) && AgreeMem(v, m, m') && (!i.Store? ==> i.x in v)
    requires forall o :: o in Uses(i) ==> Covers(v, o)
    ensures AgreeMem(v, Exec(i, m, mach), Exec(InstIn(v, i), m', mach))
  {
    match i
    case Op(x, code, args) =>
      EvalsAgree(v, m.env, m'.env, args);
      AgreeUpdate(v, m.env, m'.env, x, mach.op(code, Evals(args, m.env), m.world).0);
    case Load(x, slot) =>
      AgreeUpdate(v, m.env, m'.env, x, if slot in m.slots then m.slots[slot] else 0);
    case Store(slot, o) =>
      assert o in Uses(i);
    case Cast(x, from, to, o) =>
      assert o in Uses(i);
      assert Eval(o, m.env) == Eval(OperandIn(v, o), m'.env);
      AgreeUpdate(v, m.env, m'.env, x, Resize(Eval(o, m.env), from, to));
  }

  lemma {:induction false} BodyAgrees(v: Renaming, body: seq<Inst>, m: Mem, m': Mem, mach: Machine)
    requires Injective(v) && AgreeMem(v, m, m') && BodyNames(body) <= v.Keys
    requires forall i, o :: i in body && o in Uses(i) ==> Covers(v, o)
    ensures AgreeMem(v, ExecAll(body, m, mach), ExecAll(BodyIn(v, body), m', mach))
  {
    if body != [] {
      var i := body[0];
      assert i in body;
      assert BodyIn(v, body)[1..] == BodyIn(v, body[1..]);
      TailIn(body);
      assert !i.Store? ==> i.x in BodyNames(body);
      ExecAgrees(v, i, m, m', mach);
      var n, n' := Exec(i, m, mach), Exec(InstIn(v, i), m', mach);
      BodyAgrees(v, body[1..], n, n', mach);
    }
  }

  lemma {:induction false} ChosenIn(v: Renaming, ins: seq<Incoming>, prev: nat)
    ensures Chosen(InsIn(v, ins), prev)
         == if Chosen(ins, prev).Some? then Some(OperandIn(v, Chosen(ins, prev).value)) else None
    ensures Chosen(ins, prev).Some? ==> exists k :: 0 <= k < |ins| && ins[k].v == Chosen(ins, prev).value
  {
    if ins != [] {
      assert InsIn(v, ins)[1..] == InsIn(v, ins[1..]);
      ChosenIn(v, ins[1..], prev);
      if ins[0].block != prev && Chosen(ins, prev).Some? {
        var k :| 0 <= k < |ins[1..]| && ins[1..][k].v == Chosen(ins, prev).value;
        assert ins[k + 1].v == Chosen(ins, prev).value;
      }
    }
  }

  lemma {:induction false} PhisAgree(v: Renaming, phis: seq<Phi>, prev: Option<nat>, before: Env, before': Env, env: Env, env': Env)
    requires Injective(v) && Agree(v, before, before') && Agree(v, env, env') && PhiNames(phis) <= v.Keys
    requires forall q, k :: q in phis && 0 <= k < |q.ins| ==> Covers(v, q.ins[k].v)
    ensures Agree(v, EnterPhis(phis, prev, before, env), EnterPhis(PhisIn(v, phis), prev, before', env'))
  {
    if phis != [] {
      var q := phis[0];
      assert q in phis && q.x in PhiNames(phis);
      assert PhisIn(v, phis)[1..] == PhisIn(v, phis[1..]);
      TailIn(phis);
      if prev.Some? { ChosenIn(v, q.ins, prev.value); }
      var r := PhiValue(q, prev, before);
      assert r == PhiValue(PhisIn(v, phis)[0], prev, before');
      AgreeUpdate(v, env, env', q.x, r);
      PhisAgree(v, phis[1..], prev, before, before', env[q.x := r], env'[v[q.x] := r]);
    }
  }

  lemma {:induction false} StepAgrees(v: Renaming, p: Program, s: State, s': State, mach: Machine)
    requires Injective(v) && AgreeState(v, s, s') && forall b :: 0 <= b < |p| ==> CoversBlock(v, p[b])
    ensures AgreeState(v, Step(p, s, mach), Step(Renamed(v, p), s', mach))
  {
    if s.At? && s.block < |p| {
      var b := p[s.block];
      PhisAgree(v, b.phis, s.prev, s.mem.env, s'.mem.env, s.mem.env, s'.mem.env);
      var m := s.mem.(env := EnterPhis(b.phis, s.prev, s.mem.env, s.mem.env));
      var m' := s'.mem.(env := EnterPhis(PhisIn(v, b.phis), s.prev, s'.mem.env, s'.mem.env));
      BodyAgrees(v, b.body, m, m', mach);
    }
  }

  // However long the runs, they visit the same blocks with the same values under their new names.
  lemma {:induction false} RenamedRunsAlike(v: Renaming, p: Program, env: Env, env': Env, world: int, n: nat, mach: Machine)
    requires Injective(v) && Agree(v, env, env') && forall b :: 0 <= b < |p| ==> CoversBlock(v, p[b])
    ensures AgreeState(v, Run(p, Start(env, world), n, mach), Run(Renamed(v, p), Start(env', world), n, mach))
  {
    if n > 0 {
      RenamedRunsAlike(v, p, env, env', world, n - 1, mach);
      StepAgrees(v, p, Run(p, Start(env, world), n - 1, mach), Run(Renamed(v, p), Start(env', world), n - 1, mach), mach);
    }
  }
}

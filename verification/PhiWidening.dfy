// Integer phis become 64 bits wide: constants are zero-extended, other operands sign-extended at the
// end of the predecessor, and a truncation behind the phis restores the old value.
module PhiWidening {
  import opened Words
  import opened FlowProgram
  import opened WideValues

  // Widths of values and of stack slots; what has none is not an integer.
  type Widths = map<nat, nat>

  // ---- the rewritten program ----

  // Operands of the wide phi; casts take the names from n on.
  function WideIns(ins: seq<Incoming>, n: nat): seq<Incoming> {
    if ins == [] then []
    else if ins[0].v.Imm? then [Incoming(Imm(Limited(ins[0].v.v)), ins[0].block)] + WideIns(ins[1..], n)
    else [Incoming(Use(n), ins[0].block)] + WideIns(ins[1..], n + 1)
  }

  // The casts that go to the end of block c.
  function CastsFor(ins: seq<Incoming>, c: nat, w: nat, n: nat): seq<Inst> {
    if ins == [] then []
    else if ins[0].v.Imm? then CastsFor(ins[1..], c, w, n)
    else (if ins[0].block == c then [Cast(n, w, WIDE, ins[0].v)] else []) + CastsFor(ins[1..], c, w, n + 1)
  }

  function CastCount(ins: seq<Incoming>): nat {
    if ins == [] then 0 else (if ins[0].v.Imm? then 0 else 1) + CastCount(ins[1..])
  }

  function WithCasts(p: Program, ins: seq<Incoming>, w: nat, n: nat): (p': Program)
    ensures |p'| == |p| && forall c :: 0 <= c < |p| ==> p'[c].phis == p[c].phis
  {
    seq(|p|, c requires 0 <= c < |p| => p[c].(body := p[c].body + CastsFor(ins, c, w, n)))
  }

  // The wide phi is called n, and the truncation takes over the old phi's name.
  function WithTrunc(b: Block, j: nat, w: nat, n: nat, ins: seq<Incoming>): Block
    requires j < |b.phis|
  {
    Block(b.phis[j := Phi(n, ins)], [Cast(b.phis[j].x, WIDE, w, Use(n))] + b.body, b.term)
  }

  function Widened(p: Program, b: nat, j: nat, w: nat, n: nat): (p': Program)
    requires b < |p| && j < |p[b].phis|
    ensures |p'| == |p|
  {
    var ins := p[b].phis[j].ins;
    var q := WithCasts(p, ins, w, n + 1);
    q[b := WithTrunc(q[b], j, w, n, WideIns(ins, n + 1))]
  }

  lemma {:induction false} WidenedShape(p: Program, b: nat, j: nat, w: nat, n: nat, c: nat)
    requires b < |p| && j < |p[b].phis| && c < |p|
    ensures var q := Widened(p, b, j, w, n);
      var phi := p[b].phis[j];
      && q[c].term == p[c].term
      && q[c].phis == (if c == b then p[b].phis[j := Phi(n, WideIns(phi.ins, n + 1))] else p[c].phis)
      && q[c].body == (if c == b then [Cast(phi.x, WIDE, w, Use(n))] else []) + (p[c].body + CastsFor(phi.ins, c, w, n + 1))
  {
  }

  lemma {:induction false} WideSnoc(ins: seq<Incoming>, inc: Incoming, n: nat)
    ensures WideIns(ins + [inc], n) == WideIns(ins, n) + WideIns([inc], n + CastCount(ins))
    ensures CastCount(ins + [inc]) == CastCount(ins) + CastCount([inc])
  {
    hide Limited;
    if ins == [] {
      assert [] + [inc] == [inc];
    } else {
      assert (ins + [inc])[0] == ins[0] && (ins + [inc])[1..] == ins[1..] + [inc];
      WideSnoc(ins[1..], inc, if ins[0].v.Imm? then n else n + 1);
    }
  }

  lemma {:induction false} CastsSnoc(ins: seq<Incoming>, inc: Incoming, c: nat, w: nat, n: nat)
    ensures CastsFor(ins + [inc], c, w, n) == CastsFor(ins, c, w, n) + CastsFor([inc], c, w, n + CastCount(ins))
  {
    if ins == [] {
      assert [] + [inc] == [inc];
    } else {
      assert (ins + [inc])[0] == ins[0] && (ins + [inc])[1..] == ins[1..] + [inc];
      CastsSnoc(ins[1..], inc, c, w, if ins[0].v.Imm? then n else n + 1);
      if ins[0].v.Use? {
        var here := if ins[0].block == c then [Cast(n, w, WIDE, ins[0].v)] else [];
        Regroup(here, CastsFor(ins[1..], c, w, n + 1), CastsFor([inc], c, w, n + CastCount(ins)));
      }
    }
  }

  // ---- typing ----

  ghost predicate Fits(v: int, w: nat) { 0 <= v < Pow2(w) }

  ghost predicate OperandFits(ws: Widths, o: Operand, w: nat) {
    if o.Imm? then Fits(o.v, w) else o.x in ws && ws[o.x] == w
  }

  ghost predicate PhiTyped(ws: Widths, q: Phi) {
    q.x in ws ==> ws[q.x] > 0 && forall k :: 0 <= k < |q.ins| ==> OperandFits(ws, q.ins[k].v, ws[q.x])
  }

  ghost predicate InstTyped(ws: Widths, slots: Widths, i: Inst) {
    match i
    case Op(_, _, _) => true
    case Load(x, s) => x in ws ==> s in slots && slots[s] == ws[x]
    case Store(s, v) => s in slots ==> OperandFits(ws, v, slots[s])
    case Cast(x, from, to, v) => x in ws && ws[x] == to && from > 0 && OperandFits(ws, v, from)
  }

  ghost predicate Typed(p: Program, ws: Widths, slots: Widths) {
    forall b :: 0 <= b < |p| ==>
      (forall q :: q in p[b].phis ==> PhiTyped(ws, q)) && forall i :: i in p[b].body ==> InstTyped(ws, slots, i)
  }

  // An operation's result fits the width of its name.
  ghost predicate OpFits(i: Inst, ws: Widths, mach: Machine) {
    i.Op? && i.x in ws ==> forall vals, world :: Fits(mach.op(i.code, vals, world).0, ws[i.x])
  }

  ghost predicate MachineFits(p: Program, ws: Widths, mach: Machine) {
    forall b, i :: 0 <= b < |p| && i in p[b].body ==> OpFits(i, ws, mach)
  }

  ghost predicate EnvFits(ws: Widths, env: Env) { forall x :: x in env && x in ws ==> Fits(env[x], ws[x]) }

  ghost predicate MemFits(ws: Widths, slots: Widths, m: Mem) { EnvFits(ws, m.env) && EnvFits(slots, m.slots) }

  ghost predicate StateFits(ws: Widths, slots: Widths, s: State) { !s.Stuck? ==> MemFits(ws, slots, s.mem) }

  // ---- names ----

  ghost predicate OperandBelow(o: Operand, n: nat) { o.Use? ==> o.x < n }

  ghost predicate InstBelow(i: Inst, n: nat) {
    match i
    case Op(x, _, args) => x < n && forall o :: o in args ==> OperandBelow(o, n)
    case Load(x, _) => x < n
    case Store(_, v) => OperandBelow(v, n)
    case Cast(x, _, _, v) => x < n && OperandBelow(v, n)
  }

  ghost predicate PhiBelow(q: Phi, n: nat) { q.x < n && forall k :: 0 <= k < |q.ins| ==> OperandBelow(q.ins[k].v, n) }

  ghost predicate TermBelow(t: Term, n: nat) {
    match t
    case Goto(sel, _) => OperandBelow(sel, n)
    case Switch(sel, _, _) => OperandBelow(sel, n)
    case Return(v) => OperandBelow(v, n)
  }

  ghost predicate BlockBelow(b: Block, n: nat) {
    && (forall q :: q in b.phis ==> PhiBelow(q, n))
    && (forall i :: i in b.body ==> InstBelow(i, n)) && TermBelow(b.term, n)
  }

  // No name from n on is in use.
  ghost predicate Below(p: Program, n: nat) { forall b :: 0 <= b < |p| ==> BlockBelow(p[b], n) }

  // ---- typed runs ----

  lemma {:induction false} ResizeFits(v: int, from: nat, to: nat)
    requires Fits(v, from) && from > 0
    ensures Fits(Resize(v, from, to), to)
  {
    hide Pow2;
    if from < to { Pow2Order(from, to); }
  }

  lemma {:induction false} EvalFits(ws: Widths, env: Env, o: Operand, w: nat)
    requires EnvFits(ws, env) && OperandFits(ws, o, w)
    ensures Fits(Eval(o, env), w)
  {
    hide Pow2;
    assert Pow2(w) >= 1;
  }

  lemma {:induction false} BodyFits(ws: Widths, slots: Widths, body: seq<Inst>, m: Mem, mach: Machine)
    requires MemFits(ws, slots, m) && forall i :: i in body ==> InstTyped(ws, slots, i) && OpFits(i, ws, mach)
    ensures MemFits(ws, slots, ExecAll(body, m, mach))
  {
    if body != [] {
      TailIn(body);
      InstFits(ws, slots, body[0], m, mach);
      BodyFits(ws, slots, body[1..], Exec(body[0], m, mach), mach);
    }
  }

  lemma {:induction false} InstFits(ws: Widths, slots: Widths, i: Inst, m: Mem, mach: Machine)
    requires MemFits(ws, slots, m) && InstTyped(ws, slots, i) && OpFits(i, ws, mach)
    ensures MemFits(ws, slots, Exec(i, m, mach))
  {
    hide Pow2, Resize;
    match i
    case Op(x, code, args) =>
    case Load(x, s) => if x in ws { assert Pow2(ws[x]) >= 1; }
    case Store(s, v) => if s in slots { EvalFits(ws, m.env, v, slots[s]); }
    case Cast(x, from, to, v) =>
      EvalFits(ws, m.env, v, from);
      ResizeFits(Eval(v, m.env), from, to);
  }

  lemma {:induction false} PhisFit(ws: Widths, phis: seq<Phi>, prev: Option<nat>, before: Env, env: Env)
    requires EnvFits(ws, before) && EnvFits(ws, env) && forall q :: q in phis ==> PhiTyped(ws, q)
    ensures EnvFits(ws, EnterPhis(phis, prev, before, env))
  {
    hide Pow2;
    if phis != [] {
      TailIn(phis);
      var q := phis[0];
      if q.x in ws {
        assert Pow2(ws[q.x]) >= 1;
        if prev.Some? && Chosen(q.ins, prev.value).Some? {
          ChosenListed(q.ins, prev.value);
          EvalFits(ws, before, Chosen(q.ins, prev.value).value, ws[q.x]);
        }
      }
      PhisFit(ws, phis[1..], prev, before, env[q.x := PhiValue(q, prev, before)]);
    }
  }

  lemma {:induction false} StepFits(p: Program, ws: Widths, slots: Widths, s: State, mach: Machine)
    requires Typed(p, ws, slots) && MachineFits(p, ws, mach) && StateFits(ws, slots, s)
    ensures StateFits(ws, slots, Step(p, s, mach))
  {
    if s.At? && s.block < |p| {
      var b := p[s.block];
      PhisFit(ws, b.phis, s.prev, s.mem.env, s.mem.env);
      forall i | i in b.body ensures InstTyped(ws, slots, i) && OpFits(i, ws, mach) {}
      BodyFits(ws, slots, b.body, Entered(b, s), mach);
      LeaveGoesOn(b.term, s.block, ExecAll(b.body, Entered(b, s), mach), mach);
    }
  }

  // ---- simulation ----

  ghost predicate AgreeBelow(env: Env, env': Env, n: nat) {
    forall x :: x < n ==> (x in env <==> x in env') && (x in env ==> env[x] == env'[x])
  }

  ghost predicate NearBelow(m: Mem, m': Mem, n: nat) {
    AgreeBelow(m.env, m'.env, n) && m.slots == m'.slots && m.world == m'.world
  }

  lemma {:induction false} EvalsBelow(os: seq<Operand>, env: Env, env': Env, n: nat)
    requires AgreeBelow(env, env', n) && forall o :: o in os ==> OperandBelow(o, n)
    ensures Evals(os, env) == Evals(os, env')
  {
    forall k | 0 <= k < |os| ensures Evals(os, env)[k] == Evals(os, env')[k] { assert os[k] in os; }
  }

  lemma {:induction false} BodyBelow(body: seq<Inst>, m: Mem, m': Mem, n: nat, mach: Machine)
    requires NearBelow(m, m', n) && forall i :: i in body ==> InstBelow(i, n)
    ensures NearBelow(ExecAll(body, m, mach), ExecAll(body, m', mach), n)
  {
    if body != [] {
      TailIn(body);
      var i := body[0];
      assert InstBelow(i, n);
      assert NearBelow(Exec(i, m, mach), Exec(i, m', mach), n) by {
        if i.Op? { EvalsBelow(i.args, m.env, m'.env, n); }
      }
      BodyBelow(body[1..], Exec(i, m, mach), Exec(i, m', mach), n, mach);
    }
  }

  lemma {:induction false} EnterBelow(phis: seq<Phi>, prev: Option<nat>, before: Env, before': Env, env: Env, env': Env, n: nat)
    requires AgreeBelow(before, before', n) && AgreeBelow(env, env', n) && forall q :: q in phis ==> PhiBelow(q, n)
    ensures AgreeBelow(EnterPhis(phis, prev, before, env), EnterPhis(phis, prev, before', env'), n)
  {
    if phis != [] {
      TailIn(phis);
      var q := phis[0];
      if prev.Some? { ChosenListed(q.ins, prev.value); }
      assert PhiValue(q, prev, before) == PhiValue(q, prev, before');
      EnterBelow(phis[1..], prev, before, before', env[q.x := PhiValue(q, prev, before)], env'[q.x := PhiValue(q, prev, before)], n);
    }
  }

  // What a wide phi is given for an operand.
  function WideValue(o: Operand, w: nat, env: Env): int { if o.Imm? then Limited(o.v) else Resize(Eval(o, env), w, WIDE) }

  // The casts at the end of block c compute the wide operand for c and change nothing below n.
  lemma {:induction false} CastsRun(ins: seq<Incoming>, c: nat, w: nat, n: nat, m: Mem, mach: Machine)
    requires forall k :: 0 <= k < |ins| ==> OperandBelow(ins[k].v, n)
    ensures var e := ExecAll(CastsFor(ins, c, w, n), m, mach);
      && NearBelow(m, e, n)
      && (Chosen(ins, c).Some? <==> Chosen(WideIns(ins, n), c).Some?)
      && (Chosen(ins, c).Some? ==> Eval(Chosen(WideIns(ins, n), c).value, e.env) == WideValue(Chosen(ins, c).value, w, m.env))
  {
    hide Limited, Pow2, Resize;
    if ins != [] {
      var rest := ins[1..];
      assert forall k :: 0 <= k < |rest| ==> rest[k] == ins[k + 1];
      if ins[0].v.Imm? {
        CastsRun(rest, c, w, n, m, mach);
      } else if ins[0].block == c {
        var cast := Cast(n, w, WIDE, ins[0].v);
        var m1 := Exec(cast, m, mach);
        ExecAppend([cast], CastsFor(rest, c, w, n + 1), m, mach);
        assert ExecAll([cast], m, mach) == m1 by { assert [cast][1..] == []; }
        CastsRun(rest, c, w, n + 1, m1, mach);
      } else {
        assert [] + CastsFor(rest, c, w, n + 1) == CastsFor(rest, c, w, n + 1);
        CastsRun(rest, c, w, n + 1, m, mach);
      }
    }
  }

  // Between blocks the wide operand for the edge just taken truncates to the original one.
  ghost predicate Related(s: State, s': State, ins: seq<Incoming>, w: nat, n: nat) {
    match (s, s')
    case (At(b, prev, m), At(b', prev', m')) =>
      && b == b' && prev == prev' && NearBelow(m, m', n)
      && (prev.Some? && Chosen(ins, prev.value).Some? ==>
            && Chosen(WideIns(ins, n + 1), prev.value).Some?
            && Resize(Eval(Chosen(WideIns(ins, n + 1), prev.value).value, m'.env), WIDE, w)
                 == Eval(Chosen(ins, prev.value).value, m.env))
    case (Finished(v, m), Finished(v', m')) => v == v' && NearBelow(m, m', n)
    case (Stuck, Stuck) => true
    case _ => false
  }

  // Entering a block: the truncation makes up for the phi that is wide now.
  lemma {:induction false} EntryRelated(p: Program, b: nat, j: nat, w: nat, n: nat, s: State, s': State, mach: Machine)
    requires Sound(p) && Below(p, n) && b < |p| && j < |p[b].phis|
    requires s.At? && s'.At? && s.block < |p| && Related(s, s', p[b].phis[j].ins, w, n)
    requires s.block == b ==> s.prev.Some? && s.prev.value < |p| && b in Succs(p[s.prev.value].term)
    ensures var trunc := if s.block == b then [Cast(p[b].phis[j].x, WIDE, w, Use(n))] else [];
      NearBelow(Entered(p[s.block], s), ExecAll(trunc, Entered(Widened(p, b, j, w, n)[s.block], s'), mach), n)
  {
    hide Resize, Widened, WithCasts, CastsFor, Limited, Pow2;
    WidenedShape(p, b, j, w, n, s.block);
    assert BlockBelow(p[s.block], n);
    if s.block == b {
      assert PhisListed(p, b) && p[b].phis[j] in p[b].phis;
      assert Chosen(p[b].phis[j].ins, s.prev.value).Some?;
      TruncRelated(p[b].phis, j, w, n, s.prev, s.mem, s'.mem, mach);
    } else {
      EnterBelow(p[s.block].phis, s.prev, s.mem.env, s'.mem.env, s.mem.env, s'.mem.env, n);
      assert ExecAll([], Entered(Widened(p, b, j, w, n)[s.block], s'), mach) == Entered(Widened(p, b, j, w, n)[s.block], s');
    }
  }

  lemma {:induction false} TruncRelated(phis: seq<Phi>, j: nat, w: nat, n: nat, prev: Option<nat>, m: Mem, m': Mem, mach: Machine)
    requires j < |phis| && NearBelow(m, m', n) && forall q :: q in phis ==> PhiBelow(q, n)
    requires forall i, k :: 0 <= i < k < |phis| ==> phis[i].x != phis[k].x
    requires var ins := phis[j].ins;
      && prev.Some? && Chosen(ins, prev.value).Some? && Chosen(WideIns(ins, n + 1), prev.value).Some?
      && Resize(Eval(Chosen(WideIns(ins, n + 1), prev.value).value, m'.env), WIDE, w) == Eval(Chosen(ins, prev.value).value, m.env)
    ensures var wide := Phi(n, WideIns(phis[j].ins, n + 1));
      NearBelow(m.(env := EnterPhis(phis, prev, m.env, m.env)),
                ExecAll([Cast(phis[j].x, WIDE, w, Use(n))], m'.(env := EnterPhis(phis[j := wide], prev, m'.env, m'.env)), mach), n)
  {
    hide Resize, WideIns, Chosen, EnterPhis;
    var phi, wide := phis[j], Phi(n, WideIns(phis[j].ins, n + 1));
    var phis', others := phis[j := wide], phis[..j] + phis[j + 1..];
    assert phis'[..j] + phis'[j + 1..] == others;
    WideDistinct(phis, j, n, wide.ins);
    forall q | q in others ensures PhiBelow(q, n) { assert q in phis; }
    EnterWithout(phis, j, prev, m.env, m.env);
    EnterWithout(phis', j, prev, m'.env, m'.env);
    EnterBelow(others, prev, m.env, m'.env, m.env, m'.env, n);
    var trunc := Cast(phi.x, WIDE, w, Use(n));
    assert [trunc][1..] == [];
    var e := m'.(env := EnterPhis(phis', prev, m'.env, m'.env));
    assert ExecAll([trunc], e, mach) == Exec(trunc, e, mach);
  }

  // The body runs alike, and the casts prepare the wide operand for the edge to come.
  lemma {:induction false} BodyRelated(body: seq<Inst>, trunc: seq<Inst>, ws: Widths, ins: seq<Incoming>, c: nat, w: nat, n: nat, m: Mem, m': Mem,
                    mach: Machine)
    requires 0 < w < WIDE && forall k :: 0 <= k < |ins| ==> OperandFits(ws, ins[k].v, w) && OperandBelow(ins[k].v, n)
    requires (forall i :: i in body ==> InstBelow(i, n)) && EnvFits(ws, ExecAll(body, m, mach).env)
    requires NearBelow(m, ExecAll(trunc, m', mach), n)
    ensures var e, e' := ExecAll(body, m, mach), ExecAll(trunc + (body + CastsFor(ins, c, w, n + 1)), m', mach);
      && NearBelow(e, e', n)
      && (Chosen(ins, c).Some? ==>
            && Chosen(WideIns(ins, n + 1), c).Some?
            && Resize(Eval(Chosen(WideIns(ins, n + 1), c).value, e'.env), WIDE, w) == Eval(Chosen(ins, c).value, e.env))
  {
    hide Resize, Pow2, Limited;
    var l := ExecAll(trunc, m', mach);
    ExecAppend(trunc, body + CastsFor(ins, c, w, n + 1), m', mach);
    ExecAppend(body, CastsFor(ins, c, w, n + 1), l, mach);
    BodyBelow(body, m, l, n, mach);
    CastsRun(ins, c, w, n + 1, ExecAll(body, l, mach), mach);
    if Chosen(ins, c).Some? {
      ChosenListed(ins, c);
      var o := Chosen(ins, c).value;
      var e := ExecAll(body, m, mach);
      EvalFits(ws, e.env, o, w);
      assert Eval(o, e.env) == Eval(o, ExecAll(body, l, mach).env);
      NarrowRoundTrip(Eval(o, e.env), w);
    }
  }

  lemma {:induction false} LeaveRelated(t: Term, c: nat, e: Mem, e': Mem, ins: seq<Incoming>, w: nat, n: nat, mach: Machine)
    requires NearBelow(e, e', n) && TermBelow(t, n)
    requires Chosen(ins, c).Some? ==>
      && Chosen(WideIns(ins, n + 1), c).Some?
      && Resize(Eval(Chosen(WideIns(ins, n + 1), c).value, e'.env), WIDE, w) == Eval(Chosen(ins, c).value, e.env)
    ensures Related(Leave(t, c, e, mach), Leave(t, c, e', mach), ins, w, n)
  {
    hide Resize;
  }

  // One block of the original against the same block rewritten.
  lemma {:induction false} StepRelated(p: Program, ws: Widths, slots: Widths, b: nat, j: nat, n: nat, s: State, s': State, mach: Machine)
    requires Sound(p) && Below(p, n) && Typed(p, ws, slots) && b < |p| && j < |p[b].phis|
    requires p[b].phis[j].x in ws && 0 < ws[p[b].phis[j].x] < WIDE
    requires s.At? && s'.At? && s.block < |p| && Related(s, s', p[b].phis[j].ins, ws[p[b].phis[j].x], n)
    requires s.block == b ==> s.prev.Some? && s.prev.value < |p| && b in Succs(p[s.prev.value].term)
    requires MachineFits(p, ws, mach) && StateFits(ws, slots, s)
    ensures Related(Step(p, s, mach), Step(Widened(p, b, j, ws[p[b].phis[j].x], n), s', mach), p[b].phis[j].ins, ws[p[b].phis[j].x], n)
  {
    hide ExecAll, EnterPhis, CastsFor, WideIns, Chosen, Widened, Leave, Resize, NearBelow, Pow2;
    var c, phi := s.block, p[b].phis[j];
    var w := ws[phi.x];
    var q := Widened(p, b, j, w, n);
    WidenedShape(p, b, j, w, n, c);
    assert BlockBelow(p[c], n) && BlockBelow(p[b], n);
    assert phi in p[b].phis && PhiTyped(ws, phi) && PhiBelow(phi, n);
    var trunc := if c == b then [Cast(phi.x, WIDE, w, Use(n))] else [];
    EntryRelated(p, b, j, w, n, s, s', mach);
    var m, m' := Entered(p[c], s), Entered(q[c], s');
    PhisFit(ws, p[c].phis, s.prev, s.mem.env, s.mem.env);
    BodyFits(ws, slots, p[c].body, m, mach);
    BodyRelated(p[c].body, trunc, ws, phi.ins, c, w, n, m, m', mach);
    LeaveRelated(p[c].term, c, ExecAll(p[c].body, m, mach), ExecAll(q[c].body, m', mach), phi.ins, w, n, mach);
    StepUnfolds(p, s, mach);
    StepUnfolds(q, s', mach);
  }

  lemma {:induction false} RunsRelated(p: Program, ws: Widths, slots: Widths, b: nat, j: nat, n: nat,
                                       env: Env, world: int, steps: nat, mach: Machine)
    requires Sound(p) && Below(p, n) && Typed(p, ws, slots) && b < |p| && j < |p[b].phis|
    requires p[b].phis[j].x in ws && 0 < ws[p[b].phis[j].x] < WIDE
    requires MachineFits(p, ws, mach) && EnvFits(ws, env)
    ensures var s := Run(p, Start(env, world), steps, mach);
      && Arrived(p, s) && StateFits(ws, slots, s)
      && Related(s, Run(Widened(p, b, j, ws[p[b].phis[j].x], n), Start(env, world), steps, mach), p[b].phis[j].ins, ws[p[b].phis[j].x], n)
  {
    hide Resize, Widened, Step, Chosen, MachineFits, Typed, Below;
    if steps > 0 {
      RunsRelated(p, ws, slots, b, j, n, env, world, steps - 1, mach);
      var s := Run(p, Start(env, world), steps - 1, mach);
      var w := ws[p[b].phis[j].x];
      var s' := Run(Widened(p, b, j, w, n), Start(env, world), steps - 1, mach);
      StepArrives(p, s, mach);
      StepFits(p, ws, slots, s, mach);
      if s.At? {
        StepRelated(p, ws, slots, b, j, n, s, s', mach);
      } else {
        StepStays(p, s, mach);
        StepStays(Widened(p, b, j, w, n), s', mach);
      }
    }
  }

  // The two runs are at the same place with the same values under the names below n, and the same memory.
  ghost predicate SameBelow(s: State, s': State, n: nat) {
    match (s, s')
    case (At(b, prev, m), At(b', prev', m')) => b == b' && prev == prev' && NearBelow(m, m', n)
    case (Finished(v, m), Finished(v', m')) => v == v' && NearBelow(m, m', n)
    case (Stuck, Stuck) => true
    case _ => false
  }

  ghost predicate EnvBelow(env: Env, n: nat) { forall x :: x in env ==> x < n }

  // From well-typed arguments, on machines that respect widths, all runs go alike.
  ghost predicate Simulates(p: Program, ws: Widths, q: Program, n: nat) {
    forall env, world, steps: nat, mach :: EnvBelow(env, n) && EnvFits(ws, env) && MachineFits(p, ws, mach) ==>
      SameBelow(Run(p, Start(env, world), steps, mach), Run(q, Start(env, world), steps, mach), n)
  }

  // ---- what conversion keeps ----

  // New names get widths.
  function CastWidths(ws: Widths, ins: seq<Incoming>, n: nat): Widths
    decreases ins
  {
    if ins == [] then ws
    else if ins[0].v.Imm? then CastWidths(ws, ins[1..], n)
    else CastWidths(ws[n := WIDE], ins[1..], n + 1)
  }

  lemma {:induction false} CastWidthsBelow(ws: Widths, ins: seq<Incoming>, n: nat)
    ensures forall x :: x < n ==> (x in CastWidths(ws, ins, n) <==> x in ws) && (x in ws ==> CastWidths(ws, ins, n)[x] == ws[x])
    decreases ins
  {
    if ins != [] {
      if ins[0].v.Imm? { CastWidthsBelow(ws, ins[1..], n); } else { CastWidthsBelow(ws[n := WIDE], ins[1..], n + 1); }
    }
  }

  ghost predicate WidthsAgree(ws: Widths, ws': Widths, n: nat) {
    forall x :: x < n ==> (x in ws <==> x in ws') && (x in ws ==> ws[x] == ws'[x])
  }

  // The wide operands and the casts are typed and use only names of their own range.
  lemma {:induction false} CastsTyped(ws: Widths, slots: Widths, ws': Widths, ins: seq<Incoming>, w: nat, n: nat)
    requires 0 < w && ws' == CastWidths(ws, ins, n)
    requires forall k :: 0 <= k < |ins| ==> OperandFits(ws, ins[k].v, w) && OperandBelow(ins[k].v, n)
    ensures forall k :: 0 <= k < |WideIns(ins, n)| ==>
      OperandFits(ws', WideIns(ins, n)[k].v, WIDE) && OperandBelow(WideIns(ins, n)[k].v, n + CastCount(ins))
    ensures forall c: nat, i :: i in CastsFor(ins, c, w, n) ==> InstTyped(ws', slots, i) && InstBelow(i, n + CastCount(ins)) && i.Cast?
    decreases ins
  {
    hide Pow2;
    if ins != [] {
      var rest := ins[1..];
      assert forall k :: 0 <= k < |rest| ==> rest[k] == ins[k + 1];
      if ins[0].v.Imm? {
        CastsTyped(ws, slots, ws', rest, w, n);
        assert Fits(Limited(ins[0].v.v), WIDE) by { assert OperandFits(ws, ins[0].v, w); }
      } else {
        CastsTyped(ws[n := WIDE], slots, ws', rest, w, n + 1);
        CastWidthsBelow(ws[n := WIDE], rest, n + 1);
        assert OperandFits(ws, ins[0].v, w);
        var first := Cast(n, w, WIDE, ins[0].v);
        assert InstTyped(ws', slots, first) && InstBelow(first, n + CastCount(ins));
        forall c: nat, i | i in CastsFor(ins, c, w, n)
          ensures InstTyped(ws', slots, i) && InstBelow(i, n + CastCount(ins)) && i.Cast?
        {
          assert i == first || i in CastsFor(rest, c, w, n + 1);
        }
      }
    }
  }

  lemma {:induction false} OperandKeeps(ws: Widths, ws': Widths, o: Operand, w: nat, n: nat)
    requires WidthsAgree(ws, ws', n) && OperandBelow(o, n) && OperandFits(ws, o, w)
    ensures OperandFits(ws', o, w)
  {
  }

  lemma {:induction false} BlockKeepsTypes(b: Block, ws: Widths, ws': Widths, slots: Widths, n: nat)
    requires WidthsAgree(ws, ws', n) && BlockBelow(b, n)
    requires (forall q :: q in b.phis ==> PhiTyped(ws, q)) && forall i :: i in b.body ==> InstTyped(ws, slots, i)
    ensures (forall q :: q in b.phis ==> PhiTyped(ws', q)) && forall i :: i in b.body ==> InstTyped(ws', slots, i)
  {
    hide Fits;
    forall q | q in b.phis ensures PhiTyped(ws', q) {
      assert PhiTyped(ws, q) && PhiBelow(q, n);
      if q.x in ws {
        forall k | 0 <= k < |q.ins| ensures OperandFits(ws', q.ins[k].v, ws[q.x]) { OperandKeeps(ws, ws', q.ins[k].v, ws[q.x], n); }
      }
    }
    forall i | i in b.body ensures InstTyped(ws', slots, i) {
      assert InstTyped(ws, slots, i) && InstBelow(i, n);
    }
  }

  ghost predicate Ready(p: Program, ws: Widths, slots: Widths, n: nat) { Sound(p) && Below(p, n) && Typed(p, ws, slots) }

  lemma {:induction false} BelowMore(b: Block, n: nat, n': nat)
    requires BlockBelow(b, n) && n <= n'
    ensures BlockBelow(b, n')
  {
    forall q | q in b.phis ensures PhiBelow(q, n') { assert PhiBelow(q, n); }
    forall i | i in b.body ensures InstBelow(i, n') { assert InstBelow(i, n); }
  }

  lemma {:induction false} WideListed(ins: seq<Incoming>, c: nat, n: nat)
    ensures |WideIns(ins, n)| == |ins| && forall k :: 0 <= k < |ins| ==> WideIns(ins, n)[k].block == ins[k].block
    ensures Chosen(WideIns(ins, n), c).Some? <==> Chosen(ins, c).Some?
  {
    if ins != [] {
      assert forall k :: 0 <= k < |ins[1..]| ==> ins[1..][k] == ins[k + 1];
      WideListed(ins[1..], c, if ins[0].v.Imm? then n else n + 1);
    }
  }

  function WidthsAfter(ws: Widths, ins: seq<Incoming>, n: nat): Widths { CastWidths(ws[n := WIDE], ins, n + 1) }

  function NextAfter(ins: seq<Incoming>, n: nat): nat { n + 1 + CastCount(ins) }

  // One block of the rewritten program is typed, with names below the next free one.
  lemma {:induction false} WidenedBlock(p: Program, ws: Widths, slots: Widths, b: nat, j: nat, n: nat, c: nat)
    requires Ready(p, ws, slots, n) && b < |p| && j < |p[b].phis| && c < |p|
    requires p[b].phis[j].x in ws && 0 < ws[p[b].phis[j].x] < WIDE
    ensures var ins := p[b].phis[j].ins;
      var q, ws' := Widened(p, b, j, ws[p[b].phis[j].x], n)[c], WidthsAfter(ws, ins, n);
      && BlockBelow(q, NextAfter(ins, n))
      && (forall f :: f in q.phis ==> PhiTyped(ws', f)) && forall i :: i in q.body ==> InstTyped(ws', slots, i)
  {
    hide Fits, CastsFor, WideIns, Widened, CastWidths, CastCount, Pow2;
    var phi := p[b].phis[j];
    var w, ins, n' := ws[phi.x], phi.ins, NextAfter(phi.ins, n);
    var ws' := WidthsAfter(ws, ins, n);
    var q := Widened(p, b, j, w, n)[c];
    WidenedShape(p, b, j, w, n, c);
    assert BlockBelow(p[b], n) && BlockBelow(p[c], n);
    assert phi in p[b].phis && PhiTyped(ws, phi) && PhiBelow(phi, n);
    CastWidthsBelow(ws[n := WIDE], ins, n + 1);
    BlockKeepsTypes(p[c], ws, ws', slots, n);
    BelowMore(p[c], n, n');
    assert forall k :: 0 <= k < |ins| ==> OperandFits(ws[n := WIDE], ins[k].v, w) by {
      forall k | 0 <= k < |ins| ensures OperandFits(ws[n := WIDE], ins[k].v, w) { OperandKeeps(ws, ws[n := WIDE], ins[k].v, w, n); }
    }
    CastsTyped(ws[n := WIDE], slots, ws', ins, w, n + 1);
    var wide := Phi(n, WideIns(ins, n + 1));
    assert PhiTyped(ws', wide) && PhiBelow(wide, n');
    var trunc := Cast(phi.x, WIDE, w, Use(n));
    assert InstTyped(ws', slots, trunc) && InstBelow(trunc, n');
    forall f | f in q.phis ensures PhiTyped(ws', f) && PhiBelow(f, n') { assert f in p[c].phis || f == wide; }
    forall i | i in q.body ensures InstTyped(ws', slots, i) && InstBelow(i, n') {
      assert i == trunc || i in p[c].body || i in CastsFor(ins, c, w, n + 1);
    }
  }

  lemma {:induction false} WidenedSound(p: Program, b: nat, j: nat, w: nat, n: nat)
    requires Sound(p) && Below(p, n) && b < |p| && j < |p[b].phis|
    ensures Sound(Widened(p, b, j, w, n))
  {
    hide CastsFor, WideIns, Widened;
    var q := Widened(p, b, j, w, n);
    forall c | 0 <= c < |p|
      ensures q[c].term == p[c].term && (c != b ==> q[c].phis == p[c].phis)
      ensures q[b].phis == p[b].phis[j := Phi(n, WideIns(p[b].phis[j].ins, n + 1))]
    {
      WidenedShape(p, b, j, w, n, c);
      WidenedShape(p, b, j, w, n, b);
    }
    forall c | 0 <= c < |p| ensures PhisListed(q, c) {
      assert PhisListed(p, c) && BlockBelow(p[c], n);
      if c == b {
        WideDistinct(p[b].phis, j, n, WideIns(p[b].phis[j].ins, n + 1));
        forall f | f in q[b].phis
          ensures forall i :: 0 <= i < |f.ins| ==> f.ins[i].block < |q|
          ensures forall d :: 0 <= d < |q| && b in Succs(q[d].term) ==> Chosen(f.ins, d).Some?
        {
          var ins := p[b].phis[j].ins;
          assert p[b].phis[j] in p[b].phis;
          if f !in p[b].phis {
            WideListed(ins, 0, n + 1);
            forall d | 0 <= d < |q| && b in Succs(q[d].term) ensures Chosen(f.ins, d).Some? { WideListed(ins, d, n + 1); }
          }
        }
      }
    }
  }

  lemma {:induction false} WideDistinct(phis: seq<Phi>, j: nat, n: nat, ins: seq<Incoming>)
    requires j < |phis| && (forall q :: q in phis ==> q.x < n) && forall i, k :: 0 <= i < k < |phis| ==> phis[i].x != phis[k].x
    ensures var phis' := phis[j := Phi(n, ins)]; forall i, k :: 0 <= i < k < |phis'| ==> phis'[i].x != phis'[k].x
  {
    var phis' := phis[j := Phi(n, ins)];
    forall i, k | 0 <= i < k < |phis'| ensures phis'[i].x != phis'[k].x {
      assert phis[i] in phis && phis[k] in phis;
    }
  }

  lemma {:induction false} WidenedMachine(p: Program, ws: Widths, b: nat, j: nat, n: nat, mach: Machine)
    requires Below(p, n) && b < |p| && j < |p[b].phis| && p[b].phis[j].x in ws && MachineFits(p, ws, mach)
    ensures MachineFits(Widened(p, b, j, ws[p[b].phis[j].x], n), WidthsAfter(ws, p[b].phis[j].ins, n), mach)
  {
    hide Fits, CastsFor, WideIns, Widened, CastWidths, Pow2;
    var phi := p[b].phis[j];
    var w, ws' := ws[phi.x], WidthsAfter(ws, phi.ins, n);
    var q := Widened(p, b, j, w, n);
    CastWidthsBelow(ws[n := WIDE], phi.ins, n + 1);
    forall c, i | 0 <= c < |q| && i in q[c].body ensures OpFits(i, ws', mach) {
      WidenedShape(p, b, j, w, n, c);
      if i.Op? {
        OnlyCasts(phi.ins, c, w, n + 1);
        assert i in p[c].body && BlockBelow(p[c], n) && InstBelow(i, n) && OpFits(i, ws, mach);
      }
    }
  }

  lemma {:induction false} OnlyCasts(ins: seq<Incoming>, c: nat, w: nat, n: nat)
    ensures forall i :: i in CastsFor(ins, c, w, n) ==> i.Cast?
  {
    if ins != [] { OnlyCasts(ins[1..], c, w, if ins[0].v.Imm? then n else n + 1); }
  }

  lemma {:induction false} WidenedReady(p: Program, ws: Widths, slots: Widths, b: nat, j: nat, n: nat)
    requires Ready(p, ws, slots, n) && b < |p| && j < |p[b].phis|
    requires p[b].phis[j].x in ws && 0 < ws[p[b].phis[j].x] < WIDE
    ensures var ins := p[b].phis[j].ins;
      Ready(Widened(p, b, j, ws[p[b].phis[j].x], n), WidthsAfter(ws, ins, n), slots, NextAfter(ins, n))
  {
    hide BlockBelow, PhiTyped, InstTyped, Widened, CastWidths, CastCount, EdgesOk, PhisListed;
    WidenedSound(p, b, j, ws[p[b].phis[j].x], n);
    forall c | 0 <= c < |p|
      ensures var ins := p[b].phis[j].ins;
        var q, ws' := Widened(p, b, j, ws[p[b].phis[j].x], n)[c], WidthsAfter(ws, ins, n);
        && BlockBelow(q, NextAfter(ins, n))
        && (forall f :: f in q.phis ==> PhiTyped(ws', f)) && forall i :: i in q.body ==> InstTyped(ws', slots, i)
    {
      WidenedBlock(p, ws, slots, b, j, n, c);
    }
  }

  // ---- composing conversions ----

  // A program, its widths and next free name, after some conversions of an original.
  ghost predicate Converted(p: Program, ws: Widths, n: nat, q: Program, ws': Widths, n': nat) {
    && n <= n' && WidthsAgree(ws, ws', n) && Simulates(p, ws, q, n)
    && forall mach :: MachineFits(p, ws, mach) ==> MachineFits(q, ws', mach)
  }

  lemma {:induction false} ConvertedSelf(p: Program, ws: Widths, n: nat)
    ensures Converted(p, ws, n, p, ws, n)
  {
  }

  lemma {:induction false} WidenedSimulates(p: Program, ws: Widths, slots: Widths, b: nat, j: nat, n: nat)
    requires Ready(p, ws, slots, n) && b < |p| && j < |p[b].phis|
    requires p[b].phis[j].x in ws && 0 < ws[p[b].phis[j].x] < WIDE
    ensures Converted(p, ws, n, Widened(p, b, j, ws[p[b].phis[j].x], n), WidthsAfter(ws, p[b].phis[j].ins, n), NextAfter(p[b].phis[j].ins, n))
  {
    hide MachineFits, Widened, Sound, Below, Typed, CastWidths, CastCount, EnvFits, Resize, Chosen;
    var q := Widened(p, b, j, ws[p[b].phis[j].x], n);
    forall env, world, steps: nat, mach | EnvBelow(env, n) && EnvFits(ws, env) && MachineFits(p, ws, mach)
      ensures SameBelow(Run(p, Start(env, world), steps, mach), Run(q, Start(env, world), steps, mach), n)
    {
      RunsRelated(p, ws, slots, b, j, n, env, world, steps, mach);
    }
    forall mach | MachineFits(p, ws, mach) ensures MachineFits(q, WidthsAfter(ws, p[b].phis[j].ins, n), mach) {
      WidenedMachine(p, ws, b, j, n, mach);
    }
    CastWidthsBelow(ws[n := WIDE], p[b].phis[j].ins, n + 1);
  }

  lemma {:induction false} ConvertedTrans(p: Program, ws: Widths, n: nat, q: Program, ws': Widths, n': nat, r: Program, ws'': Widths, n'': nat)
    requires Converted(p, ws, n, q, ws', n') && Converted(q, ws', n', r, ws'', n'')
    ensures Converted(p, ws, n, r, ws'', n'')
  {
    hide MachineFits, Run, Fits;
    forall env, world, steps: nat, mach | EnvBelow(env, n) && EnvFits(ws, env) && MachineFits(p, ws, mach)
      ensures SameBelow(Run(p, Start(env, world), steps, mach), Run(r, Start(env, world), steps, mach), n)
    {
      assert SameBelow(Run(p, Start(env, world), steps, mach), Run(q, Start(env, world), steps, mach), n);
      assert EnvBelow(env, n') && EnvFits(ws', env);
      assert SameBelow(Run(q, Start(env, world), steps, mach), Run(r, Start(env, world), steps, mach), n');
    }
  }

  // ---- the pass ----

  // Integer phis no wider than 64 bits, in every block.
  ghost predicate AllNarrow(p: Program, ws: Widths) {
    forall b, q :: 0 <= b < |p| && q in p[b].phis && q.x in ws ==> ws[q.x] <= WIDE
  }

  // Where the phis stand, block by block; conversion keeps the place.
  function Places(p: Program, c: nat): seq<(nat, nat)>
    requires c <= |p|
    decreases |p| - c
  {
    if c == |p| then [] else PlacesAt(|p[c].phis|, c) + Places(p, c + 1)
  }

  function PlacesAt(k: nat, c: nat): seq<(nat, nat)> { seq(k, i requires 0 <= i < k => (c, i)) }

  lemma {:induction false} PlacesExact(p: Program, c: nat)
    requires c <= |p|
    ensures forall b: nat, j: nat :: ((b, j) in Places(p, c) <==> c <= b < |p| && j < |p[b].phis|)
    decreases |p| - c
  {
    if c < |p| {
      PlacesExact(p, c + 1);
      var here := PlacesAt(|p[c].phis|, c);
      forall b: nat, j: nat ensures (b, j) in here <==> b == c && j < |p[c].phis| {
        if b == c && j < |p[c].phis| { assert here[j] == (b, j); }
      }
      forall b: nat, j: nat ensures (b, j) in Places(p, c) <==> c <= b < |p| && j < |p[b].phis| {
        assert (b, j) in Places(p, c) <==> (b, j) in here || (b, j) in Places(p, c + 1);
      }
    }
  }

  class Widener {
    var blocks: Program
    var widths: Widths
    var next: nat

    constructor (p: Program, ws: Widths, n: nat)
      ensures blocks == p && widths == ws && next == n
    {
      blocks, widths, next := p, ws, n;
    }

    // Makes phi j of block b wide, unless it is no integer or wide already.
    method ConvertPHI(b: nat, j: nat)
      requires b < |blocks| && j < |blocks[b].phis|
      requires forall i :: 0 <= i < |blocks[b].phis[j].ins| ==> blocks[b].phis[j].ins[i].block < |blocks|
      modifies this
      ensures var phi := old(blocks)[b].phis[j];
        if phi.x !in old(widths) || old(widths)[phi.x] == WIDE then blocks == old(blocks) && widths == old(widths) && next == old(next)
        else
          && blocks == Widened(old(blocks), b, j, old(widths)[phi.x], old(next))
          && widths == WidthsAfter(old(widths), phi.ins, old(next)) && next == NextAfter(phi.ins, old(next))
    {
      ghost var p := blocks;
      hide Pow2, Limited, CastsFor, WideIns, WithCasts, CastWidths, CastCount;
      var phi, node := blocks[b].phis[j], next;
      if phi.x !in widths || widths[phi.x] == WIDE { return; }
      var w := widths[phi.x];
      widths, next := widths[node := WIDE], next + 1;
      ghost var start := widths;
      var wide: seq<Incoming> := [];
      var i := 0;
      NoCasts(p, phi.ins, w, node + 1);
      while i < |phi.ins|
        invariant 0 <= i <= |phi.ins| && next == node + 1 + CastCount(phi.ins[..i])
        invariant wide == WideIns(phi.ins[..i], node + 1)
        invariant blocks == WithCasts(p, phi.ins[..i], w, node + 1)
        invariant CastWidths(start, phi.ins, node + 1) == CastWidths(widths, phi.ins[i..], next)
      {
        var inc := phi.ins[i];
        assert phi.ins[..i + 1] == phi.ins[..i] + [inc] && phi.ins[i..][0] == inc && phi.ins[i..][1..] == phi.ins[i + 1..];
        CastAdded(p, phi.ins[..i], inc, w, node + 1);
        CastWidthsStep(widths, phi.ins[i..], next);
        if inc.v.Imm? {
          wide := wide + [Incoming(Imm(Limited(inc.v.v)), inc.block)];
        } else {
          var into := blocks[inc.block];
          blocks := blocks[inc.block := into.(body := into.body + [Cast(next, w, WIDE, inc.v)])];
          wide := wide + [Incoming(Use(next), inc.block)];
          widths, next := widths[next := WIDE], next + 1;
        }
        i := i + 1;
      }
      assert phi.ins[..i] == phi.ins;
      CastWidthsEnd(widths, phi.ins[i..], next);
      blocks := blocks[b := WithTrunc(blocks[b], j, w, node, wide)];
    }

    // Collects all phis first, then converts them one by one.
    method ConvertPHIs(ghost slots: Widths)
      requires Ready(blocks, widths, slots, next) && AllNarrow(blocks, widths)
      modifies this
      ensures Simulates(old(blocks), old(widths), blocks, old(next)) && Sound(blocks)
      ensures forall c, k :: 0 <= c < |blocks| && 0 <= k < |blocks[c].phis| ==> WideAt(blocks, widths, c, k)
    {
      hide Ready, Simulates, WidthsAfter, NextAfter, Widened;
      ghost var p, ws, n := blocks, widths, next;
      var phis := Collect();
      PlacesExact(blocks, 0);
      var i := 0;
      ConvertedSelf(blocks, widths, next);
      ReadyNarrow(blocks, widths, slots, next);
      while i < |phis|
        invariant 0 <= i <= |phis| && |blocks| == |p| && forall c :: 0 <= c < |p| ==> |blocks[c].phis| == |p[c].phis|
        invariant Ready(blocks, widths, slots, next) && Converted(p, ws, n, blocks, widths, next)
        invariant forall c, k :: 0 <= c < |p| && 0 <= k < |p[c].phis| ==> NarrowAt(blocks, widths, c, k)
        invariant forall m :: 0 <= m < i ==> WideAt(blocks, widths, phis[m].0, phis[m].1)
      {
        var (b, j) := phis[i];
        assert (b, j) in phis;
        assert NarrowAt(blocks, widths, b, j);
        ReadyEdges(blocks, widths, slots, next, b, j);
        ghost var q, ws', n' := blocks, widths, next;
        ConvertPHI(b, j);
        if q[b].phis[j].x in ws' && ws'[q[b].phis[j].x] != WIDE {
          WidenedReady(q, ws', slots, b, j, n');
          WidenedSimulates(q, ws', slots, b, j, n');
          ConvertedTrans(p, ws, n, q, ws', n', blocks, widths, next);
          WidthsKept(q, ws', b, j, n');
        }
        i := i + 1;
      }
      forall c, k | 0 <= c < |blocks| && 0 <= k < |blocks[c].phis| ensures WideAt(blocks, widths, c, k) {
        assert (c, k) in phis;
      }
      ReadySound(blocks, widths, slots, next);
      ConvertedSimulates(p, ws, n, blocks, widths, next);
    }

    method Collect() returns (phis: seq<(nat, nat)>)
      ensures phis == Places(blocks, 0)
    {
      phis := [];
      var c := 0;
      while c < |blocks|
        invariant 0 <= c <= |blocks| && phis + Places(blocks, c) == Places(blocks, 0)
      {
        var k := 0;
        ghost var here, start := PlacesAt(|blocks[c].phis|, c), phis;
        assert Places(blocks, c) == here + Places(blocks, c + 1);
        hide Places;
        assert start + here[..0] == start;
        while k < |blocks[c].phis|
          invariant 0 <= k <= |blocks[c].phis| && phis == start + here[..k]
        {
          phis := phis + [(c, k)];
          assert here[..k + 1] == here[..k] + [here[k]];
          Regroup(start, here[..k], [here[k]]);
          k := k + 1;
        }
        assert here[..k] == here;
        Regroup(start, here, Places(blocks, c + 1));
        c := c + 1;
      }
    }
  }

  lemma {:induction false} WidthsKept(p: Program, ws: Widths, b: nat, j: nat, n: nat)
    requires Below(p, n) && b < |p| && j < |p[b].phis| && p[b].phis[j].x in ws
    ensures var q, ws' := Widened(p, b, j, ws[p[b].phis[j].x], n), WidthsAfter(ws, p[b].phis[j].ins, n);
      && (forall c :: 0 <= c < |p| ==> |q[c].phis| == |p[c].phis|)
      && forall c, k :: 0 <= c < |p| && 0 <= k < |p[c].phis| ==>
           && (WideAt(p, ws, c, k) || (c, k) == (b, j) ==> WideAt(q, ws', c, k))
           && (NarrowAt(p, ws, c, k) ==> NarrowAt(q, ws', c, k))
  {
    hide Widened, WidthsAfter, Below;
    WidenedPhis(p, ws, b, j, ws[p[b].phis[j].x], n);
  }

  lemma {:induction false} ReadyNarrow(p: Program, ws: Widths, slots: Widths, n: nat)
    requires Ready(p, ws, slots, n) && AllNarrow(p, ws)
    ensures forall c, k :: 0 <= c < |p| && 0 <= k < |p[c].phis| ==> NarrowAt(p, ws, c, k)
  {
    forall c, k | 0 <= c < |p| && 0 <= k < |p[c].phis| ensures NarrowAt(p, ws, c, k) {
      assert p[c].phis[k] in p[c].phis && PhiTyped(ws, p[c].phis[k]);
    }
  }

  lemma {:induction false} ReadyEdges(p: Program, ws: Widths, slots: Widths, n: nat, b: nat, j: nat)
    requires Ready(p, ws, slots, n) && b < |p| && j < |p[b].phis|
    ensures Below(p, n) && forall i :: 0 <= i < |p[b].phis[j].ins| ==> p[b].phis[j].ins[i].block < |p|
  {
    assert PhisListed(p, b) && p[b].phis[j] in p[b].phis;
  }

  lemma {:induction false} ReadySound(p: Program, ws: Widths, slots: Widths, n: nat)
    requires Ready(p, ws, slots, n)
    ensures Sound(p)
  {
  }

  lemma {:induction false} ConvertedSimulates(p: Program, ws: Widths, n: nat, q: Program, ws': Widths, n': nat)
    requires Converted(p, ws, n, q, ws', n')
    ensures Simulates(p, ws, q, n)
  {
  }

  // One more operand of the phi handled.
  lemma {:induction false} CastAdded(p: Program, ins: seq<Incoming>, inc: Incoming, w: nat, n: nat)
    requires inc.block < |p|
    ensures CastCount(ins + [inc]) == CastCount(ins) + if inc.v.Imm? then 0 else 1
    ensures WideIns(ins + [inc], n)
      == WideIns(ins, n) + [Incoming(if inc.v.Imm? then Imm(Limited(inc.v.v)) else Use(n + CastCount(ins)), inc.block)]
    ensures var q := WithCasts(p, ins, w, n);
      WithCasts(p, ins + [inc], w, n)
        == if inc.v.Imm? then q else q[inc.block := q[inc.block].(body := q[inc.block].body + [Cast(n + CastCount(ins), w, WIDE, inc.v)])]
  {
    hide Pow2, Limited;
    WideSnoc(ins, inc, n);
    assert [inc][1..] == [];
    hide WideIns, CastCount;
    var q := WithCasts(p, ins, w, n);
    var r := if inc.v.Imm? then q
             else q[inc.block := q[inc.block].(body := q[inc.block].body + [Cast(n + CastCount(ins), w, WIDE, inc.v)])];
    forall c | 0 <= c < |p| ensures WithCasts(p, ins + [inc], w, n)[c] == r[c] {
      CastsSnoc(ins, inc, c, w, n);
      OneCast(inc, c, w, n + CastCount(ins));
      hide CastsFor;
      Regroup(p[c].body, CastsFor(ins, c, w, n), CastsFor([inc], c, w, n + CastCount(ins)));
      assert q[c].body + [] == q[c].body;
    }
  }

  lemma {:induction false} OneCast(inc: Incoming, c: nat, w: nat, n: nat)
    ensures CastsFor([inc], c, w, n) == if inc.v.Use? && inc.block == c then [Cast(n, w, WIDE, inc.v)] else []
  {
    assert [inc][1..] == [];
  }

  lemma {:induction false} NoCasts(p: Program, ins: seq<Incoming>, w: nat, n: nat)
    ensures ins[..0] == [] && ins[0..] == ins && CastCount(ins[..0]) == 0 && WideIns(ins[..0], n) == [] && WithCasts(p, ins[..0], w, n) == p
  {
    forall c | 0 <= c < |p| ensures WithCasts(p, [], w, n)[c] == p[c] { assert p[c].body + [] == p[c].body; }
  }

  lemma {:induction false} CastWidthsStep(ws: Widths, ins: seq<Incoming>, n: nat)
    requires ins != []
    ensures CastWidths(ws, ins, n)
         == if ins[0].v.Imm? then CastWidths(ws, ins[1..], n) else CastWidths(ws[n := WIDE], ins[1..], n + 1)
  {
  }

  lemma {:induction false} CastWidthsEnd(ws: Widths, ins: seq<Incoming>, n: nat)
    requires ins == []
    ensures CastWidths(ws, ins, n) == ws
  {
  }

  // A conversion makes its phi wide and leaves the others as they are.
  lemma {:induction false} WidenedPhis(p: Program, ws: Widths, b: nat, j: nat, w: nat, n: nat)
    requires Below(p, n) && b < |p| && j < |p[b].phis|
    ensures var q, ws' := Widened(p, b, j, w, n), WidthsAfter(ws, p[b].phis[j].ins, n);
      && (forall c :: 0 <= c < |p| ==> |q[c].phis| == |p[c].phis|)
      && q[b].phis[j].x == n && n in ws' && ws'[n] == WIDE
      && forall c, k :: 0 <= c < |p| && 0 <= k < |p[c].phis| && (c, k) != (b, j) ==>
           var x := p[c].phis[k].x; q[c].phis[k] == p[c].phis[k] && (x in ws' <==> x in ws) && (x in ws ==> ws'[x] == ws[x])
  {
    hide Widened, CastWidths, CastsFor, WideIns;
    var q := Widened(p, b, j, w, n);
    CastWidthsBelow(ws[n := WIDE], p[b].phis[j].ins, n + 1);
    forall c | 0 <= c < |p| ensures |q[c].phis| == |p[c].phis| { WidenedShape(p, b, j, w, n, c); }
    WidenedShape(p, b, j, w, n, b);
    forall c, k | 0 <= c < |p| && 0 <= k < |p[c].phis| && (c, k) != (b, j)
      ensures q[c].phis[k] == p[c].phis[k] && p[c].phis[k].x < n
    {
      WidenedShape(p, b, j, w, n, c);
      assert BlockBelow(p[c], n) && PhiBelow(p[c].phis[k], n);
    }
  }

  // Integer phi k of block c is wide.
  ghost predicate WideAt(p: Program, ws: Widths, c: nat, k: nat)
    requires c < |p| && k < |p[c].phis|
  {
    p[c].phis[k].x in ws ==> ws[p[c].phis[k].x] == WIDE
  }

  ghost predicate NarrowAt(p: Program, ws: Widths, c: nat, k: nat)
    requires c < |p| && k < |p[c].phis|
  {
    p[c].phis[k].x in ws ==> 0 < ws[p[c].phis[k].x] <= WIDE
  }

  lemma {:induction false} WideOperands(ins: seq<Incoming>, n: nat)
    ensures |WideIns(ins, n)| == |ins|
    ensures forall k :: 0 <= k < |ins| ==> var o := WideIns(ins, n)[k];
      o.block == ins[k].block && (if ins[k].v.Imm? then o.v == Imm(Limited(ins[k].v.v)) else o.v.Use? && o.v.x >= n)
    ensures forall i, k :: 0 <= i < k < |ins| && ins[i].v.Use? && ins[k].v.Use? ==> WideIns(ins, n)[i].v != WideIns(ins, n)[k].v
  {
    hide Limited;
    if ins != [] {
      assert forall k :: 0 <= k < |ins[1..]| ==> ins[1..][k] == ins[k + 1];
      WideOperands(ins[1..], if ins[0].v.Imm? then n else n + 1);
    }
  }

  // An edge listed twice keeps one operand exactly when the operand is a constant: otherwise each listing gets a cast.
  lemma {:induction false} WideConsistent(ins: seq<Incoming>, n: nat)
    requires Consistent(ins)
    ensures Consistent(WideIns(ins, n)) <==> forall i, k :: 0 <= i < k < |ins| && ins[i].block == ins[k].block ==> ins[k].v.Imm?
  {
    hide Limited;
    WideOperands(ins, n);
    var wide := WideIns(ins, n);
    if i, k :| 0 <= i < k < |ins| && ins[i].block == ins[k].block && ins[k].v.Use? {
      assert ins[i].v == ins[k].v;
      assert wide[i].block == wide[k].block && wide[i].v != wide[k].v;
    } else {
      forall i, k | 0 <= i < |wide| && 0 <= k < |wide| && wide[i].block == wide[k].block ensures wide[i].v == wide[k].v {
        assert ins[i].v == ins[k].v;
        if i < k { assert ins[k].v.Imm?; } else if k < i { assert ins[i].v.Imm?; }
      }
    }
  }
}

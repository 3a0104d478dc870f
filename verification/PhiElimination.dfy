// Phis become stack slots: a store before every incoming edge, a load behind the remaining phis.
module PhiElimination {
  import opened Words
  import opened FlowProgram

  // ---- the rewritten program ----

  function StoresFor(ins: seq<Incoming>, block: nat, slot: nat): seq<Inst> {
    if ins == [] then []
    else (if ins[0].block == block then [Store(slot, ins[0].v)] else []) + StoresFor(ins[1..], block, slot)
  }

  function WithStores(p: Program, ins: seq<Incoming>, slot: nat): (p': Program)
    ensures |p'| == |p|
    ensures forall c :: 0 <= c < |p| ==> p'[c] == p[c].(body := p[c].body + StoresFor(ins, c, slot))
  {
    seq(|p|, c requires 0 <= c < |p| => p[c].(body := p[c].body + StoresFor(ins, c, slot)))
  }

  // The load takes over the phi's name, so that every use of the phi now reads the load.
  function WithLoad(b: Block, j: nat, slot: nat): Block
    requires j < |b.phis|
  {
    Block(b.phis[..j] + b.phis[j + 1..], [Load(b.phis[j].x, slot)] + b.body, b.term)
  }

  function Eliminated(p: Program, b: nat, j: nat, slot: nat): (p': Program)
    requires b < |p| && j < |p[b].phis|
    ensures |p'| == |p|
  {
    var q := WithStores(p, p[b].phis[j].ins, slot);
    q[b := WithLoad(q[b], j, slot)]
  }

  // The phis of the program from block c on, as they are collected.
  function Collected(p: Program, c: nat): seq<(nat, nat)>
    requires c <= |p|
    decreases |p| - c
  {
    if c == |p| then [] else PhisAt(p[c].phis, c) + Collected(p, c + 1)
  }

  function PhisAt(phis: seq<Phi>, c: nat): seq<(nat, nat)> {
    seq(|phis|, k requires 0 <= k < |phis| => (c, phis[k].x))
  }

  class Rewriter {
    var blocks: Program
    // Slots allocated so far: 0 up to this.
    var slots: nat

    constructor (p: Program, used: nat)
      ensures blocks == p && slots == used
    {
      blocks := p;
      slots := used;
    }

    // Replaces phi j of block b by a slot of its own.
    method HandlePHI(b: nat, j: nat)
      requires b < |blocks| && j < |blocks[b].phis|
      requires forall i :: 0 <= i < |blocks[b].phis[j].ins| ==> blocks[b].phis[j].ins[i].block < |blocks|
      modifies this
      ensures slots == old(slots) + 1
      ensures blocks == Eliminated(old(blocks), b, j, old(slots))
    {
      ghost var p := blocks;
      var phi, slot := blocks[b].phis[j], slots;
      slots := slots + 1;
      var i := 0;
      assert phi.ins[..0] == [];
      forall c | 0 <= c < |p| ensures p[c] == WithStores(p, [], slot)[c] { assert p[c].body + [] == p[c].body; }
      while i < |phi.ins|
        invariant 0 <= i <= |phi.ins| && slots == slot + 1
        invariant blocks == WithStores(p, phi.ins[..i], slot)
      {
        var inc := phi.ins[i];
        StoresSnoc(phi.ins[..i], inc, slot);
        assert phi.ins[..i + 1] == phi.ins[..i] + [inc];
        var into := blocks[inc.block];
        ghost var before := blocks;
        blocks := blocks[inc.block := into.(body := into.body + [Store(slot, inc.v)])];
        forall c | 0 <= c < |p| ensures blocks[c] == WithStores(p, phi.ins[..i + 1], slot)[c] {
          assert p[c].body + StoresFor(phi.ins[..i], c, slot) + [Store(slot, inc.v)]
              == p[c].body + (StoresFor(phi.ins[..i], c, slot) + [Store(slot, inc.v)]);
        }
        i := i + 1;
      }
      assert phi.ins[..i] == phi.ins;
      blocks := blocks[b := WithLoad(blocks[b], j, slot)];
    }

    // Collects all phis first, then replaces them one by one.
    method RunOnFunction()
      requires PhisOk(blocks) && SlotsBelow(blocks, slots)
      modifies this
      ensures |blocks| == |old(blocks)| && (forall c :: 0 <= c < |blocks| ==> blocks[c].phis == [])
      ensures Simulates(old(blocks), blocks)
    {
      hide Collected, Eliminated, SlotsBelow;
      ghost var p := blocks;
      var pns := Collect();
      var i := 0;
      assert pns[0..] == pns;
      SimulatesSelf(blocks);
      while i < |pns|
        invariant 0 <= i <= |pns| && |blocks| == |p| && PhisOk(blocks) && SlotsBelow(blocks, slots)
        invariant Collected(blocks, 0) == pns[i..]
        invariant Simulates(p, blocks)
      {
        var (b, x) := pns[i];
        assert pns[i..][0] == pns[i] && pns[i..][1..] == pns[i + 1..];
        FirstCollected(blocks, 0);
        ghost var before := blocks;
        var slot := slots;
        assert BlockPhisOk(blocks, b);
        HandlePHI(b, 0);
        EliminatedKeeps(before, b, 0, slot);
        EliminatedCollects(before, 0, b, slot);
        EliminationSimulates(before, b, 0, slot);
        SimulatesTrans(p, before, blocks);
        i := i + 1;
      }
      NoneCollected(blocks, 0);
    }

    method Collect() returns (pns: seq<(nat, nat)>)
      ensures pns == Collected(blocks, 0)
    {
      pns := [];
      var c := 0;
      while c < |blocks|
        invariant 0 <= c <= |blocks| && pns + Collected(blocks, c) == Collected(blocks, 0)
      {
        var k := 0;
        ghost var here := PhisAt(blocks[c].phis, c);
        ghost var start := pns;
        assert Collected(blocks, c) == here + Collected(blocks, c + 1);
        hide Collected;
        assert start + here[..0] == start;
        while k < |blocks[c].phis|
          invariant 0 <= k <= |blocks[c].phis| && pns == start + here[..k]
        {
          pns := pns + [(c, blocks[c].phis[k].x)];
          assert here[..k + 1] == here[..k] + [here[k]];
          Regroup(start, here[..k], [here[k]]);
          k := k + 1;
        }
        assert here[..k] == here;
        Regroup(start, here, Collected(blocks, c + 1));
        c := c + 1;
      }
    }
  }

  // ---- facts about the rewriting ----

  ghost predicate SlotsBelow(p: Program, n: nat) {
    forall b, i :: 0 <= b < |p| && i in p[b].body ==> forall s :: s in SlotOf(i) ==> s < n
  }

  lemma {:induction false} StoresSnoc(ins: seq<Incoming>, inc: Incoming, slot: nat)
    ensures forall c: nat :: (StoresFor(ins + [inc], c, slot)
      == StoresFor(ins, c, slot) + (if inc.block == c then [Store(slot, inc.v)] else []))
  {
    if ins == [] {
      assert [] + [inc] == [inc] && [inc][1..] == [];
    } else {
      assert (ins + [inc])[0] == ins[0] && (ins + [inc])[1..] == ins[1..] + [inc];
      StoresSnoc(ins[1..], inc, slot);
    }
  }

  lemma {:induction false} FirstCollected(p: Program, c: nat)
    requires c <= |p| && Collected(p, c) != []
    ensures var (b, x) := Collected(p, c)[0];
      c <= b < |p| && p[b].phis != [] && p[b].phis[0].x == x && forall d :: c <= d < b ==> p[d].phis == []
    decreases |p| - c
  {
    if p[c].phis == [] { FirstCollected(p, c + 1); }
  }

  lemma {:induction false} NoneCollected(p: Program, c: nat)
    requires c <= |p| && Collected(p, c) == []
    ensures forall d :: c <= d < |p| ==> p[d].phis == []
    decreases |p| - c
  {
    if c < |p| {
      assert |p[c].phis| == 0;
      NoneCollected(p, c + 1);
    }
  }

  lemma {:induction false} SameCollected(p: Program, q: Program, c: nat)
    requires |p| == |q| && c <= |p| && forall d :: c <= d < |p| ==> p[d].phis == q[d].phis
    ensures Collected(p, c) == Collected(q, c)
    decreases |p| - c
  {
    if c < |p| { SameCollected(p, q, c + 1); }
  }

  lemma {:induction false} EliminatedCollects(p: Program, c: nat, b: nat, slot: nat)
    requires c <= b < |p| && p[b].phis != [] && forall d :: c <= d < b ==> p[d].phis == []
    ensures Collected(p, c) != [] && Collected(Eliminated(p, b, 0, slot), c) == Collected(p, c)[1..]
    decreases |p| - c
  {
    var q := Eliminated(p, b, 0, slot);
    EliminatedShape(p, b, 0, slot, b);
    assert p[b].phis[..0] == [] && [] + p[b].phis[1..] == p[b].phis[1..];
    forall d | 0 <= d < |p| && d != b ensures q[d].phis == p[d].phis { EliminatedShape(p, b, 0, slot, d); }
    DropsFirst(p, q, c, b);
  }

  lemma {:induction false} CollectedStep(p: Program, c: nat)
    requires c < |p|
    ensures Collected(p, c) == PhisAt(p[c].phis, c) + Collected(p, c + 1)
  {
  }

  lemma {:induction false} DropHead<T>(a: seq<T>, b: seq<T>)
    requires a != []
    ensures (a + b)[1..] == a[1..] + b
  {
  }

  lemma {:induction false} DropsFirst(p: Program, q: Program, c: nat, b: nat)
    requires |p| == |q| && c <= b < |p| && p[b].phis != [] && forall d :: c <= d < b ==> p[d].phis == []
    requires q[b].phis == p[b].phis[1..] && forall d :: 0 <= d < |p| && d != b ==> q[d].phis == p[d].phis
    ensures Collected(p, c) != [] && Collected(q, c) == Collected(p, c)[1..]
    decreases |p| - c
  {
    CollectedStep(p, c);
    CollectedStep(q, c);
    hide Collected;
    if c < b {
      DropsFirst(p, q, c + 1, b);
      assert p[c].phis == [] && q[c].phis == [];
      assert [] + Collected(p, c + 1) == Collected(p, c + 1) && [] + Collected(q, c + 1) == Collected(q, c + 1);
    } else {
      SameCollected(p, q, b + 1);
      DropHead(PhisAt(p[b].phis, b), Collected(p, b + 1));
      assert PhisAt(q[b].phis, b) == PhisAt(p[b].phis, b)[1..];
    }
  }

  lemma {:induction false} EliminatedShape(p: Program, b: nat, j: nat, slot: nat, c: nat)
    requires b < |p| && j < |p[b].phis| && c < |p|
    ensures var q := Eliminated(p, b, j, slot);
      var phi := p[b].phis[j];
      && q[c].term == p[c].term
      && q[c].phis == (if c == b then p[b].phis[..j] + p[b].phis[j + 1..] else p[c].phis)
      && q[c].body == (if c == b then [Load(phi.x, slot)] else []) + (p[c].body + StoresFor(phi.ins, c, slot))
  {
  }

  lemma {:induction false} EliminatedKeeps(p: Program, b: nat, j: nat, slot: nat)
    requires PhisOk(p) && SlotsBelow(p, slot) && b < |p| && j < |p[b].phis|
    ensures PhisOk(Eliminated(p, b, j, slot)) && SlotsBelow(Eliminated(p, b, j, slot), slot + 1)
  {
    hide Eliminated, StoresFor, Chosen, Succs;
    var q := Eliminated(p, b, j, slot);
    EliminatedPhis(p, b, j, slot);
    forall c, i | 0 <= c < |q| && i in q[c].body ensures forall s :: s in SlotOf(i) ==> s < slot + 1 {
      EliminatedShape(p, b, j, slot, c);
      OnlyStores(p[b].phis[j].ins, c, slot);
      if i !in p[c].body && i != Load(p[b].phis[j].x, slot) { assert i in StoresFor(p[b].phis[j].ins, c, slot); }
    }
  }

  lemma {:induction false} EliminatedPhis(p: Program, b: nat, j: nat, slot: nat)
    requires PhisOk(p) && b < |p| && j < |p[b].phis|
    ensures PhisOk(Eliminated(p, b, j, slot))
  {
    hide Eliminated, StoresFor, Chosen, Succs, Consistent, PhisListed;
    var q := Eliminated(p, b, j, slot);
    forall d | 0 <= d < |p|
      ensures q[d].term == p[d].term && q[d].phis == if d == b then p[b].phis[..j] + p[b].phis[j + 1..] else p[d].phis
    {
      EliminatedShape(p, b, j, slot, d);
    }
    forall c | 0 <= c < |p| ensures BlockPhisOk(q, c) {
      assert BlockPhisOk(p, c);
      FewerPhis(p, q, b, j, c);
    }
  }

  lemma {:induction false} FewerPhis(p: Program, q: Program, b: nat, j: nat, c: nat)
    requires |p| == |q| && b < |p| && j < |p[b].phis| && c < |p| && PhisListed(p, c)
    requires forall d :: 0 <= d < |p| ==> q[d].term == p[d].term
    requires q[c].phis == if c == b then p[b].phis[..j] + p[b].phis[j + 1..] else p[c].phis
    ensures PhisListed(q, c) && forall f :: f in q[c].phis ==> f in p[c].phis
  {
    hide Chosen, Succs;
  }

  lemma {:induction false} OnlyStores(ins: seq<Incoming>, c: nat, slot: nat)
    ensures forall i :: i in StoresFor(ins, c, slot) ==> i.Store? && i.slot == slot
  {
    if ins != [] { OnlyStores(ins[1..], c, slot); }
  }

  // ---- simulation ----

  // The two runs are at the same place with the same values and world.
  ghost predicate Same(s: State, s': State) {
    match (s, s')
    case (At(b, prev, m), At(b', prev', m')) => b == b' && prev == prev' && m.env == m'.env && m.world == m'.world
    case (Finished(v, m), Finished(v', m')) => v == v' && m.env == m'.env && m.world == m'.world
    case (Stuck, Stuck) => true
    case _ => false
  }

  // Runs from every start, on every machine, go through the same blocks with the same values.
  ghost predicate Simulates(p: Program, q: Program) {
    forall env, world, n: nat, mach :: Same(Run(p, Start(env, world), n, mach), Run(q, Start(env, world), n, mach))
  }

  lemma {:induction false} SimulatesSelf(p: Program)
    ensures Simulates(p, p)
  {
  }

  lemma {:induction false} SimulatesTrans(p: Program, q: Program, r: Program)
    requires Simulates(p, q) && Simulates(q, r)
    ensures Simulates(p, r)
  {
    forall env, world, n: nat, mach
      ensures Same(Run(p, Start(env, world), n, mach), Run(r, Start(env, world), n, mach))
    {
      assert Same(Run(p, Start(env, world), n, mach), Run(q, Start(env, world), n, mach));
      assert Same(Run(q, Start(env, world), n, mach), Run(r, Start(env, world), n, mach));
    }
  }

  // Slots agree except for the new one.
  ghost predicate Beside(slots: Env, slots': Env, slot: nat) {
    forall s :: s != slot ==> (s in slots <==> s in slots') && (s in slots ==> slots[s] == slots'[s])
  }

  ghost predicate NearMem(m: Mem, m': Mem, slot: nat) {
    m.env == m'.env && m.world == m'.world && Beside(m.slots, m'.slots, slot)
  }

  // Between blocks the new slot holds what the phi would read along the edge just taken.
  ghost predicate Related(s: State, s': State, ins: seq<Incoming>, slot: nat) {
    match (s, s')
    case (At(b, prev, m), At(b', prev', m')) =>
      && b == b' && prev == prev' && NearMem(m, m', slot)
      && (prev.Some? && Chosen(ins, prev.value).Some? ==>
            slot in m'.slots && m'.slots[slot] == Eval(Chosen(ins, prev.value).value, m.env))
    case (Finished(v, m), Finished(v', m')) => v == v' && NearMem(m, m', slot)
    case (Stuck, Stuck) => true
    case _ => false
  }

  lemma {:induction false} BodyNear(body: seq<Inst>, m: Mem, m': Mem, slot: nat, mach: Machine)
    requires Untouched(body, slot) && NearMem(m, m', slot)
    ensures var e, e' := ExecAll(body, m, mach), ExecAll(body, m', mach);
      && NearMem(e, e', slot)
      && (slot in e'.slots <==> slot in m'.slots) && (slot in m'.slots ==> e'.slots[slot] == m'.slots[slot])
  {
    if body != [] {
      TailIn(body);
      BodyNear(body[1..], Exec(body[0], m, mach), Exec(body[0], m', mach), slot, mach);
    }
  }

  // The stores at the end of block c leave the incoming value in the slot, and nothing else changes.
  lemma {:induction false} StoresRun(ins: seq<Incoming>, c: nat, slot: nat, m: Mem, mach: Machine)
    requires Consistent(ins)
    ensures var e := ExecAll(StoresFor(ins, c, slot), m, mach);
      && e.env == m.env && e.world == m.world && Beside(m.slots, e.slots, slot)
      && (if Chosen(ins, c).Some? then slot in e.slots && e.slots[slot] == Eval(Chosen(ins, c).value, m.env)
          else e.slots == m.slots)
  {
    if ins != [] {
      var rest := ins[1..];
      assert Consistent(rest) by {
        forall i, j | 0 <= i < |rest| && 0 <= j < |rest| && rest[i].block == rest[j].block ensures rest[i].v == rest[j].v {
          assert rest[i] == ins[i + 1] && rest[j] == ins[j + 1];
        }
      }
      if ins[0].block == c {
        var s := Store(slot, ins[0].v);
        var m1 := Exec(s, m, mach);
        ExecAppend([s], StoresFor(rest, c, slot), m, mach);
        assert ExecAll([s], m, mach) == m1 by { assert [s][1..] == []; }
        StoresRun(rest, c, slot, m1, mach);
        ChosenSame(ins, c);
      } else {
        assert [] + StoresFor(rest, c, slot) == StoresFor(rest, c, slot);
        StoresRun(rest, c, slot, m, mach);
      }
    }
  }

  lemma {:induction false} ChosenSame(ins: seq<Incoming>, c: nat)
    requires Consistent(ins) && ins != [] && ins[0].block == c
    ensures Chosen(ins[1..], c).Some? ==> Chosen(ins[1..], c).value == ins[0].v
  {
    ChosenListed(ins[1..], c);
    forall k | 0 <= k < |ins[1..]| ensures ins[1..][k] == ins[k + 1] {}
  }

  // Entering a block: the load makes up for the phi that is gone.
  lemma {:induction false} EntryRelated(p: Program, b: nat, j: nat, slot: nat, s: State, s': State, mach: Machine)
    requires PhisOk(p) && b < |p| && j < |p[b].phis|
    requires s.At? && s'.At? && s.block < |p| && Related(s, s', p[b].phis[j].ins, slot)
    requires s.block == b ==> s.prev.Some? && s.prev.value < |p| && b in Succs(p[s.prev.value].term)
    ensures var load := if s.block == b then [Load(p[b].phis[j].x, slot)] else [];
      NearMem(Entered(p[s.block], s), ExecAll(load, Entered(Eliminated(p, b, j, slot)[s.block], s'), mach), slot)
  {
    EliminatedShape(p, b, j, slot, s.block);
    if s.block == b {
      assert BlockPhisOk(p, b);
      assert p[b].phis[j] in p[b].phis;
      EnterWithout(p[b].phis, j, s.prev, s.mem.env, s.mem.env);
      assert [Load(p[b].phis[j].x, slot)][1..] == [];
    }
  }

  // The body runs alike, and the stores put the value for the edge to come into the slot.
  lemma {:induction false} BodyRelated(body: seq<Inst>, load: seq<Inst>, ins: seq<Incoming>, c: nat, slot: nat, m: Mem, m': Mem, mach: Machine)
    requires Untouched(body, slot) && Consistent(ins) && NearMem(m, ExecAll(load, m', mach), slot)
    ensures var e, e' := ExecAll(body, m, mach), ExecAll(load + (body + StoresFor(ins, c, slot)), m', mach);
      && NearMem(e, e', slot)
      && (Chosen(ins, c).Some? ==> slot in e'.slots && e'.slots[slot] == Eval(Chosen(ins, c).value, e.env))
  {
    var l := ExecAll(load, m', mach);
    ExecAppend(load, body + StoresFor(ins, c, slot), m', mach);
    ExecAppend(body, StoresFor(ins, c, slot), l, mach);
    BodyNear(body, m, l, slot, mach);
    StoresRun(ins, c, slot, ExecAll(body, l, mach), mach);
  }

  lemma {:induction false} LeaveRelated(t: Term, c: nat, e: Mem, e': Mem, ins: seq<Incoming>, slot: nat, mach: Machine)
    requires NearMem(e, e', slot)
    requires Chosen(ins, c).Some? ==> slot in e'.slots && e'.slots[slot] == Eval(Chosen(ins, c).value, e.env)
    ensures Related(Leave(t, c, e, mach), Leave(t, c, e', mach), ins, slot)
  {
  }

  // One block of the original against the same block rewritten.
  lemma {:induction false} StepRelated(p: Program, b: nat, j: nat, slot: nat, s: State, s': State, mach: Machine)
    requires PhisOk(p) && SlotFree(p, slot) && b < |p| && j < |p[b].phis|
    requires s.At? && s'.At? && s.block < |p| && Related(s, s', p[b].phis[j].ins, slot)
    requires s.block == b ==> s.prev.Some? && s.prev.value < |p| && b in Succs(p[s.prev.value].term)
    ensures Related(Step(p, s, mach), Step(Eliminated(p, b, j, slot), s', mach), p[b].phis[j].ins, slot)
  {
    hide ExecAll, EnterPhis, StoresFor, Chosen, Eliminated, NearMem, PhisOk, Leave;
    var c, q, phi := s.block, Eliminated(p, b, j, slot), p[b].phis[j];
    var load := if c == b then [Load(phi.x, slot)] else [];
    EliminatedShape(p, b, j, slot, c);
    PhiConsistent(p, b, j);
    EntryRelated(p, b, j, slot, s, s', mach);
    var m, m' := Entered(p[c], s), Entered(q[c], s');
    BodyRelated(p[c].body, load, phi.ins, c, slot, m, m', mach);
    LeaveRelated(p[c].term, c, ExecAll(p[c].body, m, mach), ExecAll(q[c].body, m', mach), phi.ins, slot, mach);
  }

  lemma {:induction false} PhiConsistent(p: Program, b: nat, j: nat)
    requires PhisOk(p) && b < |p| && j < |p[b].phis|
    ensures Consistent(p[b].phis[j].ins)
  {
    assert BlockPhisOk(p, b);
    assert p[b].phis[j] in p[b].phis;
  }

  lemma {:induction false} RunsRelated(p: Program, b: nat, j: nat, slot: nat, env: Env, world: int, n: nat, mach: Machine)
    requires PhisOk(p) && SlotFree(p, slot) && b < |p| && j < |p[b].phis|
    ensures Arrived(p, Run(p, Start(env, world), n, mach))
    ensures Related(Run(p, Start(env, world), n, mach), Run(Eliminated(p, b, j, slot), Start(env, world), n, mach),
                    p[b].phis[j].ins, slot)
  {
    if n > 0 {
      RunsRelated(p, b, j, slot, env, world, n - 1, mach);
      var s := Run(p, Start(env, world), n - 1, mach);
      StepArrives(p, s, mach);
      if s.At? {
        assert b != 0;
        StepRelated(p, b, j, slot, s, Run(Eliminated(p, b, j, slot), Start(env, world), n - 1, mach), mach);
      }
    }
  }

  // Replacing one phi preserves every run.
  lemma {:induction false} EliminationSimulates(p: Program, b: nat, j: nat, slot: nat)
    requires PhisOk(p) && SlotsBelow(p, slot) && b < |p| && j < |p[b].phis|
    ensures Simulates(p, Eliminated(p, b, j, slot))
  {
    forall env, world, n: nat, mach
      ensures Same(Run(p, Start(env, world), n, mach), Run(Eliminated(p, b, j, slot), Start(env, world), n, mach))
    {
      RunsRelated(p, b, j, slot, env, world, n, mach);
    }
  }
}

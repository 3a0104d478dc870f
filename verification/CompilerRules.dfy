// How the entries of the compiler's value map relate to the values of a run.
module CompilerRules {
  import opened Words
  import opened LogicalNodes
  import opened LogicalProgram
  import opened NodeRules
  import opened NodeSums
  import opened Routes

  // The value map: None is an entry holding a null node.
  type Entries = map<Reg, Option<nat>>

  datatype Lookup = Absent | Null | At(id: nat)

  function Find(entries: Entries, o: Operand): Lookup {
    if o.Var? && o.x in entries then (if entries[o.x].Some? then At(entries[o.x].value) else Null) else Absent
  }

  // Empty: the entry is the null node. Invalid: reported, but the block goes on. Crash: a null node is
  // looked into, or an assertion fails.
  datatype Status = Done | Empty | Invalid | Rejected | Crash

  ghost predicate EntriesIn(t: Table, entries: Entries) {
    forall x :: x in entries && entries[x].Some? ==> entries[x].value < |t|
  }

  // An i32 entry has the value, an i1 entry its truth.
  ghost predicate Means(t: Table, x: Reg, id: nat, m: Counts, v: u32)
    requires Acyclic(t) && Arity(t) && id < |t|
  {
    if x.Flag? then Truth(t, id, m) <==> v != 0 else Val(t, id, m) == v
  }

  ghost predicate Agree(t: Table, entries: Entries, m: Counts, env: Env)
    requires Acyclic(t) && Arity(t) && EntriesIn(t, entries)
  {
    forall x :: x in entries && entries[x].Some? && x in env ==> Means(t, x, entries[x].value, m, env[x])
  }

  // ---- the supported fragment, instruction by instruction ----

  predicate IsWord(o: Operand) { o.Var? ==> o.x.Word? }

  predicate IsFlag(o: Operand) { if o.Var? then o.x.Flag? else o.v <= 1 }

  predicate Fragment(i: Inst) {
    match i
    case Load(x, _) => x.Word?
    // any other direct load is taken for the first match count
    case Direct(x, at) => x.Word? && at.MatchCounts?
    case Foreign(_) => true
    // a swapped compare keeps its predicate
    case ICmp(x, p, a, b) => x.Flag? && IsWord(a) && IsWord(b) && (a.Const? ==> p == EQ || p == NE)
    case AddI(x, a, b) => x.Word? && IsWord(a) && IsWord(b)
    case AndI(x, a, b) => x.Flag? && IsFlag(a) && IsFlag(b)
    case OrI(x, a, b) => x.Flag? && IsFlag(a) && IsFlag(b)
    case XorI(x, a, b) => x.Flag? && IsFlag(a) && IsFlag(b)
    case ZExt(x, a, _, _) => x.Word? && IsFlag(a)
    case Select(x, c, a, b) => x.Flag? && IsFlag(c) && IsFlag(a) && IsFlag(b)
  }

  ghost predicate PhiFragment(p: Phi) {
    && p.x.Flag? && (forall i :: 0 <= i < |p.ins| ==> IsFlag(p.ins[i].value))
    && forall i, j :: 0 <= i < |p.ins| && 0 <= j < |p.ins| && p.ins[i].block == p.ins[j].block ==>
         p.ins[i].value == p.ins[j].value
  }

  predicate TermFragment(t: Term) {
    match t
    case Br(_) => true
    case CondBr(c, _, _) => IsFlag(c)
    case Ret(v) => IsFlag(v)
  }

  // Topological layout, SSA, one return, and each instruction in the fragment.
  ghost predicate Supported(f: Func) {
    && Forward(f) && SSA(f)
    && (forall b :: 0 <= b < |f| ==>
         && (forall p :: p in f[b].phis ==> PhiFragment(p))
         && (forall i :: i in f[b].insts ==> Fragment(i))
         && TermFragment(f[b].term))
    && forall a, b :: 0 <= a < |f| && 0 <= b < |f| && f[a].term.Ret? && f[b].term.Ret? ==> a == b
  }

  // Instructions that are compiled whenever their operands have nodes.
  predicate AlwaysTaken(i: Inst) {
    match i
    case Load(_, _) => true
    case Direct(_, _) => true
    case ICmp(_, p, _, _) => Against(i).Const? && Measured(i).Var? && Unsigned(p) && !Trivial(p, Against(i).v)
    case AddI(_, a, b) => a.Var? && b.Const?
    case AndI(_, a, b) => a.Var? && b.Var?
    case OrI(_, a, b) => a.Var? && b.Var?
    case ZExt(_, a, from, to) => a.Var? && from == 1 && to == 32
    case _ => false
  }

  ghost predicate HaveNodes(entries: Entries, xs: set<Reg>) { forall x :: x in xs ==> Find(entries, Var(x)).At? }

  ghost predicate UsesFound(entries: Entries, i: Inst) { forall o :: o in Uses(i) && o.Var? ==> Find(entries, o).At? }

  lemma {:induction false} TakenOperands(entries: Entries, i: Inst)
    requires AlwaysTaken(i) && UsesFound(entries, i)
    ensures i.ICmp? ==> Find(entries, Measured(i)).At?
    ensures i.AddI? || i.AndI? || i.OrI? || i.ZExt? ==> Find(entries, i.a).At?
    ensures i.AndI? || i.OrI? ==> Find(entries, i.b).At?
  {
    if i.ICmp? { assert Measured(i) in Uses(i); }
    if i.AddI? || i.AndI? || i.OrI? || i.ZExt? { assert i.a in Uses(i); }
    if i.AndI? || i.OrI? { assert i.b in Uses(i); }
  }

  lemma {:induction false} ReadyFound(entries: Entries, i: Inst, have: set<Reg>)
    requires HaveNodes(entries, have) && InstReady(i, have)
    ensures UsesFound(entries, i)
  {
    forall o | o in Uses(i) && o.Var? ensures Find(entries, o).At? { assert Ready(o, have) && Find(entries, Var(o.x)).At?; }
  }

  // ---- one instruction ----

  // Whatever run the entries agreed with before instruction i they agree with after it.
  ghost predicate Keeps(t: Table, entries: Entries, t': Table, entries': Entries, i: Inst)
    requires Acyclic(t) && Arity(t) && EntriesIn(t, entries)
    requires Acyclic(t') && Arity(t') && EntriesIn(t', entries')
  {
    forall input: Input, env: Env ::
      Agree(t, entries, input.counts, env) && (i.x in env ==> InstHolds(i, env, input)) ==>
        Agree(t', entries', input.counts, env)
  }

  // The node of an instruction has the instruction's value in every run the entries agree with.
  ghost predicate NodeFor(t: Table, entries: Entries, t': Table, i: Inst, id: nat)
    requires Acyclic(t) && Arity(t) && EntriesIn(t, entries) && Acyclic(t') && Arity(t') && id < |t'|
  {
    forall input: Input, env: Env ::
      Agree(t, entries, input.counts, env) && InstHolds(i, env, input) ==>
        Means(t', i.x, id, input.counts, EvalInst(i, env, input))
  }

  lemma {:induction false} AgreeExtends(t: Table, t': Table, entries: Entries, m: Counts, env: Env)
    requires Acyclic(t) && Arity(t) && EntriesIn(t, entries) && Acyclic(t') && Arity(t') && t <= t'
    ensures EntriesIn(t', entries) && (Agree(t', entries, m, env) <==> Agree(t, entries, m, env))
  {
    forall x | x in entries && entries[x].Some? && x in env
      ensures Means(t', x, entries[x].value, m, env[x]) <==> Means(t, x, entries[x].value, m, env[x])
    {
      ValExtends(t, t', entries[x].value, m);
    }
  }

  lemma {:induction false} KeepsEntry(t: Table, entries: Entries, t': Table, i: Inst, id: nat)
    requires Acyclic(t) && Arity(t) && EntriesIn(t, entries) && Acyclic(t') && Arity(t') && t <= t' && id < |t'|
    requires NodeFor(t, entries, t', i, id)
    ensures EntriesIn(t', entries[i.x := Some(id)]) && Keeps(t, entries, t', entries[i.x := Some(id)], i)
  {
    hide Val;
    var entries' := entries[i.x := Some(id)];
    forall input: Input, env: Env | Agree(t, entries, input.counts, env) && (i.x in env ==> InstHolds(i, env, input))
      ensures Agree(t', entries', input.counts, env)
    {
      AgreeExtends(t, t', entries, input.counts, env);
    }
  }

  // No entry, or a null one, agrees with everything.
  lemma {:induction false} KeepsNothing(t: Table, entries: Entries, t': Table, entries': Entries, i: Inst)
    requires Acyclic(t) && Arity(t) && EntriesIn(t, entries) && Acyclic(t') && Arity(t') && t <= t'
    requires entries' == entries || entries' == entries[i.x := None]
    ensures EntriesIn(t', entries') && Keeps(t, entries, t', entries', i)
  {
    hide Val;
    forall input: Input, env: Env | Agree(t, entries, input.counts, env) ensures Agree(t', entries', input.counts, env) {
      AgreeExtends(t, t', entries, input.counts, env);
    }
  }

  // A node found for an operand has the operand's value.
  lemma {:induction false} FoundMeans(t: Table, entries: Entries, t': Table, o: Operand, id: nat, m: Counts, env: Env)
    requires Acyclic(t) && Arity(t) && EntriesIn(t, entries) && Acyclic(t') && Arity(t') && t <= t'
    requires Find(entries, o) == At(id) && Agree(t, entries, m, env) && Ready(o, env.Keys)
    ensures id < |t| && Means(t', o.x, id, m, Eval(o, env))
  {
    ValExtends(t, t', id, m);
  }

  // ---- compares ----

  predicate Unsigned(p: Predicate) { p in {EQ, NE, UGT, UGE, ULT, ULE} }

  // Compares that hold of every count are refused.
  predicate Trivial(p: Predicate, v: u32) { (p == UGE && v == 0) || (p == ULE && v == ALL_ONES) }

  // The strict bound of an order.
  function Bound(p: Predicate, v: u32): u32
    requires !Trivial(p, v)
  {
    if p == UGE then v - 1 else if p == ULE then v + 1 else v
  }

  predicate Over(p: Predicate) { p == UGT || p == UGE }

  predicate Under(p: Predicate) { p == ULT || p == ULE }

  // Above zero, for which the node compared comes back as it is.
  predicate PassesThrough(p: Predicate, v: u32) { !Trivial(p, v) && Over(p) && Bound(p, v) == 0 }

  // A constant on the left changes places with the right operand.
  function Measured(i: Inst): Operand
    requires i.ICmp?
  {
    if i.a.Const? then i.b else i.a
  }

  function Against(i: Inst): Operand
    requires i.ICmp?
  {
    if i.a.Const? then i.a else i.b
  }

  ghost predicate ComparesAs(t: Table, r: nat, n: nat, p: Predicate, v: u32)
    requires Acyclic(t) && Arity(t) && r < |t| && n < |t|
  {
    forall m: Counts :: Truth(t, r, m) <==> Compare(p, Val(t, n, m), v)
  }

  // Strict orders and equality, as compares.
  lemma {:induction false} MeansCompares(t: Table, r: nat, n: nat, p: Predicate, v: u32)
    requires Acyclic(t) && Arity(t) && r < |t| && n < |t| && Unsigned(p) && p != NE && !Trivial(p, v)
    requires if p == EQ then EqMeans(t, r, n, v)
             else if p == UGT || p == UGE then GtMeans(t, r, n, Bound(p, v)) else LtMeans(t, r, n, Bound(p, v))
    ensures ComparesAs(t, r, n, p, v)
  {
    hide Val;
    forall m: Counts ensures Truth(t, r, m) <==> Compare(p, Val(t, n, m), v) {}
  }

  lemma {:induction false} CompareNode(t: Table, entries: Entries, t': Table, i: Inst, o: Operand, v: u32, n: nat, r: nat)
    requires Acyclic(t) && Arity(t) && EntriesIn(t, entries) && Acyclic(t') && Arity(t') && t <= t' && r < |t'|
    requires i.ICmp? && Fragment(i) && Unsigned(i.p)
    requires (o, Const(v)) == if i.a.Const? then (i.b, i.a) else (i.a, i.b)
    requires Find(entries, o) == At(n) && n < |t| && ComparesAs(t', r, n, i.p, v)
    ensures NodeFor(t, entries, t', i, r)
  {
    hide Val;
    forall input: Input, env: Env | Agree(t, entries, input.counts, env) && InstHolds(i, env, input)
      ensures Means(t', i.x, r, input.counts, EvalInst(i, env, input))
    {
      assert Ready(o, env.Keys) by { assert o in Uses(i); }
      FoundMeans(t, entries, t', o, n, input.counts, env);
      assert Truth(t', r, input.counts) <==> Compare(i.p, Val(t', n, input.counts), v);
    }
  }

  // ---- the other instructions ----

  // The signature a load is taken to count.
  function Counted(i: Inst): u32
    requires i.Load? || i.Direct?
  {
    if i.Load? then i.sig else 0
  }

  lemma {:induction false} LoadNode(t: Table, entries: Entries, t': Table, i: Inst, r: nat)
    requires Acyclic(t) && Arity(t) && EntriesIn(t, entries) && Acyclic(t') && Arity(t') && r < |t'|
    requires (i.Load? || i.Direct?) && Fragment(i) && forall m: Counts :: Val(t', r, m) == Count(m, Counted(i))
    ensures NodeFor(t, entries, t', i, r)
  {
  }

  // The node of a direct load has the value read exactly when the load reads the match counts.
  lemma {:induction false} DirectLoadExact(t: Table, entries: Entries, t': Table, i: Inst, r: nat)
    requires Acyclic(t) && Arity(t) && EntriesIn(t, entries) && Acyclic(t') && Arity(t') && r < |t'|
    requires i.Direct? && i.x.Word? && i.x !in entries && forall m: Counts :: Val(t', r, m) == Count(m, 0)
    ensures NodeFor(t, entries, t', i, r) <==> i.at.MatchCounts?
  {
    if i.at.MatchCounts? {
      LoadNode(t, entries, t', i, r);
    } else {
      var input, env: Env := Input([], _ => 1), map[i.x := 1];
      assert Agree(t, entries, input.counts, env) && InstHolds(i, env, input);
      assert !Means(t', i.x, r, input.counts, EvalInst(i, env, input));
    }
  }

  lemma {:induction false} AddNode(t: Table, entries: Entries, t': Table, i: Inst, n: nat, l: nat, r: nat)
    requires Acyclic(t) && Arity(t) && EntriesIn(t, entries) && Acyclic(t') && Arity(t') && t <= t' && n < |t'|
    requires i.AddI? && Fragment(i) && Find(entries, i.a) == At(l) && l < |t|
    requires if i.b.Const? then forall m: Counts :: Val(t', n, m) == Plus(Val(t', l, m), i.b.v)
             else Find(entries, i.b) == At(r) && r < |t| && Adds(t', n, l, r, 0)
    ensures NodeFor(t, entries, t', i, n)
  {
    hide Val;
    forall input: Input, env: Env | Agree(t, entries, input.counts, env) && InstHolds(i, env, input)
      ensures Means(t', i.x, n, input.counts, EvalInst(i, env, input))
    {
      assert Ready(i.a, env.Keys) && Ready(i.b, env.Keys) by { assert i.a in Uses(i) && i.b in Uses(i); }
      FoundMeans(t, entries, t', i.a, l, input.counts, env);
      if i.b.Var? {
        FoundMeans(t, entries, t', i.b, r, input.counts, env);
        assert Val(t', n, input.counts) == Plus(Plus(Val(t', l, input.counts), Val(t', r, input.counts)), 0);
      }
    }
  }

  lemma {:induction false} LogicNode(t: Table, entries: Entries, t': Table, i: Inst, n: nat, l: nat, r: nat)
    requires Acyclic(t) && Arity(t) && EntriesIn(t, entries) && Acyclic(t') && Arity(t') && t <= t' && n < |t'|
    requires (i.AndI? || i.OrI?) && Fragment(i)
    requires Find(entries, i.a) == At(l) && Find(entries, i.b) == At(r) && l < |t| && r < |t|
    requires if i.AndI? then Conjoins(t', n, [l, r]) else Disjoins(t', n, [l, r])
    ensures NodeFor(t, entries, t', i, n)
  {
    hide Val;
    forall input: Input, env: Env | Agree(t, entries, input.counts, env) && InstHolds(i, env, input)
      ensures Means(t', i.x, n, input.counts, EvalInst(i, env, input))
    {
      var m := input.counts;
      assert Ready(i.a, env.Keys) && Ready(i.b, env.Keys) by { assert i.a in Uses(i) && i.b in Uses(i); }
      FoundMeans(t, entries, t', i.a, l, m, env);
      FoundMeans(t, entries, t', i.b, r, m, env);
      assert l in [l, r] && r in [l, r];
      assert AllTrue(t', [l, r], m) <==> Truth(t', l, m) && Truth(t', r, m);
      assert AnyTrue(t', [l, r], m) <==> Truth(t', l, m) || Truth(t', r, m);
    }
  }

  lemma {:induction false} XorNode(t: Table, entries: Entries, t': Table, i: Inst, n: nat, l: nat)
    requires Acyclic(t) && Arity(t) && EntriesIn(t, entries) && Acyclic(t') && Arity(t') && t <= t' && n < |t'|
    requires i.XorI? && i.b == Const(1) && Fragment(i) && Find(entries, i.a) == At(l) && l < |t| && Negates(t', n, l)
    ensures NodeFor(t, entries, t', i, n)
  {
    hide Val;
    forall input: Input, env: Env | Agree(t, entries, input.counts, env) && InstHolds(i, env, input)
      ensures Means(t', i.x, n, input.counts, EvalInst(i, env, input))
    {
      assert Ready(i.a, env.Keys) by { assert i.a in Uses(i); }
      FoundMeans(t, entries, t', i.a, l, input.counts, env);
      assert Truth(t', n, input.counts) <==> !Truth(t', l, input.counts);
    }
  }

  lemma {:induction false} ZExtNode(t: Table, entries: Entries, t': Table, i: Inst, n: nat, l: nat)
    requires Acyclic(t) && Arity(t) && EntriesIn(t, entries) && Acyclic(t') && Arity(t') && t <= t' && n < |t'|
    requires i.ZExt? && Fragment(i) && Find(entries, i.a) == At(l) && l < |t|
    requires forall m: Counts :: Val(t', n, m) == Bit(Truth(t', l, m))
    ensures NodeFor(t, entries, t', i, n)
  {
    hide Val;
    forall input: Input, env: Env | Agree(t, entries, input.counts, env) && InstHolds(i, env, input)
      ensures Means(t', i.x, n, input.counts, EvalInst(i, env, input))
    {
      assert Ready(i.a, env.Keys) by { assert i.a in Uses(i); }
      FoundMeans(t, entries, t', i.a, l, input.counts, env);
      assert Val(t', n, input.counts) == Bit(Truth(t', l, input.counts));
    }
  }

  // What a select's operand contributes: a node, or a constant.
  ghost predicate Side(t: Table, entries: Entries, o: Operand, id: Option<nat>) {
    if id.Some? then Find(entries, o) == At(id.value) && id.value < |t| else o == Const(0) || o == Const(1)
  }

  ghost predicate SideTrue(t: Table, o: Operand, id: Option<nat>, m: Counts)
    requires Acyclic(t) && Arity(t) && (id.Some? ==> id.value < |t|)
  {
    if id.Some? then Truth(t, id.value, m) else o == Const(1)
  }

  lemma {:induction false} SelectNode(t: Table, entries: Entries, t': Table, i: Inst, n: nat, c: nat, yes: Option<nat>, no: Option<nat>)
    requires Acyclic(t) && Arity(t) && EntriesIn(t, entries) && Acyclic(t') && Arity(t') && t <= t' && n < |t'|
    requires i.Select? && Fragment(i) && Find(entries, i.c) == At(c) && c < |t|
    requires Side(t, entries, i.a, yes) && Side(t, entries, i.b, no)
    requires forall m: Counts :: Truth(t', n, m) <==>
      (Truth(t', c, m) && SideTrue(t', i.a, yes, m)) || (!Truth(t', c, m) && SideTrue(t', i.b, no, m))
    ensures NodeFor(t, entries, t', i, n)
  {
    hide Val;
    forall input: Input, env: Env | Agree(t, entries, input.counts, env) && InstHolds(i, env, input)
      ensures Means(t', i.x, n, input.counts, EvalInst(i, env, input))
    {
      var m := input.counts;
      assert Ready(i.a, env.Keys) && Ready(i.b, env.Keys) && Ready(i.c, env.Keys) by {
        assert i.a in Uses(i) && i.b in Uses(i) && i.c in Uses(i);
      }
      FoundMeans(t, entries, t', i.c, c, m, env);
      if yes.Some? { FoundMeans(t, entries, t', i.a, yes.value, m, env); }
      if no.Some? { FoundMeans(t, entries, t', i.b, no.value, m, env); }
      assert Truth(t', n, m) <==>
        (Truth(t', c, m) && SideTrue(t', i.a, yes, m)) || (!Truth(t', c, m) && SideTrue(t', i.b, no, m));
    }
  }

  lemma {:induction false} NotEqual(t: Table, t': Table, n: nat, v: u32, e: nat, r: nat)
    requires Acyclic(t) && Arity(t) && Acyclic(t') && Arity(t') && t <= t' && n < |t| && e < |t| && r < |t'|
    requires EqMeans(t, e, n, v) && Negates(t', r, e)
    ensures ComparesAs(t', r, n, NE, v)
  {
    hide Val;
    forall m: Counts ensures Truth(t', r, m) <==> Val(t', n, m) != v {
      ValExtends(t, t', n, m);
      ValExtends(t, t', e, m);
      assert Truth(t, e, m) <==> Val(t, n, m) == v;
      assert Truth(t', r, m) <==> !Truth(t', e, m);
    }
  }

  lemma {:induction false} AndMeans(t: Table, n: nat, a: nat, b: nat)
    requires Acyclic(t) && Arity(t) && n < |t| && a < |t| && b < |t| && Conjoins(t, n, [a, b])
    ensures forall m: Counts :: Truth(t, n, m) <==> Truth(t, a, m) && Truth(t, b, m)
  {
    hide Val;
    forall m: Counts ensures Truth(t, n, m) <==> Truth(t, a, m) && Truth(t, b, m) {
      assert a in [a, b] && b in [a, b];
      assert AllTrue(t, [a, b], m) <==> Truth(t, a, m) && Truth(t, b, m);
    }
  }

  // n is c restricted by the operand: by node id, by nothing when the operand is one, never otherwise.
  ghost predicate SideMeans(t: Table, c: nat, id: Option<nat>, one: bool, n: Option<nat>)
    requires Acyclic(t) && Arity(t) && c < |t| && (id.Some? ==> id.value < |t|) && (n.Some? ==> n.value < |t|)
  {
    forall m: Counts ::
      (n.Some? && Truth(t, n.value, m)) <==> (Truth(t, c, m) && if id.Some? then Truth(t, id.value, m) else one)
  }

  lemma {:induction false} SideExtends(t: Table, t': Table, c: nat, id: Option<nat>, one: bool, n: Option<nat>)
    requires Acyclic(t) && Arity(t) && Acyclic(t') && Arity(t') && t <= t'
    requires c < |t| && (id.Some? ==> id.value < |t|) && (n.Some? ==> n.value < |t|)
    requires SideMeans(t, c, id, one, n)
    ensures SideMeans(t', c, id, one, n)
  {
    hide Val;
    forall m: Counts
      ensures (n.Some? && Truth(t', n.value, m)) <==> (Truth(t', c, m) && if id.Some? then Truth(t', id.value, m) else one)
    {
      ValExtends(t, t', c, m);
      if id.Some? { ValExtends(t, t', id.value, m); }
      if n.Some? { ValExtends(t, t', n.value, m); }
      assert (n.Some? && Truth(t, n.value, m)) <==> (Truth(t, c, m) && if id.Some? then Truth(t, id.value, m) else one);
    }
  }

  lemma {:induction false} SelectJoined(t1: Table, t2: Table, t3: Table, t: Table, c: nat, oa: Operand, yes: Option<nat>, n: Option<nat>,
                     not: nat, ob: Operand, no: Option<nat>, n2: Option<nat>, r: nat)
    requires Acyclic(t1) && Arity(t1) && Acyclic(t2) && Arity(t2) && Acyclic(t3) && Arity(t3) && Acyclic(t) && Arity(t)
    requires t1 <= t2 <= t3 <= t && c < |t1| && not < |t2| && r < |t|
    requires (yes.Some? ==> yes.value < |t1|) && (n.Some? ==> n.value < |t1|)
    requires (no.Some? ==> no.value < |t2|) && (n2.Some? ==> n2.value < |t3|)
    requires SideMeans(t1, c, yes, oa == Const(1) && yes.None?, n) && Negates(t2, not, c)
    requires SideMeans(t3, not, no, ob == Const(1) && no.None?, n2)
    requires if n.Some? && n2.Some? then Disjoins(t, r, [n.value, n2.value])
             else if n.Some? then r == n.value else n2.Some? && r == n2.value
    ensures forall m: Counts :: Truth(t, r, m) <==>
      (Truth(t, c, m) && SideTrue(t, oa, yes, m)) || (!Truth(t, c, m) && SideTrue(t, ob, no, m))
  {
    hide Val;
    SideExtends(t1, t, c, yes, oa == Const(1) && yes.None?, n);
    SideExtends(t3, t, not, no, ob == Const(1) && no.None?, n2);
    NegatesExtends(t2, t, not, c);
    forall m: Counts ensures Truth(t, r, m) <==>
      (Truth(t, c, m) && SideTrue(t, oa, yes, m)) || (!Truth(t, c, m) && SideTrue(t, ob, no, m))
    {
      assert Truth(t, not, m) <==> !Truth(t, c, m);
      if n.Some? && n2.Some? {
        assert n.value in [n.value, n2.value] && n2.value in [n.value, n2.value];
        assert AnyTrue(t, [n.value, n2.value], m) <==> Truth(t, n.value, m) || Truth(t, n2.value, m);
      }
      assert (n.Some? && Truth(t, n.value, m)) <==> (Truth(t, c, m) && SideTrue(t, oa, yes, m));
      assert (n2.Some? && Truth(t, n2.value, m)) <==> (Truth(t, not, m) && SideTrue(t, ob, no, m));
    }
  }
}

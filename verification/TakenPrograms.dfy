// When the compiler takes a function: what it asks of phis and branches, and what can be told of every
// value from the code alone.
module TakenPrograms {
  import opened Words
  import opened LogicalNodes
  import opened LogicalProgram
  import opened NodeRules
  import opened Routes
  import opened CompilerRules
  import opened PhiRules
  import opened CompilerProof
  import opened ShapedPrograms
  import opened DeniableNodes
  import opened NodeEstimates

  // ---- routes and phis ----

  // The condition a step leaves by has a node, which can be negated when the step goes the other way.
  ghost predicate Passable(t: Table, entries: Entries, f: Func, s: Step)
    requires Acyclic(t) && EntriesIn(t, entries)
  {
    s.block < |f| && f[s.block].term.CondBr? ==>
      var c := Find(entries, f[s.block].term.c);
      c.At? && (s.taken || Negatable(t, c.id))
  }

  ghost predicate RoutePassable(t: Table, entries: Entries, f: Func, r: Route)
    requires Acyclic(t) && EntriesIn(t, entries)
  {
    forall k :: 0 <= k < |r| ==> Passable(t, entries, f, r[k])
  }

  // A value that is not constant has a node, and there is a condition to join it with.
  ghost predicate RouteTaken(t: Table, entries: Entries, f: Func, inc: Incoming, r: Route)
    requires Acyclic(t) && EntriesIn(t, entries)
  {
    RoutePassable(t, entries, f, r) && (inc.value.Var? ==> Find(entries, inc.value).At? && Branches(f, r))
  }

  // Every route to the incoming block has a condition, and each of its steps can be passed.
  ghost predicate EdgeTaken(t: Table, entries: Entries, f: Func, inc: Incoming, all: seq<Route>)
    requires Acyclic(t) && EntriesIn(t, entries)
  {
    inc.value != Const(0) ==>
      [] !in all && forall r: Route :: r in all && EndsIn(r, inc.block) ==> Branches(f, r) && RouteTaken(t, entries, f, inc, r)
  }

  // The edge is one the phi's node is made of.
  ghost predicate EdgeCounts(inc: Incoming, all: seq<Route>) {
    inc.value != Const(0) && exists r: Route :: r in all && EndsIn(r, inc.block)
  }

  ghost predicate PhiTaken(t: Table, entries: Entries, f: Func, b: nat, p: Phi)
    requires Acyclic(t) && EntriesIn(t, entries) && Closed(f) && f != []
  {
    forall k :: 0 <= k < |p.ins| ==> EdgeTaken(t, entries, f, p.ins[k], Onward(f, 0, b, []))
  }

  ghost predicate PhiCounts(f: Func, b: nat, p: Phi)
    requires Closed(f) && f != []
  {
    exists k :: 0 <= k < |p.ins| && EdgeCounts(p.ins[k], Onward(f, 0, b, []))
  }

  lemma {:induction false} PassableExtends(t: Table, t': Table, entries: Entries, f: Func, s: Step)
    requires Acyclic(t) && Arity(t) && EntriesIn(t, entries) && Acyclic(t') && Arity(t') && t <= t'
    ensures EntriesIn(t', entries) && (Passable(t', entries, f, s) <==> Passable(t, entries, f, s))
  {
    if s.block < |f| && f[s.block].term.CondBr? && Find(entries, f[s.block].term.c).At? {
      NotGuardExtends(t, t', Find(entries, f[s.block].term.c).id);
    }
  }

  lemma {:induction false} RouteTakenExtends(t: Table, t': Table, entries: Entries, f: Func, inc: Incoming, r: Route)
    requires Acyclic(t) && Arity(t) && EntriesIn(t, entries) && Acyclic(t') && Arity(t') && t <= t'
    ensures EntriesIn(t', entries) && (RoutePassable(t', entries, f, r) <==> RoutePassable(t, entries, f, r))
    ensures RouteTaken(t', entries, f, inc, r) <==> RouteTaken(t, entries, f, inc, r)
  {
    hide Passable;
    forall k | 0 <= k < |r| ensures Passable(t', entries, f, r[k]) <==> Passable(t, entries, f, r[k]) {
      PassableExtends(t, t', entries, f, r[k]);
    }
  }

  lemma {:induction false} EdgeTakenExtends(t: Table, t': Table, entries: Entries, f: Func, inc: Incoming, all: seq<Route>)
    requires Acyclic(t) && Arity(t) && EntriesIn(t, entries) && Acyclic(t') && Arity(t') && t <= t'
    ensures EntriesIn(t', entries) && (EdgeTaken(t', entries, f, inc, all) <==> EdgeTaken(t, entries, f, inc, all))
  {
    hide RouteTaken;
    forall r: Route | r in all ensures RouteTaken(t', entries, f, inc, r) <==> RouteTaken(t, entries, f, inc, r) {
      RouteTakenExtends(t, t', entries, f, inc, r);
    }
  }

  // One more step.
  lemma {:induction false} PassableSnoc(t: Table, entries: Entries, f: Func, r: Route, k: nat)
    requires Acyclic(t) && EntriesIn(t, entries) && k < |r|
    ensures RoutePassable(t, entries, f, r[..k + 1]) <==> RoutePassable(t, entries, f, r[..k]) && Passable(t, entries, f, r[k])
    ensures Branches(f, r[..k + 1]) <==> Branches(f, r[..k]) || (r[k].block < |f| && f[r[k].block].term.CondBr?)
    ensures RoutePassable(t, entries, f, r) ==> Passable(t, entries, f, r[k])
  {
    hide Passable;
    assert r[..k + 1] == r[..k] + [r[k]];
    if Branches(f, r[..k + 1]) { BranchesPrefix(f, r, k); }
    if Branches(f, r[..k]) {
      var j :| 0 <= j < k && r[..k][j].block < |f| && f[r[..k][j].block].term.CondBr?;
      assert r[..k + 1][j] == r[..k][j];
    }
    if r[k].block < |f| && f[r[k].block].term.CondBr? { assert r[..k + 1][k] == r[k]; }
    if RoutePassable(t, entries, f, r[..k + 1]) {
      forall j | 0 <= j < k ensures Passable(t, entries, f, r[..k][j]) { assert r[..k + 1][j] == r[..k][j]; }
      assert r[..k + 1][k] == r[k];
    }
  }

  lemma {:induction false} NothingPassed(t: Table, entries: Entries, f: Func, r: Route)
    requires Acyclic(t) && EntriesIn(t, entries)
    ensures RoutePassable(t, entries, f, r[..0]) && !Branches(f, r[..0])
  {
  }

  // The routes listed are the routes there are.
  lemma {:induction false} PhiTakenListed(t: Table, entries: Entries, f: Func, b: nat, p: Phi, all: seq<Route>)
    requires Acyclic(t) && EntriesIn(t, entries) && Closed(f) && f != [] && multiset(all) == multiset(Onward(f, 0, b, []))
    ensures PhiTaken(t, entries, f, b, p) <==> forall k :: 0 <= k < |p.ins| ==> EdgeTaken(t, entries, f, p.ins[k], all)
    ensures PhiCounts(f, b, p) <==> exists k :: 0 <= k < |p.ins| && EdgeCounts(p.ins[k], all)
  {
    hide Onward, RouteTaken;
    var on := Onward(f, 0, b, []);
    forall r: Route ensures r in all <==> r in on { assert r in all <==> r in multiset(all); }
    forall k | 0 <= k < |p.ins|
      ensures EdgeTaken(t, entries, f, p.ins[k], all) <==> EdgeTaken(t, entries, f, p.ins[k], on)
      ensures EdgeCounts(p.ins[k], all) <==> EdgeCounts(p.ins[k], on)
    {
    }
  }

  // Without a condition there is nothing to pass.
  lemma {:induction false} PassesBy(t: Table, entries: Entries, f: Func, s: Step)
    requires Acyclic(t) && EntriesIn(t, entries) && s.block < |f| && !f[s.block].term.CondBr?
    ensures Passable(t, entries, f, s)
  {
  }

  lemma {:induction false} FoundCounts(inc: Incoming, all: seq<Route>, found: seq<Route>)
    requires inc.value != Const(0) && forall r: Route :: r in found <==> r in all && EndsIn(r, inc.block)
    ensures found != [] <==> EdgeCounts(inc, all)
  {
    if found != [] { assert found[0] in found; }
  }

  // ---- estimates of a function's values ----

  type Estimates = map<Reg, Estimate>

  function EstimateFor(ests: Estimates, x: Reg): Estimate { if x in ests then ests[x] else NOTHING }

  // A constant needs no node.
  function OperandEstimate(ests: Estimates, o: Operand): Estimate {
    if o.Var? then EstimateFor(ests, o.x) else Estimate(Loose, 2, Some(0))
  }

  // The condition is negated for the second side.
  function ChoiceEstimate(c: Estimate, a: Estimate, b: Estimate): Estimate {
    var times := Least(Least(a.times, b.times), 2);
    if c.times < 2 then NOTHING
    else Estimate(if times > 0 then Whole else Loose, times, BothRooms(Enlarged(c.room, 4, 3), BothRooms(a.room, b.room, 0), 0))
  }

  function InstEstimate(ests: Estimates, i: Inst): Estimate {
    match i
    case Load(_, sig) => Estimate(Only(Match(sig)), 2, Some(1))
    case Direct(_, _) => Estimate(Only(Match(0)), 2, Some(1))
    case Foreign(_) => NOTHING
    case ICmp(_, p, _, _) =>
      if Against(i).Const? && Measured(i).Var? && Unsigned(p) && !Trivial(p, Against(i).v)
      then CompareEstimate(EstimateFor(ests, Measured(i).x), p, Against(i).v) else NOTHING
    case AddI(_, a, b) =>
      if b.Const? then Estimate(Loose, 0, Enlarged(OperandEstimate(ests, a).room, 1, 1))
      else SumEstimate(OperandEstimate(ests, a), EstimateFor(ests, b.x))
    case AndI(_, a, b) => JoinEstimate(OperandEstimate(ests, a), OperandEstimate(ests, b))
    case OrI(_, a, b) => JoinEstimate(OperandEstimate(ests, a), OperandEstimate(ests, b))
    case XorI(_, a, _) => DenyEstimate(OperandEstimate(ests, a))
    case ZExt(_, a, _, _) => CountEstimate(OperandEstimate(ests, a))
    case Select(_, c, a, b) => ChoiceEstimate(OperandEstimate(ests, c), OperandEstimate(ests, a), OperandEstimate(ests, b))
  }

  // The estimates hold instruction by instruction; nothing is told of phis.
  predicate BlockEstimated(f: Func, ests: Estimates, b: nat)
    requires b < |f|
  {
    && (forall i :: i in f[b].insts ==> Covers(InstEstimate(ests, i), EstimateFor(ests, i.x)))
    && forall p :: p in f[b].phis ==> Covers(NOTHING, EstimateFor(ests, p.x))
  }

  ghost predicate EntriesEstimated(t: Table, entries: Entries, ests: Estimates)
    requires Acyclic(t)
  {
    forall x :: x in entries && entries[x].Some? ==> Estimated(t, entries[x].value, EstimateFor(ests, x))
  }

  // What an instruction's node comes to, when the values before it had their estimates.
  ghost predicate NodeEstimated(was: bool, ests: Estimates, i: Inst, st: Status, t: Table, r: nat)
    requires Acyclic(t)
  {
    was && st == Done ==> Estimated(t, r, InstEstimate(ests, i))
  }

  lemma {:induction false} EntriesEstimatedExtend(t: Table, t': Table, entries: Entries, ests: Estimates)
    requires Acyclic(t) && Acyclic(t') && t <= t' && EntriesEstimated(t, entries, ests)
    ensures EntriesEstimated(t', entries, ests)
  {
    hide Estimated;
    forall x | x in entries && entries[x].Some? ensures Estimated(t', entries[x].value, EstimateFor(ests, x)) {
      EstimatedExtends(t, t', entries[x].value, EstimateFor(ests, x));
    }
  }

  lemma {:induction false} OperandEstimated(t: Table, entries: Entries, ests: Estimates, o: Operand, id: nat)
    requires Acyclic(t) && EntriesEstimated(t, entries, ests) && Find(entries, o) == At(id)
    ensures o.Var? && Estimated(t, id, EstimateFor(ests, o.x)) && OperandEstimate(ests, o) == EstimateFor(ests, o.x)
  {
    hide Estimated;
  }

  // ---- instruction by instruction ----

  lemma {:induction false} CompareKnown(t0: Table, entries: Entries, ests: Estimates, i: Inst, n: nat, t: Table, r: nat)
    requires Acyclic(t0) && Acyclic(t) && Arity(t) && t0 <= t && EntriesEstimated(t0, entries, ests)
    requires i.ICmp? && Against(i).Const? && Find(entries, Measured(i)) == At(n) && Unsigned(i.p) && !Trivial(i.p, Against(i).v)
    requires ComparedTo(t0, n, i.p, Against(i).v, t, r)
    ensures Estimated(t, r, InstEstimate(ests, i))
  {
    hide Estimated, EntriesEstimated, ComparedTo, CompareEstimate;
    OperandEstimated(t0, entries, ests, Measured(i), n);
    CompareEstimated(t0, n, EstimateFor(ests, Measured(i).x), i.p, Against(i).v, t, r);
  }

  lemma {:induction false} SumKnown(t0: Table, entries: Entries, ests: Estimates, i: Inst, l: nat, r: nat, t: Table, s: nat)
    requires Acyclic(t0) && Acyclic(t) && t0 <= t && EntriesEstimated(t0, entries, ests) && i.AddI? && i.b.Var?
    requires Find(entries, i.a) == At(l) && Find(entries, i.b) == At(r) && s < |t| && AddsTerms(t0, l, r, t, s)
    ensures Estimated(t, s, InstEstimate(ests, i))
  {
    hide Estimated, EntriesEstimated, AddsTerms, SumEstimate;
    OperandEstimated(t0, entries, ests, i.a, l);
    OperandEstimated(t0, entries, ests, i.b, r);
    SumEstimated(t0, l, r, EstimateFor(ests, i.a.x), EstimateFor(ests, i.b.x), t, s);
  }

  lemma {:induction false} OffsetKnown(t0: Table, entries: Entries, ests: Estimates, i: Inst, n: nat, t: Table, r: nat)
    requires Acyclic(t0) && Acyclic(t) && t0 <= t && EntriesEstimated(t0, entries, ests) && i.AddI? && i.b.Const?
    requires Find(entries, i.a) == At(n) && r < |t| && t[r] == Plain(Add, i.b.v, [n])
    ensures Estimated(t, r, InstEstimate(ests, i))
  {
    hide Estimated, EntriesEstimated;
    OperandEstimated(t0, entries, ests, i.a, n);
    OffsetEstimated(t0, n, EstimateFor(ests, i.a.x), i.b.v, t, r);
  }

  lemma {:induction false} JoinKnown(t0: Table, entries: Entries, ests: Estimates, i: Inst, a: nat, b: nat, t: Table, r: nat)
    requires Acyclic(t0) && Acyclic(t) && t0 <= t && EntriesEstimated(t0, entries, ests) && (i.AndI? || i.OrI?)
    requires Find(entries, i.a) == At(a) && Find(entries, i.b) == At(b) && a < |t0| && b < |t0| && r < |t| && JoinsTwo(t0, a, b, t, r)
    ensures Estimated(t, r, InstEstimate(ests, i))
  {
    hide Estimated, EntriesEstimated, JoinsTwo, JoinEstimate;
    OperandEstimated(t0, entries, ests, i.a, a);
    OperandEstimated(t0, entries, ests, i.b, b);
    JoinEstimated(t0, a, b, EstimateFor(ests, i.a.x), EstimateFor(ests, i.b.x), t, r);
  }

  lemma {:induction false} DenyKnown(t0: Table, entries: Entries, ests: Estimates, i: Inst, a: nat, t: Table, r: nat)
    requires Acyclic(t0) && Acyclic(t) && t0 <= t && EntriesEstimated(t0, entries, ests) && i.XorI?
    requires Find(entries, i.a) == At(a) && a < |t0| && r < |t| && (Deniable(t0, a, 2) ==> DeniedWithin(t0, a, t, r))
    ensures Estimated(t, r, InstEstimate(ests, i))
  {
    hide Estimated, EntriesEstimated, Deniable, DeniedWithin, DenyEstimate;
    OperandEstimated(t0, entries, ests, i.a, a);
    DenyEstimated(t0, a, EstimateFor(ests, i.a.x), t, r);
  }

  lemma {:induction false} CountKnown(t0: Table, entries: Entries, ests: Estimates, i: Inst, a: nat, t: Table, r: nat)
    requires Acyclic(t0) && Acyclic(t) && t0 <= t && EntriesEstimated(t0, entries, ests) && i.ZExt?
    requires Find(entries, i.a) == At(a) && r < |t| && t[r] == Plain(AddUniq, ALL_ONES, [a])
    ensures Estimated(t, r, InstEstimate(ests, i))
  {
    hide Estimated, EntriesEstimated, CountEstimate;
    OperandEstimated(t0, entries, ests, i.a, a);
    CountEstimated(t0, a, EstimateFor(ests, i.a.x), t, r);
  }

  // An operand of a choice: a node, or a constant that needs none.
  lemma {:induction false} SideKnown(t: Table, entries: Entries, ests: Estimates, o: Operand, id: Option<nat>, times: nat)
    requires Acyclic(t) && EntriesEstimated(t, entries, ests) && (if id.Some? then Find(entries, o) == At(id.value) else o.Const?)
    ensures id.Some? ==> id.value < |t|
    ensures OperandEstimate(ests, o).room.Some? ==> SideTree(t, id) <= OperandEstimate(ests, o).room.value
    ensures id.Some? && times <= OperandEstimate(ests, o).times ==> Deniable(t, id.value, times)
  {
    if id.Some? {
      OperandEstimated(t, entries, ests, o, id.value);
      if times <= OperandEstimate(ests, o).times { DeniableFewer(t, id.value, OperandEstimate(ests, o).times, times); }
    }
  }

  lemma {:induction false} ChoiceKnown(t0: Table, entries: Entries, ests: Estimates, i: Inst, c: nat, yes: Option<nat>, no: Option<nat>,
      t: Table, r: nat)
    requires Acyclic(t0) && Acyclic(t) && t0 <= t && EntriesEstimated(t0, entries, ests) && i.Select?
    requires Find(entries, i.c) == At(c) && Chooses(t0, c, yes, no, t, r)
    requires if yes.Some? then Find(entries, i.a) == At(yes.value) else i.a.Const?
    requires if no.Some? then Find(entries, i.b) == At(no.value) else i.b.Const?
    ensures Estimated(t, r, InstEstimate(ests, i))
  {
    var ec, ea, eb := OperandEstimate(ests, i.c), OperandEstimate(ests, i.a), OperandEstimate(ests, i.b);
    var times := Least(Least(ea.times, eb.times), 2);
    SideKnown(t0, entries, ests, i.c, Some(c), 2);
    SideKnown(t0, entries, ests, i.c, Some(c), times);
    SideKnown(t0, entries, ests, i.a, yes, times);
    SideKnown(t0, entries, ests, i.b, no, times);
    hide EntriesEstimated, Deniable, Tree;
    if ec.times >= 2 {
      assert SidesDeniable(t0, c, yes, no, times);
      if times > 0 { DeniableWhole(t, r, times); }
    } else {
      NeverDenied(t, r);
    }
  }

  // The entry of an instruction, or none.
  lemma {:induction false} InstEntry(t: Table, t': Table, entries: Entries, entries': Entries, ests: Estimates, i: Inst,
      made: bool, r: nat)
    requires Acyclic(t) && Acyclic(t') && t <= t' && EntriesEstimated(t, entries, ests)
    requires if made then entries' == entries[i.x := Some(r)] && Estimated(t', r, InstEstimate(ests, i))
             else entries' == entries || entries' == entries[i.x := None]
    requires Covers(InstEstimate(ests, i), EstimateFor(ests, i.x))
    ensures EntriesEstimated(t', entries', ests)
  {
    hide Estimated, InstEstimate, Covers;
    EntriesEstimatedExtend(t, t', entries, ests);
    if made { CoversEstimated(t', r, InstEstimate(ests, i), EstimateFor(ests, i.x)); }
  }

  lemma {:induction false} PhiEntry(t: Table, t': Table, entries: Entries, ests: Estimates, x: Reg, ln: Option<nat>)
    requires Acyclic(t) && Acyclic(t') && t <= t' && EntriesEstimated(t, entries, ests) && Covers(NOTHING, EstimateFor(ests, x))
    requires ln.Some? ==> ln.value < |t'|
    ensures EntriesEstimated(t', entries[x := ln], ests)
  {
    EntriesEstimatedExtend(t, t', entries, ests);
    if ln.Some? { NeverDenied(t', ln.value); }
    hide Deniable, Tree;
  }

  // ---- what is compiled for certain ----

  // Besides what is always taken: what negates a condition that can be negated, and sums without a common piece.
  predicate InstTaken(ests: Estimates, i: Inst) {
    || AlwaysTaken(i)
    || (i.XorI? && i.b == Const(1) && i.a.Var? && EstimateFor(ests, i.a.x).times > 0)
    || (i.AddI? && i.a.Var? && i.b.Var? && AddsApart(EstimateFor(ests, i.a.x).form, EstimateFor(ests, i.b.x).form))
    || (i.Select? && i.c.Var? && EstimateFor(ests, i.c.x).times > 0 && (i.a.Var? || i.b.Var?)
        && (i.a.Const? ==> i.a.v <= 1) && (i.b.Const? ==> i.b.v <= 1))
  }

  // The blocks a phi comes from are done, its values are defined, and some route makes it.
  ghost predicate PhiReady(f: Func, b: nat, p: Phi)
    requires b < |f|
  {
    && Forward(f) && f[0].term.CondBr? && b != 0 && PhiCounts(f, b, p)
    && forall k :: 0 <= k < |p.ins| && p.ins[k].value != Const(0) ==> p.ins[k].block < b && Ready(p.ins[k].value, DefsBefore(f, b))
  }

  // Each value is defined before its uses, every instruction is taken when its operands are, and branch
  // conditions can be negated.
  ghost predicate TakenBlock(f: Func, ests: Estimates, b: nat)
    requires b < |f|
  {
    && BlockEstimated(f, ests, b) && TermReady(f[b].term, DefsBefore(f, b + 1))
    && (f[b].term.CondBr? ==> f[b].term.c.Var? && EstimateFor(ests, f[b].term.c.x).times > 0)
    && (forall p :: p in f[b].phis ==> PhiReady(f, b, p))
    && forall j :: 0 <= j < |f[b].insts| ==>
         InstTaken(ests, f[b].insts[j]) && InstReady(f[b].insts[j], DefsBefore(f, b) + PhiDefs(f[b].phis) + InstDefs(f[b].insts[..j]))
  }

  ghost predicate TakenBy(f: Func, ests: Estimates) { forall b :: 0 <= b < |f| ==> TakenBlock(f, ests, b) }

  // What a taken instruction asks of its operands holds.
  lemma {:induction false} TakenNodes(t: Table, entries: Entries, ests: Estimates, i: Inst)
    requires Acyclic(t) && Arity(t) && EntriesIn(t, entries) && EntriesEstimated(t, entries, ests)
    requires InstTaken(ests, i) && UsesFound(entries, i) && !AlwaysTaken(i)
    ensures i.XorI? ==> i.b == Const(1) && Find(entries, i.a).At? && Negatable(t, Find(entries, i.a).id)
    ensures i.AddI? ==> i.b.Var? && Find(entries, i.a).At? && Find(entries, i.b).At?
    ensures i.AddI? ==> forall st :: AddsOnce(t, Find(entries, i.a).id, Find(entries, i.b).id, st) ==> st == Done
    ensures i.Select? ==> Find(entries, i.c).At? && Negatable(t, Find(entries, i.c).id)
    ensures i.Select? ==> (i.a.Var? ==> Find(entries, i.a).At?) && (i.b.Var? ==> Find(entries, i.b).At?)
    ensures i.Select? ==> (i.a.Var? || i.b.Var?) && (i.a.Const? ==> i.a.v <= 1) && (i.b.Const? ==> i.b.v <= 1)
    ensures i.XorI? || i.AddI? || i.Select?
  {
    match i {
      case XorI(_, a, _) =>
        assert a in Uses(i);
        TakenNode(t, entries, ests, a);
      case AddI(_, a, b) =>
        assert a in Uses(i) && b in Uses(i);
        OperandEstimated(t, entries, ests, a, Find(entries, a).id);
        OperandEstimated(t, entries, ests, b, Find(entries, b).id);
        ApartAdds(t, Find(entries, a).id, Find(entries, b).id, EstimateFor(ests, a.x).form, EstimateFor(ests, b.x).form);
      case Select(_, c, a, b) =>
        assert c in Uses(i) && a in Uses(i) && b in Uses(i);
        TakenNode(t, entries, ests, c);
      case _ =>
    }
  }

  lemma {:induction false} TakenNode(t: Table, entries: Entries, ests: Estimates, o: Operand)
    requires Acyclic(t) && EntriesEstimated(t, entries, ests) && Find(entries, o).At?
    ensures o.Var? && Find(entries, o).id < |t|
    ensures EstimateFor(ests, o.x).times > 0 ==> Negatable(t, Find(entries, o).id)
  {
    OperandEstimated(t, entries, ests, o, Find(entries, o).id);
    DeniableOnce(t, Find(entries, o).id, EstimateFor(ests, o.x).times);
  }

  ghost predicate TakenFunc(f: Func) { exists ests: Estimates :: TakenBy(f, ests) }

  // Without phis and branch conditions nothing need be told of the values.
  lemma {:induction false} StraightTaken(f: Func)
    requires forall b :: 0 <= b < |f| ==> f[b].phis == [] && !f[b].term.CondBr? && TermReady(f[b].term, DefsBefore(f, b + 1))
    requires forall b, j :: 0 <= b < |f| && 0 <= j < |f[b].insts| ==>
      AlwaysTaken(f[b].insts[j]) && InstReady(f[b].insts[j], DefsBefore(f, b) + InstDefs(f[b].insts[..j]))
    ensures TakenFunc(f)
  {
    var none: Estimates := map[];
    hide AlwaysTaken, InstReady, DefsBefore, InstDefs, InstEstimate, TermReady;
    forall b | 0 <= b < |f| ensures TakenBlock(f, none, b) {
      assert PhiDefs(f[b].phis) == {};
      forall j | 0 <= j < |f[b].insts|
        ensures InstTaken(none, f[b].insts[j])
        ensures InstReady(f[b].insts[j], DefsBefore(f, b) + PhiDefs(f[b].phis) + InstDefs(f[b].insts[..j]))
      {
        assert DefsBefore(f, b) + PhiDefs(f[b].phis) + InstDefs(f[b].insts[..j]) == DefsBefore(f, b) + InstDefs(f[b].insts[..j]);
      }
    }
    assert TakenBy(f, none);
  }

  lemma {:induction false} TakenAt(f: Func, ests: Estimates, b: nat)
    requires TakenBy(f, ests) && b < |f|
    ensures TakenBlock(f, ests, b) && BlockEstimated(f, ests, b)
  {
  }

  lemma {:induction false} TakenNext(f: Func, ests: Estimates, b: nat, j: nat)
    requires b < |f| && TakenBlock(f, ests, b) && j < |f[b].insts|
    ensures InstTaken(ests, f[b].insts[j])
    ensures InstReady(f[b].insts[j], DefsBefore(f, b) + PhiDefs(f[b].phis) + InstDefs(f[b].insts[..j]))
  {
    hide InstTaken, InstReady, BlockEstimated, PhiReady, TermReady, DefsBefore, PhiDefs, InstDefs;
  }

  lemma {:induction false} InstDefsNext(insts: seq<Inst>, j: nat)
    requires j < |insts|
    ensures InstDefs(insts[..j + 1]) == InstDefs(insts[..j]) + {insts[j].x}
  {
    assert insts[..j + 1] == insts[..j] + [insts[j]];
  }

  lemma {:induction false} NothingTaken(f: Func, b: nat, entries: Entries)
    requires b < |f| && HaveNodes(entries, DefsBefore(f, b) + PhiDefs(f[b].phis))
    ensures HaveNodes(entries, DefsBefore(f, b) + PhiDefs(f[b].phis) + InstDefs(f[b].insts[..0]))
  {
  }

  lemma {:induction false} TakenReady(f: Func, ests: Estimates, b: nat, j: nat, entries: Entries)
    requires b < |f| && TakenBlock(f, ests, b) && j < |f[b].insts|
    requires HaveNodes(entries, DefsBefore(f, b) + PhiDefs(f[b].phis) + InstDefs(f[b].insts[..j]))
    ensures InstTaken(ests, f[b].insts[j]) && UsesFound(entries, f[b].insts[j])
  {
    hide InstTaken, InstReady, HaveNodes, UsesFound;
    TakenNext(f, ests, b, j);
    ReadyFound(entries, f[b].insts[j], DefsBefore(f, b) + PhiDefs(f[b].phis) + InstDefs(f[b].insts[..j]));
  }

  lemma {:induction false} TakenStep(f: Func, b: nat, j: nat, entries: Entries, entries': Entries)
    requires b < |f| && j < |f[b].insts|
    requires HaveNodes(entries, DefsBefore(f, b) + PhiDefs(f[b].phis) + InstDefs(f[b].insts[..j]))
    requires var x := f[b].insts[j].x;
      (entries' == entries || (x in entries' && entries' == entries[x := entries'[x]])) && Find(entries', Var(x)).At?
    ensures HaveNodes(entries', DefsBefore(f, b) + PhiDefs(f[b].phis) + InstDefs(f[b].insts[..j + 1]))
  {
    hide DefsBefore, PhiDefs, InstDefs;
    InstDefsNext(f[b].insts, j);
  }

  lemma {:induction false} TakenAll(f: Func, ests: Estimates, b: nat, entries: Entries)
    requires b < |f| && TakenBlock(f, ests, b) && HaveNodes(entries, DefsBefore(f, b) + PhiDefs(f[b].phis) + InstDefs(f[b].insts))
    ensures HaveNodes(entries, DefsBefore(f, b + 1))
    ensures f[b].term.Ret? && f[b].term.v.Var? ==> Find(entries, f[b].term.v).At?
    ensures f[b].term.CondBr? ==> Find(entries, f[b].term.c).At?
  {
    forall x | x in DefsBefore(f, b + 1) ensures Find(entries, Var(x)).At? {
      var c :| 0 <= c < b + 1 && x in Defs(f[c]);
      if c < b { assert x in DefsBefore(f, b); }
    }
  }

  // The condition a block ends in can be negated.
  lemma {:induction false} TakenCondition(f: Func, ests: Estimates, b: nat, t: Table, entries: Entries)
    requires Acyclic(t) && EntriesEstimated(t, entries, ests) && TakenBy(f, ests) && b < |f| && f[b].term.CondBr?
    requires Find(entries, f[b].term.c).At?
    ensures Find(entries, f[b].term.c).id < |t| && Negatable(t, Find(entries, f[b].term.c).id)
  {
    assert TakenBlock(f, ests, b);
    TakenNode(t, entries, ests, f[b].term.c);
  }

  // Walks lead forward.
  lemma {:induction false} WalkIncreases(f: Func, curr: nat, end: nat, s: Route)
    requires Forward(f) && curr < |f| && Walk(f, curr, end, s) && s != []
    ensures forall k :: 0 <= k < |s| ==> curr <= s[k].block <= s[|s| - 1].block < |f|
    decreases |s|
  {
    var next := Target(f, s[0]);
    assert next in Targets(f[curr].term);
    if |s| > 1 {
      WalkIncreases(f, next, end, s[1..]);
      forall k | 0 <= k < |s| ensures curr <= s[k].block <= s[|s| - 1].block { if k > 0 { assert s[k] == s[1..][k - 1]; } }
    }
  }

  // Every phi of a taken block is taken.
  lemma {:induction false} PhiTakenHere(f: Func, ests: Estimates, b: nat, p: Phi, t: Table, entries: Entries, have: set<Reg>)
    requires Acyclic(t) && EntriesIn(t, entries) && EntriesEstimated(t, entries, ests) && TakenBy(f, ests) && b < |f| && p in f[b].phis
    requires HaveNodes(entries, have) && DefsBefore(f, b) <= have
    ensures Closed(f) && f != [] && PhiTaken(t, entries, f, b, p) && PhiCounts(f, b, p)
  {
    assert PhiReady(f, b, p) by { assert TakenBlock(f, ests, b); }
    hide TakenBy, EntriesEstimated, EntriesIn, DefsBefore, PhiCounts, Onward, Branches, Passable;
    var all := Onward(f, 0, b, []);
    RoutesHere(f, b, all);
    forall k | 0 <= k < |p.ins| ensures EdgeTaken(t, entries, f, p.ins[k], all) {
      forall r: Route | p.ins[k].value != Const(0) && r in all && EndsIn(r, p.ins[k].block)
        ensures Branches(f, r) && RouteTaken(t, entries, f, p.ins[k], r)
      {
        forall j | 0 <= j < |r| ensures Passable(t, entries, f, r[j]) { PassableHere(f, ests, b, t, entries, have, r[j]); }
        if p.ins[k].value.Var? { assert p.ins[k].value.x in have; }
      }
    }
  }

  // When the entry ends in a condition, no route to another block is empty and every one has a condition.
  lemma {:induction false} RoutesHere(f: Func, b: nat, all: seq<Route>)
    requires Forward(f) && f[0].term.CondBr? && 0 < b < |f| && all == Onward(f, 0, b, [])
    ensures forall r: Route :: r in all ==>
      r != [] && Branches(f, r) && forall j :: 0 <= j < |r| ==> r[j].block <= r[|r| - 1].block
  {
    hide Onward, Branches;
    OnwardExact(f, 0, b, []);
    RoutesBranch(f, b, all);
    forall r: Route | r in all ensures r != [] && Branches(f, r) && forall j :: 0 <= j < |r| ==> r[j].block <= r[|r| - 1].block {
      assert r[0..] == r && Walk(f, 0, b, r[0..]);
      if r != [] { WalkIncreases(f, 0, b, r); }
    }
  }

  lemma {:induction false} PassableHere(f: Func, ests: Estimates, b: nat, t: Table, entries: Entries, have: set<Reg>, s: Step)
    requires Acyclic(t) && EntriesIn(t, entries) && EntriesEstimated(t, entries, ests) && TakenBy(f, ests) && s.block < b < |f|
    requires HaveNodes(entries, have) && DefsBefore(f, b) <= have
    ensures Passable(t, entries, f, s)
  {
    if f[s.block].term.CondBr? {
      assert TakenBlock(f, ests, s.block) && f[s.block].term.c.x in DefsBefore(f, s.block + 1);
      assert f[s.block].term.c.x in DefsBefore(f, b);
      TakenCondition(f, ests, s.block, t, entries);
    }
  }

  // One more phi.
  lemma {:induction false} PhiStep(f: Func, b: nat, j: nat, entries: Entries, entries': Entries)
    requires b < |f| && j < |f[b].phis| && HaveNodes(entries, DefsBefore(f, b) + PhiDefs(f[b].phis[..j]))
    requires var x := f[b].phis[j].x; x in entries' && entries' == entries[x := entries'[x]] && entries'[x].Some?
    ensures HaveNodes(entries', DefsBefore(f, b) + PhiDefs(f[b].phis[..j + 1]))
  {
    assert f[b].phis[..j + 1] == f[b].phis[..j] + [f[b].phis[j]];
    assert PhiDefs(f[b].phis[..j + 1]) == PhiDefs(f[b].phis[..j]) + {f[b].phis[j].x};
  }

  // ---- the size of the root ----

  function ReturnRoom(ests: Estimates, term: Term): Option<nat> {
    if !term.Ret? then Some(0) else if term.v.Const? then Some(3) else Enlarged(EstimateFor(ests, term.v.x).room, 1, 1)
  }

  // The room of the returns of the first b blocks.
  function RoomBefore(f: Func, ests: Estimates, b: nat): Option<nat>
    requires b <= |f|
  {
    if b == 0 then Some(0) else BothRooms(RoomBefore(f, ests, b - 1), ReturnRoom(ests, f[b - 1].term), 0)
  }

  ghost predicate ExitsWithin(t: Table, exitsOr: seq<nat>, exitsAnd: seq<nat>, room: Option<nat>)
    requires Acyclic(t)
  {
    In(t, exitsOr) && In(t, exitsAnd) && (room.Some? ==> Trees(t, exitsOr) + Trees(t, exitsAnd) <= room.value)
  }

  // The exits after one more block.
  ghost predicate ExitsGrown(t0: Table, or0: seq<nat>, and0: seq<nat>, t: Table, exitsOr: seq<nat>, exitsAnd: seq<nat>,
      more: Option<nat>)
    requires Acyclic(t0) && Acyclic(t) && In(t0, or0) && In(t0, and0) && In(t, exitsOr) && In(t, exitsAnd)
  {
    more.Some? ==> Trees(t, exitsOr) + Trees(t, exitsAnd) <= Trees(t0, or0) + Trees(t0, and0) + more.value
  }

  lemma {:induction false} SameExits(t: Table, exitsOr: seq<nat>, exitsAnd: seq<nat>)
    requires Acyclic(t) && In(t, exitsOr) && In(t, exitsAnd)
    ensures ExitsGrown(t, exitsOr, exitsAnd, t, exitsOr, exitsAnd, Some(0))
  {
  }

  lemma {:induction false} ExitsExtend(t: Table, t': Table, exitsOr: seq<nat>, exitsAnd: seq<nat>)
    requires Acyclic(t) && Acyclic(t') && t <= t' && In(t, exitsOr) && In(t, exitsAnd)
    ensures ExitsGrown(t, exitsOr, exitsAnd, t', exitsOr, exitsAnd, Some(0))
    ensures Trees(t', exitsOr) == Trees(t, exitsOr) && Trees(t', exitsAnd) == Trees(t, exitsAnd)
  {
    AllTreesExtend(t, t', exitsOr);
    AllTreesExtend(t, t', exitsAnd);
  }

  lemma {:induction false} ExitsWithinExtend(t: Table, t': Table, exitsOr: seq<nat>, exitsAnd: seq<nat>, room: Option<nat>)
    requires Acyclic(t) && Acyclic(t') && t <= t' && ExitsWithin(t, exitsOr, exitsAnd, room)
    ensures ExitsWithin(t', exitsOr, exitsAnd, room)
  {
    hide Trees;
    ExitsExtend(t, t', exitsOr, exitsAnd);
  }

  lemma {:induction false} ExitKnown(t0: Table, entries: Entries, ests: Estimates, v: Operand, id: nat, exitsOr: seq<nat>, exitsAnd: seq<nat>,
      t: Table, n: nat)
    requires Acyclic(t0) && Acyclic(t) && t0 <= t && EntriesEstimated(t0, entries, ests) && Find(entries, v) == At(id)
    requires In(t0, exitsOr) && In(t0, exitsAnd) && In(t0, [id]) && n < |t| && Tree(t, n) <= 1 + Trees(t0, [id])
    ensures In(t, exitsOr + [n])
    ensures ExitsGrown(t0, exitsOr, exitsAnd, t, exitsOr + [n], exitsAnd, ReturnRoom(ests, Ret(v)))
  {
    OperandEstimated(t0, entries, ests, v, id);
    hide EntriesEstimated;
    TreesOne(t0, id);
    ExitsExtend(t0, t, exitsOr, exitsAnd);
    TreesFewer(t, exitsOr, n);
  }

  lemma {:induction false} ConstantRoom(t0: Table, t1: Table, c: nat, exitsOr: seq<nat>, exitsAnd: seq<nat>, t: Table, n: nat)
    requires Acyclic(t0) && Acyclic(t1) && Acyclic(t) && t0 <= t1 <= t && In(t0, exitsOr) && In(t0, exitsAnd) && n < |t| && c < |t1|
    requires Tree(t1, c) == 1 && Deniable(t1, c, 2) && (n == c || (Deniable(t1, c, 2) ==> DeniedWithin(t1, c, t, n)))
    ensures In(t, exitsOr + [n]) && In(t, exitsAnd + [n]) && In(t, exitsOr) && In(t, exitsAnd)
    ensures ExitsGrown(t0, exitsOr, exitsAnd, t, exitsOr + [n], exitsAnd, Some(3))
    ensures ExitsGrown(t0, exitsOr, exitsAnd, t, exitsOr, exitsAnd + [n], Some(3))
  {
    TreeExtends(t1, t, c);
    ExitsExtend(t0, t, exitsOr, exitsAnd);
    TreesFewer(t, exitsOr, n);
    TreesFewer(t, exitsAnd, n);
  }

  lemma {:induction false} RoomNext(f: Func, ests: Estimates, b: nat, t0: Table, or0: seq<nat>, and0: seq<nat>,
      t: Table, exitsOr: seq<nat>, exitsAnd: seq<nat>)
    requires b < |f| && Acyclic(t0) && Acyclic(t) && In(t, exitsOr) && In(t, exitsAnd)
    requires ExitsWithin(t0, or0, and0, RoomBefore(f, ests, b))
    requires ExitsGrown(t0, or0, and0, t, exitsOr, exitsAnd, ReturnRoom(ests, f[b].term))
    ensures ExitsWithin(t, exitsOr, exitsAnd, RoomBefore(f, ests, b + 1))
  {
    hide Trees;
  }

  lemma {:induction false} StartTaking(f: Func, t: Table, ests: Estimates)
    requires Acyclic(t)
    ensures EntriesEstimated(t, map[], ests) && HaveNodes(map[], DefsBefore(f, 0)) && ExitsWithin(t, [], [], RoomBefore(f, ests, 0))
  {
  }

  lemma {:induction false} RootWithin(t: Table, exitsOr: seq<nat>, exitsAnd: seq<nat>, room: Option<nat>)
    requires Acyclic(t) && ExitsWithin(t, exitsOr, exitsAnd, room)
    ensures In(t, exitsOr) && In(t, exitsAnd) && (room.Some? ==> Trees(t, exitsOr) + Trees(t, exitsAnd) <= room.value)
  {
  }

  lemma {:induction false} RootSize(t0: Table, exitsOr: seq<nat>, exitsAnd: seq<nat>, t1: Table, any: nat, t2: Table, all: nat,
      t: Table, root: nat)
    requires Acyclic(t0) && Acyclic(t1) && Acyclic(t2) && Acyclic(t) && t0 <= t1 <= t2 <= t
    requires In(t0, exitsOr) && In(t0, exitsAnd) && any < |t1| && all < |t2| && root < |t|
    requires Tree(t1, any) <= Trees(t0, exitsOr) + 1 && In(t1, exitsAnd) && Tree(t2, all) <= Trees(t1, exitsAnd) + 1
    requires In(t2, [any, all]) && Tree(t, root) <= 1 + Trees(t2, [any, all])
    ensures Tree(t, root) <= Trees(t0, exitsOr) + Trees(t0, exitsAnd) + 3
  {
    TreeExtends(t1, t2, any);
    TreesTwo(t2, any, all);
    AllTreesExtend(t0, t1, exitsAnd);
  }

  lemma {:induction false} NoPhisTaken(f: Func, b: nat, entries: Entries)
    requires b < |f| && HaveNodes(entries, DefsBefore(f, b))
    ensures HaveNodes(entries, DefsBefore(f, b) + PhiDefs(f[b].phis[..0]))
  {
  }

  lemma {:induction false} PhiCovered(f: Func, ests: Estimates, b: nat, p: Phi)
    requires b < |f| && TakenBy(f, ests) && p in f[b].phis
    ensures Covers(NOTHING, EstimateFor(ests, p.x))
  {
    TakenAt(f, ests, b);
    hide TakenBy;
  }

  lemma {:induction false} InstCovered(f: Func, ests: Estimates, b: nat, i: Inst)
    requires b < |f| && TakenBy(f, ests) && i in f[b].insts
    ensures Covers(InstEstimate(ests, i), EstimateFor(ests, i.x))
  {
    TakenAt(f, ests, b);
    hide TakenBy, Covers;
  }

  // The function is taken, and its root is no larger than that.
  ghost predicate TakenWithin(f: Func, room: nat) {
    exists ests: Estimates :: TakenBy(f, ests) && RoomBefore(f, ests, |f|).Some? && RoomBefore(f, ests, |f|).value + 3 <= room
  }
}

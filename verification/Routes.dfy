// Enumeration of the branch decisions that lead from the entry of a function to a block.
module Routes {
  import opened Words
  import opened LogicalProgram

  // One branch taken: the block it ends, and whether it went to the first successor.
  datatype Step = Step(block: nat, taken: bool)

  type Route = seq<Step>

  function Blocks(r: Route): (bs: seq<nat>)
    ensures |bs| == |r| && forall k :: 0 <= k < |r| ==> bs[k] == r[k].block
  {
    seq(|r|, k requires 0 <= k < |r| => r[k].block)
  }

  // A route passes each block at most once.
  ghost predicate Simple(f: Func, r: Route) {
    Unique(Blocks(r)) && forall b :: b in Blocks(r) ==> b < |f|
  }

  lemma {:induction false} SimpleExtends(f: Func, r: Route, s: Step)
    requires Simple(f, r) && s.block < |f| && s.block !in Blocks(r)
    ensures Simple(f, r + [s]) && |r| < |f|
  {
    assert Blocks(r + [s]) == Blocks(r) + [s.block];
    forall i, j | 0 <= i < j < |r| + 1 ensures Blocks(r + [s])[i] != Blocks(r + [s])[j] {
      if j == |r| { assert Blocks(r)[i] in Blocks(r); }
    }
    UniqueBounded(Blocks(r + [s]), |f|);
  }

  // Every way to extend route r from block curr until it reaches end, a return, or a block it has passed.
  ghost function Onward(f: Func, curr: nat, end: nat, r: Route): seq<Route>
    requires Closed(f) && curr < |f| && Simple(f, r)
    decreases |f| - |r|
  {
    if curr == end || curr in Blocks(r) || f[curr].term.Ret? then [r]
    else
      var yes, no := r + [Step(curr, true)], r + [Step(curr, false)];
      SimpleExtends(f, r, Step(curr, true));
      SimpleExtends(f, r, Step(curr, false));
      match f[curr].term
      case Br(s) => assert s in Targets(f[curr].term); Onward(f, s, end, yes)
      case CondBr(_, s, t) =>
        assert s in Targets(f[curr].term) && t in Targets(f[curr].term);
        Onward(f, s, end, yes) + Onward(f, t, end, no)
  }

  // One route has been replaced by several.
  ghost predicate Replaced(before: multiset<Route>, after: multiset<Route>, r: Route, on: multiset<Route>) {
    after + multiset{r} == before + on
  }

  lemma {:induction false} Unreplaced(routes: seq<Route>, r: Route)
    ensures Replaced(multiset(routes), multiset(routes), r, multiset([r]))
  {
  }

  lemma {:induction false} UpdateBag(routes: seq<Route>, idx: nat, r: Route)
    requires idx < |routes|
    ensures Replaced(multiset(routes), multiset(routes[idx := r]), routes[idx], multiset{r})
  {
    assert routes == routes[..idx] + [routes[idx]] + routes[idx + 1..];
    assert routes[idx := r] == routes[..idx] + [r] + routes[idx + 1..];
  }

  lemma {:induction false} ForkBag(routes: seq<Route>, idx: nat, yes: Route, no: Route)
    requires idx < |routes|
    ensures Replaced(multiset(routes), multiset(routes[idx := yes] + [no]), routes[idx], multiset{yes, no})
  {
    UpdateBag(routes, idx, yes);
  }

  lemma {:induction false} ReplaceBags(m0: multiset<Route>, r: Route, yes: Route, m1: multiset<Route>, m2: multiset<Route>, on: multiset<Route>)
    requires Replaced(m0, m1, r, multiset{yes}) && Replaced(m1, m2, yes, on)
    ensures Replaced(m0, m2, r, on)
  {
    forall x: Route ensures (m2 + multiset{r})[x] == (m0 + on)[x] {
      assert (m1 + multiset{r})[x] == (m0 + multiset{yes})[x];
      assert (m2 + multiset{yes})[x] == (m1 + on)[x];
    }
  }

  lemma {:induction false} ForkBags(m0: multiset<Route>, r: Route, yes: Route, no: Route, m1: multiset<Route>, m2: multiset<Route>,
                 m3: multiset<Route>, onYes: seq<Route>, onNo: seq<Route>)
    requires Replaced(m0, m1, r, multiset{yes, no})
    requires Replaced(m1, m2, yes, multiset(onYes)) && Replaced(m2, m3, no, multiset(onNo))
    ensures Replaced(m0, m3, r, multiset(onYes + onNo))
  {
    forall x: Route ensures (m3 + multiset{r})[x] == (m0 + (multiset(onYes) + multiset(onNo)))[x] {
      assert (m1 + multiset{r})[x] == (m0 + multiset{yes, no})[x];
      assert (m2 + multiset{yes})[x] == (m1 + multiset(onYes))[x];
      assert (m3 + multiset{no})[x] == (m2 + multiset(onNo))[x];
    }
  }

  lemma {:induction false} OnwardBr(f: Func, curr: nat, end: nat, r: Route, s: nat)
    requires Closed(f) && curr < |f| && Simple(f, r) && curr != end && curr !in Blocks(r) && f[curr].term == Br(s)
    ensures s < |f| && |r| < |f| && Simple(f, r + [Step(curr, true)])
    ensures Onward(f, curr, end, r) == Onward(f, s, end, r + [Step(curr, true)])
  {
    SimpleExtends(f, r, Step(curr, true));
    assert s in Targets(f[curr].term);
  }

  lemma {:induction false} OnwardFork(f: Func, curr: nat, end: nat, r: Route, s: nat, t: nat)
    requires Closed(f) && curr < |f| && Simple(f, r) && curr != end && curr !in Blocks(r)
    requires f[curr].term.CondBr? && f[curr].term.yes == s && f[curr].term.no == t
    ensures s < |f| && t < |f| && |r| < |f| && Simple(f, r + [Step(curr, true)]) && Simple(f, r + [Step(curr, false)])
    ensures Onward(f, curr, end, r) == Onward(f, s, end, r + [Step(curr, true)]) + Onward(f, t, end, r + [Step(curr, false)])
  {
    SimpleExtends(f, r, Step(curr, true));
    SimpleExtends(f, r, Step(curr, false));
    assert s in Targets(f[curr].term) && t in Targets(f[curr].term);
  }

  class RouteFinder {
    var routes: seq<Route>

    constructor ()
      ensures routes == [[]]
    {
      routes := [[]];
    }

    // Grows route idx from curr, forking a copy at every conditional branch. Nothing but the number
    // of blocks bounds it, so the flow graph may have loops.
    method PopulateRoutes(f: Func, curr: nat, end: nat, idx: nat)
      requires Closed(f) && curr < |f| && idx < |routes| && Simple(f, routes[idx])
      modifies this
      ensures |old(routes)| <= |routes|
      ensures forall j :: 0 <= j < |old(routes)| && j != idx ==> routes[j] == old(routes)[j]
      ensures Replaced(multiset(old(routes)), multiset(routes), old(routes)[idx], multiset(Onward(f, curr, end, old(routes)[idx])))
      decreases |f| - |routes[idx]|
    {
      hide Simple, Unique, Replaced;
      var r := routes[idx];
      assert Simple(f, r);
      Unreplaced(routes, r);
      if curr == end || curr in Blocks(r) || f[curr].term.Ret? {
        return;
      }
      hide Onward, Blocks, Closed;
      var yes, no := r + [Step(curr, true)], r + [Step(curr, false)];
      match f[curr].term
      case Br(s) =>
        OnwardBr(f, curr, end, r, s);
        UpdateBag(routes, idx, yes);
        ghost var m0 := multiset(routes);
        routes := routes[idx := yes];
        ghost var m1 := multiset(routes);
        PopulateRoutes(f, s, end, idx);
        ReplaceBags(m0, r, yes, m1, multiset(routes), multiset(Onward(f, s, end, yes)));
      case CondBr(_, s, t) =>
        OnwardFork(f, curr, end, r, s, t);
        var falseIdx := |routes|;
        ForkBag(routes, idx, yes, no);
        ghost var m0 := multiset(routes);
        routes := routes[idx := yes] + [no];
        ghost var m1 := multiset(routes);
        PopulateRoutes(f, s, end, idx);
        ghost var m2 := multiset(routes);
        PopulateRoutes(f, t, end, falseIdx);
        ForkBags(m0, r, yes, no, m1, m2, multiset(routes), Onward(f, s, end, yes), Onward(f, t, end, no));
    }
  }

  // All routes from the entry to block end.
  method AllRoutes(f: Func, end: nat) returns (routes: seq<Route>)
    requires Closed(f) && f != []
    ensures multiset(routes) == multiset(Onward(f, 0, end, []))
  {
    var finder := new RouteFinder();
    ghost var none := multiset(finder.routes);
    finder.PopulateRoutes(f, 0, end, 0);
    routes := finder.routes;
    assert none == multiset{[]};
    assert multiset(routes) == multiset(routes) + multiset{[]} - multiset{[]};
  }

  // ---- what the routes are, on a loop-free function ----

  function Target(f: Func, s: Step): nat
    requires s.block < |f| && !f[s.block].term.Ret?
  {
    match f[s.block].term
    case Br(t) => t
    case CondBr(_, yes, no) => if s.taken then yes else no
  }

  // s is a maximal walk along branches from curr: it stops at end or at a return and nowhere else.
  ghost predicate Walk(f: Func, curr: nat, end: nat, s: Route)
    requires Closed(f) && curr < |f|
    decreases |s|
  {
    if curr == end || f[curr].term.Ret? then s == []
    else
      && s != [] && s[0].block == curr && (f[curr].term.Br? ==> s[0].taken)
      && (assert Target(f, s[0]) in Targets(f[curr].term); Walk(f, Target(f, s[0]), end, s[1..]))
  }

  ghost predicate Before(r: Route, b: nat) { forall c :: c in Blocks(r) ==> c < b }

  lemma {:induction false} BeforeExtends(r: Route, s: Step, b: nat)
    requires Before(r, s.block) && s.block < b
    ensures Before(r + [s], b)
  {
    assert Blocks(r + [s]) == Blocks(r) + [s.block];
  }

  // The enumeration is exactly the set of maximal walks, each listed once.
  lemma {:induction false} OnwardExact(f: Func, curr: nat, end: nat, r: Route)
    requires Forward(f) && curr < |f| && Simple(f, r) && Before(r, curr)
    ensures Exact(f, curr, end, r, Onward(f, curr, end, r))
    decreases |f| - |r|
  {
    if curr == end || f[curr].term.Ret? {
      forall x: Route | |r| <= |x| && x[..|r|] == r && x[|r|..] == [] ensures x == r { assert x == x[..|r|] + x[|r|..]; }
      return;
    }
    var s := Target(f, Step(curr, true));
    SimpleExtends(f, r, Step(curr, true));
    assert s in Targets(f[curr].term);
    BeforeExtends(r, Step(curr, true), s);
    OnwardExact(f, s, end, r + [Step(curr, true)]);
    if f[curr].term.CondBr? {
      var t := Target(f, Step(curr, false));
      SimpleExtends(f, r, Step(curr, false));
      assert t in Targets(f[curr].term);
      BeforeExtends(r, Step(curr, false), t);
      OnwardExact(f, t, end, r + [Step(curr, false)]);
    }
    OnwardSplit(f, curr, end, r);
  }

  ghost predicate Exact(f: Func, curr: nat, end: nat, r: Route, xs: seq<Route>)
    requires Closed(f) && curr < |f|
  {
    && Unique(xs)
    && forall x :: x in xs <==> |r| <= |x| && x[..|r|] == r && Walk(f, curr, end, x[|r|..])
  }

  lemma {:induction false} OnwardSplit(f: Func, curr: nat, end: nat, r: Route)
    requires Forward(f) && curr < |f| && Simple(f, r) && Before(r, curr) && curr != end && !f[curr].term.Ret?
    requires var s, yes := Target(f, Step(curr, true)), r + [Step(curr, true)];
      s < |f| && Simple(f, yes) && Exact(f, s, end, yes, Onward(f, s, end, yes))
    requires f[curr].term.CondBr? ==>
      var t, no := Target(f, Step(curr, false)), r + [Step(curr, false)];
      t < |f| && Simple(f, no) && Exact(f, t, end, no, Onward(f, t, end, no))
    ensures Exact(f, curr, end, r, Onward(f, curr, end, r))
  {
    OnwardUnfolds(f, curr, end, r);
    hide Onward, Simple, Forward, Before, Target, Exact;
    var a := Onward(f, Target(f, Step(curr, true)), end, r + [Step(curr, true)]);
    if f[curr].term.Br? {
      assert a + [] == a;
      StraightExact(f, curr, end, r, a);
    } else {
      ForksExact(f, curr, end, r, a, Onward(f, Target(f, Step(curr, false)), end, r + [Step(curr, false)]));
    }
  }

  lemma {:induction false} StraightExact(f: Func, curr: nat, end: nat, r: Route, a: seq<Route>)
    requires Closed(f) && curr < |f| && curr != end && f[curr].term.Br?
    requires Target(f, Step(curr, true)) < |f| && Exact(f, Target(f, Step(curr, true)), end, r + [Step(curr, true)], a)
    ensures Exact(f, curr, end, r, a)
  {
    hide Walk, Target, Unique, Closed;
    forall x: Route ensures x in a <==> |r| <= |x| && x[..|r|] == r && Walk(f, curr, end, x[|r|..]) {
      WalkStraight(f, curr, end, r, x);
    }
  }

  lemma {:induction false} ForksExact(f: Func, curr: nat, end: nat, r: Route, a: seq<Route>, b: seq<Route>)
    requires Closed(f) && curr < |f| && curr != end && f[curr].term.CondBr?
    requires Target(f, Step(curr, true)) < |f| && Exact(f, Target(f, Step(curr, true)), end, r + [Step(curr, true)], a)
    requires Target(f, Step(curr, false)) < |f| && Exact(f, Target(f, Step(curr, false)), end, r + [Step(curr, false)], b)
    ensures Exact(f, curr, end, r, a + b)
  {
    SidesDiffer(f, Target(f, Step(curr, true)), Target(f, Step(curr, false)), end, r, curr, a, b);
    hide Walk, Target, Unique, Closed;
    forall x: Route ensures x in a + b <==> |r| <= |x| && x[..|r|] == r && Walk(f, curr, end, x[|r|..]) {
      WalkForks(f, curr, end, r, x);
    }
    UniqueConcat(a, b);
  }

  // A route through one side of a branch is no route through the other.
  lemma {:induction false} SidesDiffer(f: Func, s: nat, t: nat, end: nat, r: Route, curr: nat, a: seq<Route>, b: seq<Route>)
    requires Closed(f) && s < |f| && t < |f|
    requires Exact(f, s, end, r + [Step(curr, true)], a) && Exact(f, t, end, r + [Step(curr, false)], b)
    ensures forall x :: x in a ==> x !in b
  {
    hide Walk, Unique;
    forall x | x in a ensures x !in b {
      var yes, no := r + [Step(curr, true)], r + [Step(curr, false)];
      assert x[..|yes|] == yes && yes[|r|] != no[|r|];
    }
  }

  lemma {:induction false} WalkStraight(f: Func, curr: nat, end: nat, r: Route, x: Route)
    requires Closed(f) && curr < |f| && curr != end && f[curr].term.Br?
    ensures Target(f, Step(curr, true)) < |f|
    ensures |r| <= |x| && x[..|r|] == r && Walk(f, curr, end, x[|r|..]) <==>
      |r| + 1 <= |x| && x[..|r| + 1] == r + [Step(curr, true)] && Walk(f, Target(f, Step(curr, true)), end, x[|r| + 1..])
  {
    assert Target(f, Step(curr, true)) in Targets(f[curr].term);
    WalkSplit(f, curr, end, r, x);
  }

  lemma {:induction false} WalkForks(f: Func, curr: nat, end: nat, r: Route, x: Route)
    requires Closed(f) && curr < |f| && curr != end && f[curr].term.CondBr?
    ensures Target(f, Step(curr, true)) < |f| && Target(f, Step(curr, false)) < |f|
    ensures |r| <= |x| && x[..|r|] == r && Walk(f, curr, end, x[|r|..]) <==>
      || (|r| + 1 <= |x| && x[..|r| + 1] == r + [Step(curr, true)] && Walk(f, Target(f, Step(curr, true)), end, x[|r| + 1..]))
      || (|r| + 1 <= |x| && x[..|r| + 1] == r + [Step(curr, false)] && Walk(f, Target(f, Step(curr, false)), end, x[|r| + 1..]))
  {
    assert Target(f, Step(curr, true)) in Targets(f[curr].term) && Target(f, Step(curr, false)) in Targets(f[curr].term);
    WalkSplit(f, curr, end, r, x);
  }

  lemma {:induction false} OnwardUnfolds(f: Func, curr: nat, end: nat, r: Route)
    requires Forward(f) && curr < |f| && Simple(f, r) && Before(r, curr) && curr != end && !f[curr].term.Ret?
    requires Target(f, Step(curr, true)) < |f| && Simple(f, r + [Step(curr, true)])
    requires f[curr].term.CondBr? ==> Target(f, Step(curr, false)) < |f| && Simple(f, r + [Step(curr, false)])
    ensures Onward(f, curr, end, r)
         == Onward(f, Target(f, Step(curr, true)), end, r + [Step(curr, true)])
          + if f[curr].term.Br? then [] else Onward(f, Target(f, Step(curr, false)), end, r + [Step(curr, false)])
  {
    assert curr !in Blocks(r);
  }

  lemma {:induction false} UniqueConcat<T>(a: seq<T>, b: seq<T>)
    requires Unique(a) && Unique(b) && forall x :: x in a ==> x !in b
    ensures Unique(a + b)
  {
    forall i, j | 0 <= i < j < |a + b| ensures (a + b)[i] != (a + b)[j] {
      if i < |a| <= j { assert a[i] in a && b[j - |a|] in b; }
    }
  }

  lemma {:induction false} WalkSplit(f: Func, curr: nat, end: nat, r: Route, x: Route)
    requires Closed(f) && curr < |f| && curr != end && !f[curr].term.Ret?
    ensures |r| <= |x| && x[..|r|] == r && Walk(f, curr, end, x[|r|..]) <==>
      exists taken ::
        && (f[curr].term.Br? ==> taken) && |r| + 1 <= |x| && x[..|r| + 1] == r + [Step(curr, taken)]
        && Target(f, Step(curr, taken)) in Targets(f[curr].term)
        && Walk(f, Target(f, Step(curr, taken)), end, x[|r| + 1..])
  {
  }

  // r and s agree up to step k, where they leave one conditional branch on opposite sides.
  ghost predicate PartAt(f: Func, r: Route, s: Route, k: nat) {
    && k < |r| && k < |s| && r[..k] == s[..k]
    && r[k].block == s[k].block && r[k].taken != s[k].taken
    && r[k].block < |f| && f[r[k].block].term.CondBr?
  }

  // Two different maximal walks part at a conditional branch they share, taking opposite sides.
  lemma {:induction false} WalksPart(f: Func, curr: nat, end: nat, r: Route, s: Route)
    requires Closed(f) && curr < |f| && Walk(f, curr, end, r) && Walk(f, curr, end, s) && r != s
    ensures exists k: nat :: PartAt(f, r, s, k)
    decreases |r|
  {
    if curr == end || f[curr].term.Ret? {
      assert false;
    } else if r[0].taken != s[0].taken {
      assert PartAt(f, r, s, 0);
    } else {
      assert r == [r[0]] + r[1..] && s == [s[0]] + s[1..];
      var next := Target(f, r[0]);
      assert next in Targets(f[curr].term);
      WalksPart(f, next, end, r[1..], s[1..]);
      var k: nat :| PartAt(f, r[1..], s[1..], k);
      assert r[..k + 1] == [r[0]] + r[1..][..k] && s[..k + 1] == [s[0]] + s[1..][..k];
      assert PartAt(f, r, s, k + 1);
    }
  }

  // ---- the route of a run ----

  // Whether a step's branch would go the step's way under an assignment of truth values.
  ghost predicate StepHolds(f: Func, s: Step, truth: Reg -> bool) {
    s.block < |f| && match f[s.block].term
      case CondBr(Var(x), _, _) => truth(x) == s.taken
      case _ => true
  }

  ghost predicate RouteHolds(f: Func, r: Route, truth: Reg -> bool) {
    forall k :: 0 <= k < |r| ==> StepHolds(f, r[k], truth)
  }

  // The branches taken along a path, given the values of the run.
  ghost function RunRoute(f: Func, path: seq<nat>, env: Env): Route
    requires forall b :: b in path ==> b < |f|
  {
    if |path| <= 1 then []
    else
      TailIn(path);
      var t := f[path[0]].term;
      [Step(path[0], t.CondBr? ==> Eval(t.c, env) != 0)] + RunRoute(f, path[1..], env)
  }

  // The truth value agrees with the run on the condition of block b.
  ghost predicate TruthAt(f: Func, b: nat, env: Env, truth: Reg -> bool) {
    b < |f| && match f[b].term
      case CondBr(Var(x), _, _) => truth(x) <==> (x in env && env[x] != 0)
      case CondBr(_, _, _) => false
      case _ => true
  }

  ghost predicate TruthOf(f: Func, path: seq<nat>, env: Env, truth: Reg -> bool) {
    forall b :: b in path ==> TruthAt(f, b, env, truth)
  }

  // r is a maximal walk from curr whose conditions hold, and the only one.
  ghost predicate OnlyHolding(f: Func, curr: nat, end: nat, r: Route, truth: Reg -> bool)
    requires Closed(f)
  {
    && curr < |f| && Walk(f, curr, end, r) && RouteHolds(f, r, truth)
    && forall s :: Walk(f, curr, end, s) && RouteHolds(f, s, truth) ==> s == r
  }

  lemma {:induction false} OnlyHoldingStep(f: Func, curr: nat, end: nat, env: Env, truth: Reg -> bool, r: Route)
    requires Closed(f) && curr < |f| && curr != end && !f[curr].term.Ret? && TruthAt(f, curr, env, truth)
    requires OnlyHolding(f, Next(f[curr].term, env), end, r, truth)
    ensures var t := f[curr].term;
      OnlyHolding(f, curr, end, [Step(curr, t.CondBr? ==> Eval(t.c, env) != 0)] + r, truth)
  {
    var t := f[curr].term;
    var first := Step(curr, t.CondBr? ==> Eval(t.c, env) != 0);
    var whole := [first] + r;
    assert whole[1..] == r && Target(f, first) == Next(t, env) && Target(f, first) in Targets(t);
    forall k | 0 <= k < |whole| ensures StepHolds(f, whole[k], truth) { if k > 0 { assert whole[k] == r[k - 1]; } }
    forall s | Walk(f, curr, end, s) && RouteHolds(f, s, truth) ensures s == whole {
      assert StepHolds(f, s[0], truth);
      assert s[0] == first;
      forall k | 0 <= k < |s[1..]| ensures StepHolds(f, s[1..][k], truth) { assert s[1..][k] == s[k + 1]; }
      assert RouteHolds(f, s[1..], truth) && Walk(f, Next(t, env), end, s[1..]);
      assert s == [s[0]] + s[1..];
    }
  }

  lemma {:induction false} FollowsTail(f: Func, path: seq<nat>, env: Env)
    requires |path| > 1 && Follows(f, path, env)
    ensures Follows(f, path[1..], env) && path[0] < |f| && !f[path[0]].term.Ret? && path[1] == Next(f[path[0]].term, env)
  {
    var rest := path[1..];
    forall k | 0 <= k < |rest| - 1
      ensures rest[k] < |f| && !f[rest[k]].term.Ret? && rest[k + 1] == Next(f[rest[k]].term, env)
    { assert rest[k] == path[k + 1] && rest[k + 1] == path[k + 2]; }
  }

  // Along a run that reaches end, the run's own route is a maximal walk, and the only one whose
  // conditions hold: at most one route condition is true in a run.
  lemma {:induction false} OnlyRunRoute(f: Func, path: seq<nat>, env: Env, truth: Reg -> bool)
    requires Closed(f) && path != [] && (forall b :: b in path ==> b < |f|) && Follows(f, path, env)
    requires forall k :: 0 <= k < |path| - 1 ==> path[k] != Last(path)
    requires TruthOf(f, path[..|path| - 1], env, truth)
    ensures OnlyHolding(f, path[0], Last(path), RunRoute(f, path, env), truth)
    decreases |path|
  {
    TailIn(path);
    if |path| > 1 {
      var b, rest := path[0], path[1..];
      FollowsTail(f, path, env);
      assert path[..|path| - 1] == [b] + rest[..|rest| - 1];
      assert TruthAt(f, b, env, truth) by { assert b in path[..|path| - 1]; }
      assert TruthOf(f, rest[..|rest| - 1], env, truth);
      assert forall k :: 0 <= k < |rest| - 1 ==> rest[k] == path[k + 1] && rest[k] != Last(rest);
      OnlyRunRoute(f, rest, env, truth);
      OnlyHoldingStep(f, b, Last(path), env, truth, RunRoute(f, rest, env));
    }
  }

  lemma {:induction false} RunRouteEnds(f: Func, path: seq<nat>, env: Env)
    requires |path| > 1 && forall b :: b in path ==> b < |f|
    ensures |RunRoute(f, path, env)| == |path| - 1
    ensures forall k :: 0 <= k < |path| - 1 ==> RunRoute(f, path, env)[k].block == path[k]
  {
    TailIn(path);
    if |path| > 2 {
      RunRouteEnds(f, path[1..], env);
    }
  }
}

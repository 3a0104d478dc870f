// What the node built for a phi says, and why it is the phi's value in every run that reaches it.
module PhiRules {
  import opened Words
  import opened LogicalNodes
  import opened LogicalProgram
  import opened NodeRules
  import opened Routes
  import opened CompilerRules

  // The truth of every entry.
  ghost function Truths(t: Table, entries: Entries, m: Counts): Reg -> bool
    requires Acyclic(t) && Arity(t) && EntriesIn(t, entries)
  {
    (x: Reg) => x in entries && entries[x].Some? && Truth(t, entries[x].value, m)
  }

  // r says that every branch condition of the route goes the route's way; no node when there is none.
  ghost predicate RouteMeans(t: Table, entries: Entries, f: Func, route: Route, r: Option<nat>)
    requires Acyclic(t) && Arity(t) && EntriesIn(t, entries) && (r.Some? ==> r.value < |t|)
  {
    forall m: Counts :: (r.Some? ==> Truth(t, r.value, m)) <==> RouteHolds(f, route, Truths(t, entries, m))
  }

  ghost predicate StepMeans(t: Table, entries: Entries, f: Func, s: Step, n: nat)
    requires Acyclic(t) && Arity(t) && EntriesIn(t, entries) && n < |t|
  {
    forall m: Counts :: Truth(t, n, m) <==> StepHolds(f, s, Truths(t, entries, m))
  }

  lemma {:induction false} TruthsExtend(t: Table, t': Table, entries: Entries, m: Counts)
    requires Acyclic(t) && Arity(t) && Acyclic(t') && Arity(t') && t <= t' && EntriesIn(t, entries)
    ensures EntriesIn(t', entries)
    ensures forall x :: Truths(t', entries, m)(x) == Truths(t, entries, m)(x)
  {
    hide Val;
    forall x | x in entries && entries[x].Some? ensures Truth(t', entries[x].value, m) <==> Truth(t, entries[x].value, m) {
      ValExtends(t, t', entries[x].value, m);
    }
  }

  lemma {:induction false} RouteMeansExtends(t: Table, t': Table, entries: Entries, f: Func, route: Route, r: Option<nat>)
    requires Acyclic(t) && Arity(t) && Acyclic(t') && Arity(t') && t <= t' && EntriesIn(t, entries)
    requires (r.Some? ==> r.value < |t|) && RouteMeans(t, entries, f, route, r)
    ensures EntriesIn(t', entries) && RouteMeans(t', entries, f, route, r)
  {
    hide Val;
    forall m: Counts
      ensures EntriesIn(t', entries) && ((r.Some? ==> Truth(t', r.value, m)) <==> RouteHolds(f, route, Truths(t', entries, m)))
    {
      TruthsExtend(t, t', entries, m);
      if r.Some? { ValExtends(t, t', r.value, m); }
      assert (r.Some? ==> Truth(t, r.value, m)) <==> RouteHolds(f, route, Truths(t, entries, m));
      SameRoute(f, route, Truths(t, entries, m), Truths(t', entries, m));
    }
  }

  lemma {:induction false} SameRoute(f: Func, route: Route, a: Reg -> bool, b: Reg -> bool)
    requires forall x :: a(x) == b(x)
    ensures RouteHolds(f, route, a) <==> RouteHolds(f, route, b)
  {
    forall k | 0 <= k < |route| ensures StepHolds(f, route[k], a) <==> StepHolds(f, route[k], b) {}
  }

  // A taken condition is its entry, the other side its negation.
  lemma {:induction false} TakenMeans(t: Table, entries: Entries, f: Func, s: Step, n: nat)
    requires Acyclic(t) && Arity(t) && EntriesIn(t, entries) && n < |t|
    requires s.block < |f| && f[s.block].term.CondBr? && Find(entries, f[s.block].term.c) == At(n)
    ensures s.taken ==> StepMeans(t, entries, f, s, n)
    ensures !s.taken ==> forall r :: 0 <= r < |t| && Negates(t, r, n) ==> StepMeans(t, entries, f, s, r)
  {
    hide Val;
    forall m: Counts ensures StepHolds(f, s, Truths(t, entries, m)) <==> (Truth(t, n, m) == s.taken) {}
  }

  lemma {:induction false} RouteStep(t: Table, entries: Entries, f: Func, route: Route, k: nat, r: Option<nat>, n: nat, r': nat)
    requires Acyclic(t) && Arity(t) && EntriesIn(t, entries) && (r.Some? ==> r.value < |t|) && n < |t| && r' < |t|
    requires k < |route| && RouteMeans(t, entries, f, route[..k], r) && StepMeans(t, entries, f, route[k], n)
    requires if r.Some? then Conjoins(t, r', [r.value, n]) else r' == n
    ensures RouteMeans(t, entries, f, route[..k + 1], Some(r'))
  {
    hide Val;
    forall m: Counts ensures Truth(t, r', m) <==> RouteHolds(f, route[..k + 1], Truths(t, entries, m)) {
      var truth := Truths(t, entries, m);
      RoutePrefix(f, route, k, truth);
      assert Truth(t, n, m) <==> StepHolds(f, route[k], truth);
      assert (r.Some? ==> Truth(t, r.value, m)) <==> RouteHolds(f, route[..k], truth);
      if r.Some? {
        assert r.value in [r.value, n] && n in [r.value, n];
        assert AllTrue(t, [r.value, n], m) <==> Truth(t, r.value, m) && Truth(t, n, m);
      }
    }
  }

  lemma {:induction false} RoutePrefix(f: Func, route: Route, k: nat, truth: Reg -> bool)
    requires k < |route|
    ensures RouteHolds(f, route[..k + 1], truth) <==> RouteHolds(f, route[..k], truth) && StepHolds(f, route[k], truth)
  {
    assert route[..k + 1] == route[..k] + [route[k]];
    if RouteHolds(f, route[..k + 1], truth) {
      forall j | 0 <= j < k ensures StepHolds(f, route[..k][j], truth) { assert route[..k + 1][j] == route[j]; }
      assert route[..k + 1][k] == route[k];
    }
  }

  // A step without a condition adds nothing.
  lemma {:induction false} RouteSkip(t: Table, entries: Entries, f: Func, route: Route, k: nat, r: Option<nat>)
    requires Acyclic(t) && Arity(t) && EntriesIn(t, entries) && (r.Some? ==> r.value < |t|)
    requires k < |route| && RouteMeans(t, entries, f, route[..k], r)
    requires route[k].block < |f| && !f[route[k].block].term.CondBr?
    ensures RouteMeans(t, entries, f, route[..k + 1], r)
  {
    hide Val;
    forall m: Counts
      ensures (r.Some? ==> Truth(t, r.value, m)) <==> RouteHolds(f, route[..k + 1], Truths(t, entries, m))
    {
      RoutePrefix(f, route, k, Truths(t, entries, m));
      assert (r.Some? ==> Truth(t, r.value, m)) <==> RouteHolds(f, route[..k], Truths(t, entries, m));
    }
  }

  // ---- the contributions of the incoming edges ----

  predicate EndsIn(route: Route, block: nat) { route != [] && route[|route| - 1].block == block }

  // The run took the route and the value coming in along it is true.
  ghost predicate Contributes(f: Func, inc: Incoming, route: Route, truth: Reg -> bool) {
    && inc.value != Const(0) && EndsIn(route, inc.block) && RouteHolds(f, route, truth)
    && (inc.value.Var? ==> truth(inc.value.x))
  }

  ghost predicate SomeContributes(f: Func, inc: Incoming, routes: seq<Route>, truth: Reg -> bool) {
    exists r :: r in routes && Contributes(f, inc, r, truth)
  }

  ghost predicate PhiTrue(f: Func, ins: seq<Incoming>, routes: seq<Route>, truth: Reg -> bool) {
    exists k :: 0 <= k < |ins| && SomeContributes(f, ins[k], routes, truth)
  }

  ghost predicate Accumulated(t: Table, entries: Entries, f: Func, ln: Option<nat>, ins: seq<Incoming>, all: seq<Route>,
                              inc: Incoming, routes: seq<Route>)
    requires Acyclic(t) && Arity(t) && EntriesIn(t, entries) && (ln.Some? ==> ln.value < |t|)
  {
    forall m: Counts :: (ln.Some? && Truth(t, ln.value, m)) <==>
      PhiTrue(f, ins, all, Truths(t, entries, m)) || SomeContributes(f, inc, routes, Truths(t, entries, m))
  }

  lemma {:induction false} SameContributions(f: Func, ins: seq<Incoming>, all: seq<Route>, inc: Incoming, routes: seq<Route>,
                          a: Reg -> bool, b: Reg -> bool)
    requires forall x :: a(x) == b(x)
    ensures PhiTrue(f, ins, all, a) ==> PhiTrue(f, ins, all, b)
    ensures SomeContributes(f, inc, routes, a) ==> SomeContributes(f, inc, routes, b)
  {
    forall i, r | Contributes(f, i, r, a) ensures Contributes(f, i, r, b) { SameRoute(f, r, a, b); }
    forall i, rs | SomeContributes(f, i, rs, a) ensures SomeContributes(f, i, rs, b) {
      var r :| r in rs && Contributes(f, i, r, a);
      assert Contributes(f, i, r, b);
    }
  }

  lemma {:induction false} AccumulatedExtends(t: Table, t': Table, entries: Entries, f: Func, ln: Option<nat>, ins: seq<Incoming>,
                           all: seq<Route>, inc: Incoming, routes: seq<Route>)
    requires Acyclic(t) && Arity(t) && Acyclic(t') && Arity(t') && t <= t' && EntriesIn(t, entries)
    requires (ln.Some? ==> ln.value < |t|) && Accumulated(t, entries, f, ln, ins, all, inc, routes)
    ensures EntriesIn(t', entries) && Accumulated(t', entries, f, ln, ins, all, inc, routes)
  {
    hide Val;
    forall m: Counts ensures EntriesIn(t', entries) && ((ln.Some? && Truth(t', ln.value, m)) <==>
      PhiTrue(f, ins, all, Truths(t', entries, m)) || SomeContributes(f, inc, routes, Truths(t', entries, m)))
    {
      TruthsExtend(t, t', entries, m);
      if ln.Some? { ValExtends(t, t', ln.value, m); }
      var a, b := Truths(t, entries, m), Truths(t', entries, m);
      SameContributions(f, ins, all, inc, routes, a, b);
      SameContributions(f, ins, all, inc, routes, b, a);
      assert (ln.Some? && Truth(t, ln.value, m)) <==> PhiTrue(f, ins, all, a) || SomeContributes(f, inc, routes, a);
    }
  }

  // The node of one route with the incoming value, joined to what was there.
  lemma {:induction false} AccumulateStep(t: Table, entries: Entries, f: Func, ln: Option<nat>, ins: seq<Incoming>, all: seq<Route>,
                       inc: Incoming, routes: seq<Route>, r: Route, n: nat, ln': nat)
    requires Acyclic(t) && Arity(t) && EntriesIn(t, entries) && (ln.Some? ==> ln.value < |t|) && n < |t| && ln' < |t|
    requires Accumulated(t, entries, f, ln, ins, all, inc, routes)
    requires forall m: Counts :: Truth(t, n, m) <==> Contributes(f, inc, r, Truths(t, entries, m))
    requires if ln.Some? then Disjoins(t, ln', [ln.value, n]) else ln' == n
    ensures Accumulated(t, entries, f, Some(ln'), ins, all, inc, routes + [r])
  {
    hide Val;
    forall m: Counts ensures Truth(t, ln', m) <==>
      PhiTrue(f, ins, all, Truths(t, entries, m)) || SomeContributes(f, inc, routes + [r], Truths(t, entries, m))
    {
      var truth := Truths(t, entries, m);
      assert SomeContributes(f, inc, routes + [r], truth) <==>
        SomeContributes(f, inc, routes, truth) || Contributes(f, inc, r, truth) by
      {
        if SomeContributes(f, inc, routes, truth) {
          var q :| q in routes && Contributes(f, inc, q, truth);
          assert q in routes + [r];
        }
        assert r in routes + [r];
      }
      assert Truth(t, n, m) <==> Contributes(f, inc, r, truth);
      assert (ln.Some? && Truth(t, ln.value, m)) <==> PhiTrue(f, ins, all, truth) || SomeContributes(f, inc, routes, truth);
      if ln.Some? {
        assert ln.value in [ln.value, n] && n in [ln.value, n];
        assert AnyTrue(t, [ln.value, n], m) <==> Truth(t, ln.value, m) || Truth(t, n, m);
      }
    }
  }

  lemma {:induction false} ContributionMeans(t: Table, entries: Entries, f: Func, inc: Incoming, route: Route, r: nat, n: nat)
    requires Acyclic(t) && Arity(t) && EntriesIn(t, entries) && r < |t| && n < |t|
    requires RouteMeans(t, entries, f, route, Some(r)) && inc.value != Const(0) && EndsIn(route, inc.block)
    requires if inc.value.Var? then
      Find(entries, inc.value).At? && Find(entries, inc.value).id < |t| && Conjoins(t, n, [r, Find(entries, inc.value).id])
      else n == r
    ensures forall m: Counts :: Truth(t, n, m) <==> Contributes(f, inc, route, Truths(t, entries, m))
  {
    hide Val;
    forall m: Counts ensures Truth(t, n, m) <==> Contributes(f, inc, route, Truths(t, entries, m)) {
      assert (Some(r).Some? ==> Truth(t, r, m)) <==> RouteHolds(f, route, Truths(t, entries, m));
      if inc.value.Var? {
        var l := Find(entries, inc.value).id;
        assert l in [r, l] && r in [r, l];
        assert AllTrue(t, [r, l], m) <==> Truth(t, r, m) && Truth(t, l, m);
      }
    }
  }

  // All routes into one incoming block done: go on to the next incoming edge.
  lemma {:induction false} NextIncoming(t: Table, entries: Entries, f: Func, ln: Option<nat>, ins: seq<Incoming>, k: nat, all: seq<Route>,
                     found: seq<Route>, next: Incoming)
    requires Acyclic(t) && Arity(t) && EntriesIn(t, entries) && (ln.Some? ==> ln.value < |t|) && k < |ins|
    requires Accumulated(t, entries, f, ln, ins[..k], all, ins[k], found)
    requires if ins[k].value == Const(0) then found == [] else forall r :: r in found <==> r in all && EndsIn(r, ins[k].block)
    ensures Accumulated(t, entries, f, ln, ins[..k + 1], all, next, [])
  {
    hide Val;
    forall m: Counts ensures (ln.Some? && Truth(t, ln.value, m)) <==>
      PhiTrue(f, ins[..k + 1], all, Truths(t, entries, m)) || SomeContributes(f, next, [], Truths(t, entries, m))
    {
      var truth := Truths(t, entries, m);
      assert (ln.Some? && Truth(t, ln.value, m)) <==> PhiTrue(f, ins[..k], all, truth) || SomeContributes(f, ins[k], found, truth);
      assert SomeContributes(f, ins[k], found, truth) <==> SomeContributes(f, ins[k], all, truth);
      PhiPrefix(f, ins, k, all, truth);
    }
  }

  lemma {:induction false} PhiPrefix(f: Func, ins: seq<Incoming>, k: nat, all: seq<Route>, truth: Reg -> bool)
    requires k < |ins|
    ensures PhiTrue(f, ins[..k + 1], all, truth) <==> PhiTrue(f, ins[..k], all, truth) || SomeContributes(f, ins[k], all, truth)
  {
    assert ins[..k + 1] == ins[..k] + [ins[k]];
    if PhiTrue(f, ins[..k + 1], all, truth) {
      var j :| 0 <= j < k + 1 && SomeContributes(f, ins[..k + 1][j], all, truth);
      if j < k { assert ins[..k][j] == ins[..k + 1][j]; }
    }
    if PhiTrue(f, ins[..k], all, truth) {
      var j :| 0 <= j < k && SomeContributes(f, ins[..k][j], all, truth);
      assert ins[..k + 1][j] == ins[..k][j];
    }
    assert ins[..k + 1][k] == ins[k];
  }

  // ---- the phi's value in a run ----

  // An incoming edge whose block is prev carries the operand the phi selects.
  lemma {:induction false} ChosenFrom(ins: seq<Incoming>, prev: nat, k: nat)
    requires k < |ins| && ins[k].block == prev
    requires forall i, j :: 0 <= i < |ins| && 0 <= j < |ins| && ins[i].block == ins[j].block ==> ins[i].value == ins[j].value
    ensures Chosen(ins, prev) == ins[k].value
  {
    if ins[0].block != prev {
      assert ins[1..][k - 1] == ins[k];
      ChosenFrom(ins[1..], prev, k - 1);
    }
  }

  lemma {:induction false} ChosenListed(ins: seq<Incoming>, prev: nat)
    ensures Chosen(ins, prev) == Const(0) || exists k :: 0 <= k < |ins| && ins[k].block == prev && ins[k].value == Chosen(ins, prev)
  {
    if ins != [] && ins[0].block != prev {
      ChosenListed(ins[1..], prev);
      if Chosen(ins, prev) != Const(0) {
        var k :| 0 <= k < |ins[1..]| && ins[1..][k].block == prev && ins[1..][k].value == Chosen(ins[1..], prev);
        assert ins[k + 1] == ins[1..][k];
      }
    }
  }

  // In a run along path into the phi's block, exactly the run's own route holds, so the phi node is
  // true just when the operand selected by the run is.
  lemma {:induction false} PhiValue(f: Func, p: Phi, path: seq<nat>, routes: seq<Route>, env: Env, truth: Reg -> bool)
    requires Forward(f) && PhiFragment(p) && |path| > 1 && (forall b :: b in path ==> b < |f|)
    requires multiset(routes) == multiset(Onward(f, 0, Last(path), []))
    requires OnlyHolding(f, 0, Last(path), RunRoute(f, path, env), truth)
    requires var o := Chosen(p.ins, path[|path| - 2]);
      o.Var? ==> (truth(o.x) <==> Eval(o, env) != 0)
    ensures PhiTrue(f, p.ins, routes, truth) <==> Eval(Chosen(p.ins, path[|path| - 2]), env) != 0
  {
    var prev, end, own := path[|path| - 2], Last(path), RunRoute(f, path, env);
    var o := Chosen(p.ins, prev);
    OnwardExact(f, 0, end, []);
    RunRouteEnds(f, path, env);
    forall r ensures r in routes <==> Walk(f, 0, end, r) {
      assert r in multiset(routes) <==> r in multiset(Onward(f, 0, end, []));
      assert r[..0] == [] && r[0..] == r;
    }
    if PhiTrue(f, p.ins, routes, truth) {
      var k :| 0 <= k < |p.ins| && SomeContributes(f, p.ins[k], routes, truth);
      var r :| r in routes && Contributes(f, p.ins[k], r, truth);
      assert r == own;
      ChosenFrom(p.ins, prev, k);
    }
    if Eval(o, env) != 0 {
      ChosenListed(p.ins, prev);
      var k :| 0 <= k < |p.ins| && p.ins[k].block == prev && p.ins[k].value == o;
      assert own in routes && Contributes(f, p.ins[k], own, truth);
      assert SomeContributes(f, p.ins[k], routes, truth);
    }
  }

  lemma {:induction false} EmptyRoute(t: Table, entries: Entries, f: Func, route: Route)
    requires Acyclic(t) && Arity(t) && EntriesIn(t, entries)
    ensures RouteMeans(t, entries, f, route[..0], None)
  {
  }

  lemma {:induction false} StepMeansExtends(t: Table, t': Table, entries: Entries, f: Func, s: Step, n: nat)
    requires Acyclic(t) && Arity(t) && Acyclic(t') && Arity(t') && t <= t' && EntriesIn(t, entries) && n < |t|
    requires StepMeans(t, entries, f, s, n)
    ensures EntriesIn(t', entries) && StepMeans(t', entries, f, s, n)
  {
    hide Val;
    forall m: Counts
      ensures EntriesIn(t', entries) && (Truth(t', n, m) <==> StepHolds(f, s, Truths(t', entries, m)))
    {
      TruthsExtend(t, t', entries, m);
      ValExtends(t, t', n, m);
      assert Truth(t, n, m) <==> StepHolds(f, s, Truths(t, entries, m));
    }
  }

  ghost predicate ContributesAs(t: Table, entries: Entries, f: Func, inc: Incoming, r: Route, n: nat)
    requires Acyclic(t) && Arity(t) && EntriesIn(t, entries) && n < |t|
  {
    forall m: Counts :: Truth(t, n, m) <==> Contributes(f, inc, r, Truths(t, entries, m))
  }

  lemma {:induction false} ContributesExtends(t: Table, t': Table, entries: Entries, f: Func, inc: Incoming, r: Route, n: nat)
    requires Acyclic(t) && Arity(t) && Acyclic(t') && Arity(t') && t <= t' && EntriesIn(t, entries) && n < |t|
    requires ContributesAs(t, entries, f, inc, r, n)
    ensures EntriesIn(t', entries) && ContributesAs(t', entries, f, inc, r, n)
  {
    hide Val;
    forall m: Counts
      ensures EntriesIn(t', entries) && (Truth(t', n, m) <==> Contributes(f, inc, r, Truths(t', entries, m)))
    {
      TruthsExtend(t, t', entries, m);
      ValExtends(t, t', n, m);
      SameRoute(f, r, Truths(t, entries, m), Truths(t', entries, m));
      assert Truth(t, n, m) <==> Contributes(f, inc, r, Truths(t, entries, m));
    }
  }

  // The phi's node is true just when some incoming edge contributes.
  ghost predicate PhiMeans(t: Table, entries: Entries, f: Func, b: nat, p: Phi, n: nat)
    requires Acyclic(t) && Arity(t) && EntriesIn(t, entries) && n < |t| && Closed(f) && f != []
  {
    forall m: Counts :: Truth(t, n, m) <==> PhiTrue(f, p.ins, Onward(f, 0, b, []), Truths(t, entries, m))
  }

  lemma {:induction false} StartPhi(t: Table, entries: Entries, f: Func, ins: seq<Incoming>, all: seq<Route>)
    requires Acyclic(t) && Arity(t) && EntriesIn(t, entries)
    ensures Accumulated(t, entries, f, None, ins[..0], all, if ins != [] then ins[0] else Incoming(Const(0), 0), [])
  {
  }

  lemma {:induction false} PhiFinished(t: Table, entries: Entries, f: Func, b: nat, p: Phi, all: seq<Route>, n: nat)
    requires Acyclic(t) && Arity(t) && EntriesIn(t, entries) && n < |t| && Closed(f) && f != []
    requires multiset(all) == multiset(Onward(f, 0, b, []))
    requires Accumulated(t, entries, f, Some(n), p.ins, all, Incoming(Const(0), 0), [])
    ensures PhiMeans(t, entries, f, b, p, n)
  {
    hide Val, Onward;
    var on := Onward(f, 0, b, []);
    forall r ensures r in all <==> r in on { assert r in multiset(all) <==> r in multiset(on); }
    forall m: Counts ensures Truth(t, n, m) <==> PhiTrue(f, p.ins, on, Truths(t, entries, m)) {
      var truth := Truths(t, entries, m);
      forall i: Incoming ensures SomeContributes(f, i, all, truth) <==> SomeContributes(f, i, on, truth) {}
      assert (Some(n).Some? && Truth(t, n, m)) <==>
        PhiTrue(f, p.ins, all, truth) || SomeContributes(f, Incoming(Const(0), 0), [], truth);
    }
  }

  // Routes stay inside the function.
  lemma {:induction false} RoutesInside(f: Func, b: nat, all: seq<Route>)
    requires Closed(f) && f != [] && multiset(all) == multiset(Onward(f, 0, b, []))
    ensures forall r, c :: r in all && c in Blocks(r) ==> c < |f|
  {
    OnwardInside(f, 0, b, []);
    forall r | r in all ensures Simple(f, r) { assert r in multiset(Onward(f, 0, b, [])); }
  }

  lemma {:induction false} OnwardInside(f: Func, curr: nat, end: nat, r: Route)
    requires Closed(f) && curr < |f| && Simple(f, r)
    ensures forall x :: x in Onward(f, curr, end, r) ==> Simple(f, x)
    decreases |f| - |r|
  {
    if curr == end || curr in Blocks(r) || f[curr].term.Ret? { return; }
    SimpleExtends(f, r, Step(curr, true));
    SimpleExtends(f, r, Step(curr, false));
    match f[curr].term
    case Br(s) =>
      assert s in Targets(f[curr].term);
      OnwardInside(f, s, end, r + [Step(curr, true)]);
    case CondBr(_, s, t) =>
      assert s in Targets(f[curr].term) && t in Targets(f[curr].term);
      OnwardInside(f, s, end, r + [Step(curr, true)]);
      OnwardInside(f, t, end, r + [Step(curr, false)]);
  }
}

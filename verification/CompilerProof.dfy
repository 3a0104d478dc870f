// The value map agrees with every run, block after block.
module CompilerProof {
  import opened Words
  import opened LogicalNodes
  import opened LogicalProgram
  import opened NodeRules
  import opened Routes
  import opened CompilerRules
  import opened PhiRules

  function DefsBefore(f: Func, b: nat): set<Reg>
    requires b <= |f|
  {
    set c, x | 0 <= c < b && x in Defs(f[c]) :: x
  }

  // Wherever a run reaches a definition that has an entry, the entry means the run's value.
  ghost predicate AgreesWithRuns(f: Func, t: Table, entries: Entries)
    requires Forward(f) && Acyclic(t) && Arity(t) && EntriesIn(t, entries)
  {
    forall input: Input :: Agree(t, entries, input.counts, Execute(f, input).env)
  }

  // The conditions of the blocks done so far have entries, and were defined by then.
  ghost predicate KnownConditions(f: Func, entries: Entries, b: nat)
    requires b <= |f|
  {
    forall c :: 0 <= c < b && f[c].term.CondBr? ==>
      Find(entries, f[c].term.c).At? && f[c].term.c.x in DefsBefore(f, c + 1)
  }

  ghost predicate Progress(f: Func, t: Table, entries: Entries, b: nat, defined: set<Reg>)
    requires Forward(f) && Acyclic(t) && Arity(t) && b <= |f|
  {
    && EntriesIn(t, entries) && AgreesWithRuns(f, t, entries) && KnownConditions(f, entries, b)
    && entries.Keys <= DefsBefore(f, b) + defined
  }

  lemma {:induction false} ProgressKnown(f: Func, t: Table, entries: Entries, b: nat, defined: set<Reg>)
    requires Forward(f) && Acyclic(t) && Arity(t) && b <= |f| && Progress(f, t, entries, b, defined)
    ensures EntriesIn(t, entries)
  {
  }

  lemma {:induction false} PathIncreases(f: Func, path: seq<nat>, j: nat, k: nat)
    requires Forward(f) && IsPath(f, path) && j < k < |path|
    ensures path[j] < path[k]
    decreases k - j
  {
    assert path[k] in Targets(f[path[k - 1]].term);
    if j < k - 1 { PathIncreases(f, path, j, k - 1); }
  }

  // A value of block b that a run has computed was computed by visiting b.
  lemma {:induction false} VisitedAt(f: Func, input: Input, b: nat, x: Reg) returns (k: nat)
    requires Forward(f) && SSA(f) && b < |f| && x in Defs(f[b]) && x in Execute(f, input).env
    ensures var r := Execute(f, input);
      IsRun(f, input, r) && k < |r.path| && r.path[k] == b && BlockHolds(f[b], Last(r.path[..k]), r.env, input)
  {
    hide BlockHolds, UsesFollowDefs, Follows, IsPath, Execute;
    ExecuteSolves(f, input);
    var r := Execute(f, input);
    assert x in Avail(f, r.path);
    var c :| c in r.path && x in Defs(f[c]);
    k :| 0 <= k < |r.path| && r.path[k] == c;
  }

  lemma {:induction false} InstProgress(f: Func, b: nat, i: Inst, t: Table, entries: Entries, t': Table,
      entries': Entries, defined: set<Reg>)
    requires Supported(f) && b < |f| && i in f[b].insts && Acyclic(t) && Arity(t) && Acyclic(t') && Arity(t')
    requires EntriesIn(t, entries) && EntriesIn(t', entries')
    requires Progress(f, t, entries, b, defined) && Keeps(t, entries, t', entries', i)
    requires entries' == entries || (i.x in entries' && entries' == entries[i.x := entries'[i.x]])
    ensures Progress(f, t', entries', b, defined + {i.x})
  {
    hide Val, EvalInst, Fragment, PhiFragment, Execute, InstHolds, UsesFollowDefs, IsRun;
    assert i.x in Defs(f[b]);
    forall input: Input ensures Agree(t', entries', input.counts, Execute(f, input).env) {
      var env := Execute(f, input).env;
      assert Agree(t, entries, input.counts, env);
      if i.x in env {
        var k := VisitedAt(f, input, b, i.x);
        assert InstHolds(i, env, input);
      }
    }
    KnownKept(f, entries, entries', b, i.x);
  }

  lemma {:induction false} KnownKept(f: Func, entries: Entries, entries': Entries, b: nat, x: Reg)
    requires SingleDefs(f) && b < |f| && x in Defs(f[b]) && KnownConditions(f, entries, b)
    requires entries' == entries || (x in entries' && entries' == entries[x := entries'[x]])
    ensures KnownConditions(f, entries', b)
  {
    forall c | 0 <= c < b && f[c].term.CondBr?
      ensures Find(entries', f[c].term.c).At? && f[c].term.c.x in DefsBefore(f, c + 1)
    {
      var y := f[c].term.c.x;
      assert y in DefsBefore(f, c + 1);
      var d :| 0 <= d < c + 1 && y in Defs(f[d]);
      assert Defs(f[d]) !! Defs(f[b]);
    }
  }

  lemma {:induction false} ConditionTruth(f: Func, c: nat, env: Env, t: Table, entries: Entries, m: Counts)
    requires c < |f| && Acyclic(t) && Arity(t) && EntriesIn(t, entries) && Agree(t, entries, m, env)
    requires TermFragment(f[c].term) && TermReady(f[c].term, env.Keys)
    requires f[c].term.CondBr? ==> Find(entries, f[c].term.c).At?
    ensures TruthAt(f, c, env, Truths(t, entries, m))
  {
    hide Val;
    if f[c].term.CondBr? {
      var x := f[c].term.c.x;
      assert Means(t, x, entries[x].value, m, env[x]);
    }
  }

  // The truth of the entries along a run, up to block b.
  lemma {:induction false} RunTruths(f: Func, input: Input, r: Run, t: Table, entries: Entries, b: nat, k: nat)
    requires Supported(f) && b < |f| && Acyclic(t) && Arity(t) && EntriesIn(t, entries)
    requires Agree(t, entries, input.counts, r.env) && KnownConditions(f, entries, b)
    requires IsRun(f, input, r) && k < |r.path| && r.path[k] == b
    ensures TruthOf(f, r.path[..k], r.env, Truths(t, entries, input.counts))
  {
    hide Val, Fragment, PhiFragment, InstHolds, PhiHolds, TermFragment, Agree, UsesFollowDefs, SingleDefs;
    forall c | c in r.path[..k] ensures TruthAt(f, c, r.env, Truths(t, entries, input.counts)) {
      var j :| 0 <= j < k && r.path[j] == c;
      PathIncreases(f, r.path, j, k);
      assert BlockHolds(f[c], Last(r.path[..j]), r.env, input);
      ConditionTruth(f, c, r.env, t, entries, input.counts);
    }
  }

  lemma {:induction false} PhiProgress(f: Func, b: nat, p: Phi, t: Table, entries: Entries, t': Table,
      entries': Entries, defined: set<Reg>)
    requires Supported(f) && b < |f| && p in f[b].phis && Acyclic(t) && Arity(t) && Acyclic(t') && Arity(t') && t <= t'
    requires Progress(f, t, entries, b, defined) && EntriesIn(t', entries) && EntriesIn(t', entries')
    requires p.x in entries' && entries' == entries[p.x := entries'[p.x]]
    requires PhiOperandsFound(f, b, p, entries)
    requires entries'[p.x].Some? ==> PhiMeans(t', entries, f, b, p, entries'[p.x].value)
    ensures Progress(f, t', entries', b, defined + {p.x})
  {
    hide Val, Fragment;
    assert p.x in Defs(f[b]);
    forall input: Input ensures Agree(t', entries', input.counts, Execute(f, input).env) {
      var env := Execute(f, input).env;
      AgreeExtends(t, t', entries, input.counts, env);
      assert Agree(t', entries, input.counts, env);
      if p.x in env && entries'[p.x].Some? {
        PhiAgrees(f, input, b, p, t', entries, entries'[p.x].value);
      }
    }
    KnownKept(f, entries, entries', b, p.x);
  }

  // Every value that can come into the phi has an entry with a node.
  ghost predicate PhiOperandsFound(f: Func, b: nat, p: Phi, entries: Entries)
    requires Closed(f) && f != []
  {
    forall k, r :: 0 <= k < |p.ins| && p.ins[k].value.Var? && r in Onward(f, 0, b, []) && EndsIn(r, p.ins[k].block) ==>
      Find(entries, p.ins[k].value).At?
  }

  lemma {:induction false} PhiAgrees(f: Func, input: Input, b: nat, p: Phi, t: Table, entries: Entries, n: nat)
    requires Supported(f) && b < |f| && p in f[b].phis && Acyclic(t) && Arity(t) && EntriesIn(t, entries) && n < |t|
    requires KnownConditions(f, entries, b) && PhiOperandsFound(f, b, p, entries)
    requires Agree(t, entries, input.counts, Execute(f, input).env)
    requires PhiMeans(t, entries, f, b, p, n) && p.x in Execute(f, input).env
    ensures Means(t, p.x, n, input.counts, Execute(f, input).env[p.x])
  {
    hide Val, Fragment, Onward, PhiTrue, PhiOperandsFound, KnownConditions, Agree, UsesFollowDefs, InstHolds;
    hide Execute, OnlyHolding, PhiFragment, PhiHolds, IsRun, Means;
    var r := Execute(f, input);
    assert p.x in Defs(f[b]);
    var k := VisitedAt(f, input, b, p.x);
    assert PhiHolds(p, Last(r.path[..k]), r.env);
    OnlyOwnRoute(f, input, r, t, entries, b, k);
    PhiNodeValue(f, r.path[..k + 1], r.env, p, t, entries, input.counts, n);
  }

  // Among the routes to block b only the one the run took holds.
  lemma {:induction false} OnlyOwnRoute(f: Func, input: Input, r: Run, t: Table, entries: Entries, b: nat, k: nat)
    requires Supported(f) && b < |f| && Acyclic(t) && Arity(t) && EntriesIn(t, entries)
    requires Agree(t, entries, input.counts, r.env) && KnownConditions(f, entries, b)
    requires IsRun(f, input, r) && k < |r.path| && r.path[k] == b && f[b].phis != []
    ensures var path := r.path[..k + 1];
      && k > 0 && path[k - 1] == Last(r.path[..k]) && Last(path) == b && (forall c :: c in path ==> c < |f|)
      && OnlyHolding(f, 0, b, RunRoute(f, path, r.env), Truths(t, entries, input.counts))
  {
    hide Val, Fragment, PhiFragment, TermFragment, Agree, UsesFollowDefs, SingleDefs, OnlyHolding, KnownConditions;
    hide Solved, Follows, TruthOf;
    var path := r.path[..k + 1];
    PathPrefix(f, r.path, r.env, k, path);
    assert k != 0;
    assert path[..|path| - 1] == r.path[..k];
    RunTruths(f, input, r, t, entries, b, k);
    OnlyRunRoute(f, path, r.env, Truths(t, entries, input.counts));
  }

  lemma {:induction false} PathPrefix(f: Func, path: seq<nat>, env: Env, k: nat, p: seq<nat>)
    requires Forward(f) && IsPath(f, path) && Follows(f, path, env) && k < |path| && p == path[..k + 1]
    ensures Follows(f, p, env) && p[0] == 0 && Last(p) == path[k]
    ensures (forall c :: c in p ==> c < |f|) && forall j :: 0 <= j < |p| - 1 ==> p[j] != Last(p)
  {
    forall j | 0 <= j < k ensures p[j] != path[k] { PathIncreases(f, path, j, k); }
    forall c | c in p ensures c < |f| { assert c in path; }
    forall j | 0 <= j < |p| - 1
      ensures p[j] < |f| && !f[p[j]].term.Ret? && p[j + 1] == Next(f[p[j]].term, env)
    { assert p[j] == path[j] && p[j + 1] == path[j + 1]; }
  }

  lemma {:induction false} PhiNodeValue(f: Func, path: seq<nat>, env: Env, p: Phi, t: Table, entries: Entries,
      m: Counts, n: nat)
    requires Forward(f) && PhiFragment(p) && |path| > 1 && (forall c :: c in path ==> c < |f|)
    requires Acyclic(t) && Arity(t) && EntriesIn(t, entries) && Agree(t, entries, m, env) && n < |t|
    requires OnlyHolding(f, 0, Last(path), RunRoute(f, path, env), Truths(t, entries, m))
    requires PhiOperandsFound(f, Last(path), p, entries) && PhiHolds(p, path[|path| - 2], env)
    requires PhiMeans(t, entries, f, Last(path), p, n)
    ensures Means(t, p.x, n, m, env[p.x])
  {
    hide Val, Onward, PhiTrue, PhiOperandsFound;
    var truth := Truths(t, entries, m);
    var o := Chosen(p.ins, path[|path| - 2]);
    if o.Var? { OperandTruth(f, path, env, p, t, entries, m); }
    PhiValue(f, p, path, Onward(f, 0, Last(path), []), env, truth);
    assert Truth(t, n, m) <==> PhiTrue(f, p.ins, Onward(f, 0, Last(path), []), truth);
  }

  // The operand the phi selects in a run has an entry, so its truth is the run's.
  lemma {:induction false} OperandTruth(f: Func, path: seq<nat>, env: Env, p: Phi, t: Table, entries: Entries, m: Counts)
    requires Forward(f) && PhiFragment(p) && |path| > 1 && (forall c :: c in path ==> c < |f|)
    requires Acyclic(t) && Arity(t) && EntriesIn(t, entries) && Agree(t, entries, m, env)
    requires OnlyHolding(f, 0, Last(path), RunRoute(f, path, env), Truths(t, entries, m))
    requires PhiOperandsFound(f, Last(path), p, entries) && PhiHolds(p, path[|path| - 2], env)
    requires Chosen(p.ins, path[|path| - 2]).Var?
    ensures var o := Chosen(p.ins, path[|path| - 2]); Truths(t, entries, m)(o.x) <==> Eval(o, env) != 0
  {
    hide Val;
    var prev, own := path[|path| - 2], RunRoute(f, path, env);
    var o := Chosen(p.ins, prev);
    ChosenListed(p.ins, prev);
    var k :| 0 <= k < |p.ins| && p.ins[k].block == prev && p.ins[k].value == o;
    OnwardExact(f, 0, Last(path), []);
    RunRouteEnds(f, path, env);
    assert own[..0] == [] && own[0..] == own && own in Onward(f, 0, Last(path), []);
    assert EndsIn(own, prev) && Find(entries, o).At?;
    assert Means(t, o.x, entries[o.x].value, m, env[o.x]);
  }

  lemma {:induction false} OperandsFound(f: Func, b: nat, p: Phi, entries: Entries, all: seq<Route>)
    requires Closed(f) && f != [] && multiset(all) == multiset(Onward(f, 0, b, []))
    requires forall j, r :: 0 <= j < |p.ins| && p.ins[j].value.Var? && r in all && EndsIn(r, p.ins[j].block) ==>
      Find(entries, p.ins[j].value).At?
    ensures PhiOperandsFound(f, b, p, entries)
  {
    forall r | r in Onward(f, 0, b, []) ensures r in all { assert r in multiset(all); }
  }

  // ---- exits ----

  // The exit node of a return of v.
  ghost predicate ExitFor(t: Table, entries: Entries, v: Operand, n: nat)
    requires Acyclic(t) && Arity(t) && EntriesIn(t, entries) && n < |t|
  {
    if v.Const? then forall m: Counts :: Truth(t, n, m) <==> v.v != 0
    else Find(entries, v).At? && forall m: Counts :: Truth(t, n, m) <==> Truth(t, Find(entries, v).id, m)
  }

  lemma {:induction false} ConstantExit(t: Table, entries: Entries, v: Operand, top: nat, n: nat)
    requires Acyclic(t) && Arity(t) && EntriesIn(t, entries) && top < |t| && n < |t| && t[top].kind == True && v.Const?
    requires if v.v == 0 then Negates(t, n, top) else n == top
    ensures ExitFor(t, entries, v, n)
  {
    forall m: Counts ensures Truth(t, n, m) <==> v.v != 0 {
      assert Truth(t, top, m);
    }
  }

  lemma {:induction false} ExitNode(t: Table, entries: Entries, v: Operand, id: nat, n: nat)
    requires Acyclic(t) && Arity(t) && EntriesIn(t, entries) && n < |t| && id < |t|
    requires v.Var? && Find(entries, v) == At(id) && Conjoins(t, n, [id])
    ensures ExitFor(t, entries, v, n)
  {
    hide Val;
    forall m: Counts ensures Truth(t, n, m) <==> Truth(t, id, m) {
      assert id in [id];
      assert AllTrue(t, [id], m) <==> Truth(t, id, m);
    }
  }

  // A return adds one exit: a nonzero constant to one list, anything else to the other.
  ghost predicate ExitAdded(t: Table, entries: Entries, v: Operand, or0: seq<nat>, and0: seq<nat>, or1: seq<nat>,
      and1: seq<nat>, exact: bool)
    requires Acyclic(t) && Arity(t) && EntriesIn(t, entries)
  {
    exists n: nat :: n < |t| && (exact ==> ExitFor(t, entries, v, n))
      && if v.Const? && v.v != 0 then or1 == or0 && and1 == and0 + [n] else or1 == or0 + [n] && and1 == and0
  }

  lemma {:induction false} AddExit(t: Table, entries: Entries, v: Operand, exitsOr: seq<nat>, exitsAnd: seq<nat>,
      n: nat, exact: bool)
    requires Acyclic(t) && Arity(t) && EntriesIn(t, entries) && n < |t| && (exact ==> ExitFor(t, entries, v, n))
    ensures if v.Const? && v.v != 0 then ExitAdded(t, entries, v, exitsOr, exitsAnd, exitsOr, exitsAnd + [n], exact)
            else ExitAdded(t, entries, v, exitsOr, exitsAnd, exitsOr + [n], exitsAnd, exact)
  {
  }

  // A node whose truth is the function's result.
  ghost predicate Compiles(f: Func, t: Table, n: nat)
    requires Acyclic(t) && Arity(t) && n < |t|
  {
    Forward(f) && forall input: Input :: Truth(t, n, input.counts) <==> Execute(f, input).value != 0
  }

  // Before the return there is no exit, after it exactly one, meaning the result.
  ghost predicate Exits(f: Func, t: Table, exitsOr: seq<nat>, exitsAnd: seq<nat>, b: nat)
    requires Acyclic(t) && Arity(t) && b <= |f| && In(t, exitsOr) && In(t, exitsAnd)
  {
    if exists c :: 0 <= c < b && f[c].term.Ret? then
      exists n: nat :: n < |t| && Compiles(f, t, n) && ((exitsOr == [n] && exitsAnd == []) || (exitsOr == [] && exitsAnd == [n]))
    else exitsOr == [] && exitsAnd == []
  }

  lemma {:induction false} CompilesExtends(f: Func, t: Table, t': Table, n: nat)
    requires Acyclic(t) && Arity(t) && Acyclic(t') && Arity(t') && t <= t' && n < |t|
    requires Compiles(f, t, n)
    ensures Compiles(f, t', n)
  {
    hide Val, Execute;
    forall input: Input ensures Truth(t', n, input.counts) <==> Execute(f, input).value != 0 {
      ValExtends(t, t', n, input.counts);
      assert Truth(t, n, input.counts) <==> Execute(f, input).value != 0;
    }
  }

  // The only return gives the result of every run.
  lemma {:induction false} ExitCompiles(f: Func, b: nat, t: Table, entries: Entries, n: nat)
    requires Supported(f) && b < |f| && f[b].term.Ret? && Acyclic(t) && Arity(t) && EntriesIn(t, entries) && n < |t|
    requires AgreesWithRuns(f, t, entries) && ExitFor(t, entries, f[b].term.v, n)
    ensures Compiles(f, t, n)
  {
    hide Val, Fragment, PhiFragment;
    forall input: Input ensures Truth(t, n, input.counts) <==> Execute(f, input).value != 0 {
      ExecuteSolves(f, input);
      var r, v := Execute(f, input), f[b].term.v;
      var k := |r.path| - 1;
      assert Last(r.path) == b && r.path[k] == b;
      assert BlockHolds(f[b], Last(r.path[..k]), r.env, input);
      assert Agree(t, entries, input.counts, r.env) && TermFragment(f[b].term);
      if v.Var? {
        assert Means(t, v.x, entries[v.x].value, input.counts, r.env[v.x]);
      }
    }
  }

  ghost predicate InFragment(f: Func, b: nat)
    requires b < |f|
  {
    && (forall p :: p in f[b].phis ==> PhiFragment(p)) && (forall i :: i in f[b].insts ==> Fragment(i))
    && TermFragment(f[b].term)
  }

  lemma {:induction false} FragmentOf(f: Func, b: nat)
    requires Supported(f) && b < |f|
    ensures Forward(f) && InFragment(f, b)
  {
  }

  lemma {:induction false} StartProgress(f: Func, t: Table)
    requires Supported(f) && Acyclic(t) && Arity(t)
    ensures Forward(f) && Progress(f, t, map[], 0, {}) && Exits(f, t, [], [], 0)
  {
    assert DefsBefore(f, 0) == {};
  }

  lemma {:induction false} TermProgress(f: Func, b: nat, t: Table, t': Table, entries: Entries, defined: set<Reg>)
    requires Supported(f) && b < |f| && Acyclic(t) && Arity(t) && Acyclic(t') && Arity(t') && t <= t'
    requires Progress(f, t, entries, b, defined) && defined <= Defs(f[b])
    requires f[b].term.CondBr? ==> Find(entries, f[b].term.c).At?
    ensures EntriesIn(t', entries) && AgreesWithRuns(f, t', entries) && Progress(f, t', entries, b + 1, {})
  {
    hide Val, Fragment, PhiFragment, Execute, Agree;
    forall input: Input
      ensures EntriesIn(t', entries) && Agree(t', entries, input.counts, Execute(f, input).env)
    {
      AgreeExtends(t, t', entries, input.counts, Execute(f, input).env);
    }
    forall x | x in DefsBefore(f, b) || x in defined ensures x in DefsBefore(f, b + 1) {
      if x in DefsBefore(f, b) {
        var c :| 0 <= c < b && x in Defs(f[c]);
      }
    }
  }

  lemma {:induction false} ExitsStep(f: Func, b: nat, t: Table, t': Table, entries: Entries, defined: set<Reg>,
                  or0: seq<nat>, and0: seq<nat>, or1: seq<nat>, and1: seq<nat>)
    requires Supported(f) && b < |f| && Acyclic(t) && Arity(t) && Acyclic(t') && Arity(t') && t <= t'
    requires In(t, or0) && In(t, and0) && In(t', or1) && In(t', and1) && EntriesIn(t', entries)
    requires Exits(f, t, or0, and0, b) && AgreesWithRuns(f, t', entries)
    requires if f[b].term.Ret? then ExitAdded(t', entries, f[b].term.v, or0, and0, or1, and1, true)
             else or1 == or0 && and1 == and0
    ensures Exits(f, t', or1, and1, b + 1)
  {
    hide Val, Fragment, PhiFragment, Compiles, AgreesWithRuns, SSA, Forward;
    if f[b].term.Ret? {
      assert !exists c :: 0 <= c < b && f[c].term.Ret?;
      var n: nat :| n < |t'| && ExitFor(t', entries, f[b].term.v, n)
        && ((or1 == or0 + [n] && and1 == and0) || (or1 == or0 && and1 == and0 + [n]));
      ExitCompiles(f, b, t', entries, n);
    } else if c :| 0 <= c < b && f[c].term.Ret? {
      var n: nat :| n < |t| && Compiles(f, t, n) && ((or0 == [n] && and0 == []) || (or0 == [] && and0 == [n]));
      CompilesExtends(f, t, t', n);
    }
  }

  // What the root says of the exits, however many: some alternative, unless there are none, and all the rest.
  ghost predicate JoinsExits(t: Table, root: nat, exitsOr: seq<nat>, exitsAnd: seq<nat>) {
    && Acyclic(t) && Arity(t) && root < |t| && In(t, exitsOr) && In(t, exitsAnd)
    && forall m: Counts :: Truth(t, root, m) <==> (exitsOr == [] || AnyTrue(t, exitsOr, m)) && AllTrue(t, exitsAnd, m)
  }

  lemma {:induction false} RootJoins(t0: Table, t1: Table, t2: Table, t: Table, exitsOr: seq<nat>, exitsAnd: seq<nat>,
                  any: nat, all: nat, root: nat)
    requires WellFormed(t0) && WellFormed(t1) && WellFormed(t2) && WellFormed(t) && t0 <= t1 <= t2 <= t
    requires In(t0, exitsOr) && In(t0, exitsAnd) && any < |t1| && all < |t2| && root < |t|
    requires if exitsOr == [] then t1[any].kind == True else In(t1, exitsOr) && Disjoins(t1, any, exitsOr)
    requires if exitsAnd == [] then t2[all].kind == True else In(t2, exitsAnd) && Conjoins(t2, all, exitsAnd)
    requires In(t, [any, all]) && Conjoins(t, root, [any, all])
    ensures JoinsExits(t, root, exitsOr, exitsAnd)
  {
    assert In(t, exitsOr) && In(t, exitsAnd);
    forall m: Counts
      ensures Truth(t, root, m) <==> (exitsOr == [] || AnyTrue(t, exitsOr, m)) && AllTrue(t, exitsAnd, m)
    {
      AnyHolds(t1, exitsOr, any, t, m);
      AllHolds(t2, exitsAnd, all, t, m);
      hide Val, Canonical;
      assert any in [any, all] && all in [any, all];
      assert AllTrue(t, [any, all], m) <==> Truth(t, any, m) && Truth(t, all, m);
    }
  }

  lemma {:induction false} AnyHolds(t: Table, ids: seq<nat>, n: nat, t': Table, m: Counts)
    requires WellFormed(t) && WellFormed(t') && t <= t' && In(t, ids) && In(t', ids) && n < |t|
    requires if ids == [] then t[n].kind == True else Disjoins(t, n, ids)
    ensures Truth(t', n, m) <==> ids == [] || AnyTrue(t', ids, m)
  {
    assert ids == [] ==> Truth(t, n, m);
    hide Val, Canonical;
    ValExtends(t, t', n, m);
    forall i | i in ids ensures Truth(t', i, m) <==> Truth(t, i, m) { ValExtends(t, t', i, m); }
    if ids != [] { assert Truth(t, n, m) <==> AnyTrue(t, ids, m); }
  }

  lemma {:induction false} AllHolds(t: Table, ids: seq<nat>, n: nat, t': Table, m: Counts)
    requires WellFormed(t) && WellFormed(t') && t <= t' && In(t, ids) && In(t', ids) && n < |t|
    requires if ids == [] then t[n].kind == True else Conjoins(t, n, ids)
    ensures Truth(t', n, m) <==> AllTrue(t', ids, m)
  {
    assert ids == [] ==> Truth(t, n, m);
    hide Val, Canonical;
    ValExtends(t, t', n, m);
    forall i | i in ids ensures Truth(t', i, m) <==> Truth(t, i, m) { ValExtends(t, t', i, m); }
    if ids != [] { assert Truth(t, n, m) <==> AllTrue(t, ids, m); }
  }

  // With one return the root is its exit.
  lemma {:induction false} RootMeans(f: Func, t0: Table, t: Table, exitsOr: seq<nat>, exitsAnd: seq<nat>, root: nat)
    requires Supported(f) && WellFormed(t0) && WellFormed(t) && t0 <= t
    requires In(t0, exitsOr) && In(t0, exitsAnd) && Exits(f, t0, exitsOr, exitsAnd, |f|)
    requires root < |t| && JoinsExits(t, root, exitsOr, exitsAnd)
    ensures Compiles(f, t, root)
  {
    hide Fragment, PhiFragment, SSA, Supported, Val, Canonical;
    HasReturn(f);
    var n: nat :| n < |t0| && Compiles(f, t0, n) && ((exitsOr == [n] && exitsAnd == []) || (exitsOr == [] && exitsAnd == [n]));
    CompilesExtends(f, t0, t, n);
    assert n in [n];
    forall m: Counts ensures Truth(t, root, m) <==> Truth(t, n, m) {
      if exitsOr == [n] {
        assert AnyTrue(t, [n], m) <==> Truth(t, n, m);
      } else {
        assert AllTrue(t, [n], m) <==> Truth(t, n, m);
      }
    }
  }

  lemma {:induction false} HasReturn(f: Func)
    requires Supported(f)
    ensures exists c :: 0 <= c < |f| && f[c].term.Ret?
  {
    ExecuteSolves(f, Input([], _ => 0));
    var r := Execute(f, Input([], _ => 0));
    assert f[Last(r.path)].term.Ret? && Last(r.path) in r.path;
  }

  // ---- several returns: what the root says of values computed on all paths at once ----

  ghost predicate Straight(f: Func) {
    forall b :: 0 <= b < |f| ==> StraightBlock(f[b])
  }

  ghost predicate StraightBlock(b: Block) { b.phis == [] && forall i :: i in b.insts ==> Fragment(i) }

  // Every instruction's equation holds, whether or not a run would reach it.
  ghost predicate AllComputed(f: Func, env: Env, input: Input) {
    forall b, i :: 0 <= b < |f| && i in f[b].insts ==> InstHolds(i, env, input)
  }

  // Such values always have the meaning of their entries.
  ghost predicate Throughout(f: Func, t: Table, entries: Entries) {
    && Acyclic(t) && Arity(t) && EntriesIn(t, entries)
    && forall input: Input, env: Env :: AllComputed(f, env, input) ==> Agree(t, entries, input.counts, env) && entries.Keys <= env.Keys
  }

  predicate ReturnsOne(t: Term) { t.Ret? && t.v.Const? && t.v.v != 0 }

  predicate ReturnsTrue(t: Term, env: Env) { t.Ret? && t.v.Var? && Eval(t.v, env) != 0 }

  ghost predicate SomeReturn(f: Func, b: nat, env: Env)
    requires b <= |f|
  {
    exists c :: 0 <= c < b && ReturnsTrue(f[c].term, env)
  }

  // Some return has a value that is nonzero, or all of them return a nonzero constant: branch conditions
  // do not come into it.
  ghost predicate JoinedReturns(f: Func, env: Env) {
    (forall b :: 0 <= b < |f| && f[b].term.Ret? ==> ReturnsOne(f[b].term)) || SomeReturn(f, |f|, env)
  }

  ghost predicate MeansReturns(f: Func, t: Table, root: nat) {
    && Acyclic(t) && Arity(t) && root < |t|
    && forall input: Input, env: Env :: AllComputed(f, env, input) ==> (Truth(t, root, input.counts) <==> JoinedReturns(f, env))
  }

  // The exits of the first b blocks.
  ghost predicate Joined(f: Func, t: Table, exitsOr: seq<nat>, exitsAnd: seq<nat>, b: nat)
    requires b <= |f|
  {
    && Acyclic(t) && Arity(t) && In(t, exitsOr) && In(t, exitsAnd)
    && (exitsOr == [] <==> forall c :: 0 <= c < b && f[c].term.Ret? ==> ReturnsOne(f[c].term))
    && forall input: Input, env: Env :: AllComputed(f, env, input) ==>
         (AnyTrue(t, exitsOr, input.counts) <==> SomeReturn(f, b, env))
         && AllTrue(t, exitsAnd, input.counts)
  }

  lemma {:induction false} StraightOf(f: Func, b: nat)
    requires Straight(f) && b < |f|
    ensures f[b].phis == [] && forall i :: i in f[b].insts ==> Fragment(i)
  {
    assert StraightBlock(f[b]);
  }

  lemma {:induction false} StartJoined(f: Func, t: Table)
    requires Acyclic(t) && Arity(t)
    ensures Throughout(f, t, map[]) && Joined(f, t, [], [], 0)
  {
  }

  lemma {:induction false} ThroughoutStep(f: Func, b: nat, i: Inst, t: Table, entries: Entries, t': Table,
      entries': Entries)
    requires Throughout(f, t, entries) && b < |f| && i in f[b].insts && Acyclic(t') && Arity(t') && EntriesIn(t', entries')
    requires Keeps(t, entries, t', entries', i) && (entries' == entries || (i.x in entries' && entries' == entries[i.x := entries'[i.x]]))
    ensures Throughout(f, t', entries')
  {
    hide Val, EvalInst, Agree;
    forall input: Input, env: Env | AllComputed(f, env, input)
      ensures Agree(t', entries', input.counts, env) && entries'.Keys <= env.Keys
    {
      assert InstHolds(i, env, input);
    }
  }

  lemma {:induction false} ThroughoutExtends(f: Func, t: Table, t': Table, entries: Entries)
    requires Throughout(f, t, entries) && Acyclic(t') && Arity(t') && t <= t'
    ensures Throughout(f, t', entries)
  {
    hide Val, InstHolds, Agree;
    forall input: Input, env: Env | AllComputed(f, env, input) ensures Agree(t', entries, input.counts, env) {
      AgreeExtends(t, t', entries, input.counts, env);
    }
  }

  lemma {:induction false} ExitTruth(t: Table, entries: Entries, v: Operand, n: nat, m: Counts, env: Env)
    requires Acyclic(t) && Arity(t) && EntriesIn(t, entries) && n < |t| && ExitFor(t, entries, v, n)
    requires Agree(t, entries, m, env) && entries.Keys <= env.Keys
    ensures Truth(t, n, m) <==> Eval(v, env) != 0
  {
    hide Val;
    if v.Var? {
      var id := Find(entries, v).id;
      assert Truth(t, n, m) <==> Truth(t, id, m);
      assert Means(t, v.x, id, m, env[v.x]);
    }
  }

  lemma {:induction false} SomeReturnStep(f: Func, b: nat, env: Env)
    requires b < |f|
    ensures SomeReturn(f, b + 1, env) <==> SomeReturn(f, b, env) || ReturnsTrue(f[b].term, env)
  {
  }

  lemma {:induction false} TruthsExtend(t: Table, t': Table, ids: seq<nat>, m: Counts)
    requires Acyclic(t) && Arity(t) && Acyclic(t') && Arity(t') && t <= t' && In(t, ids)
    ensures In(t', ids) && (AnyTrue(t', ids, m) <==> AnyTrue(t, ids, m)) && (AllTrue(t', ids, m) <==> AllTrue(t, ids, m))
  {
    forall i | i in ids ensures Truth(t', i, m) <==> Truth(t, i, m) { ValExtends(t, t', i, m); }
  }

  lemma {:induction false} TruthsSnoc(t: Table, ids: seq<nat>, n: nat, m: Counts)
    requires Acyclic(t) && Arity(t) && In(t, ids) && n < |t|
    ensures In(t, ids + [n])
    ensures AnyTrue(t, ids + [n], m) <==> AnyTrue(t, ids, m) || Truth(t, n, m)
    ensures AllTrue(t, ids + [n], m) <==> AllTrue(t, ids, m) && Truth(t, n, m)
  {
    assert n in ids + [n] && forall i :: i in ids ==> i in ids + [n];
  }

  lemma {:induction false} JoinedStep(f: Func, b: nat, t: Table, t': Table, entries: Entries,
                  or0: seq<nat>, and0: seq<nat>, or1: seq<nat>, and1: seq<nat>)
    requires b < |f| && Joined(f, t, or0, and0, b) && Throughout(f, t', entries) && Acyclic(t') && Arity(t') && t <= t'
    requires if f[b].term.Ret? then ExitAdded(t', entries, f[b].term.v, or0, and0, or1, and1, true)
             else or1 == or0 && and1 == and0
    ensures Joined(f, t', or1, and1, b + 1)
  {
    hide Val, Truth, AnyTrue, AllTrue, Agree, InstHolds, ExitFor;
    if f[b].term.Ret? {
      var v := f[b].term.v;
      var n: nat :| n < |t'| && ExitFor(t', entries, v, n)
        && if v.Const? && v.v != 0 then or1 == or0 && and1 == and0 + [n] else or1 == or0 + [n] && and1 == and0;
      forall input: Input, env: Env | AllComputed(f, env, input)
        ensures (AnyTrue(t', or1, input.counts) <==> SomeReturn(f, b + 1, env)) && AllTrue(t', and1, input.counts)
      {
        assert AnyTrue(t, or0, input.counts) <==> SomeReturn(f, b, env);
        ExitTruth(t', entries, v, n, input.counts, env);
        TruthsExtend(t, t', or0, input.counts);
        TruthsExtend(t, t', and0, input.counts);
        TruthsSnoc(t', or0, n, input.counts);
        TruthsSnoc(t', and0, n, input.counts);
        SomeReturnStep(f, b, env);
      }
    } else {
      forall input: Input, env: Env | AllComputed(f, env, input)
        ensures (AnyTrue(t', or1, input.counts) <==> SomeReturn(f, b + 1, env)) && AllTrue(t', and1, input.counts)
      {
        assert AnyTrue(t, or0, input.counts) <==> SomeReturn(f, b, env);
        TruthsExtend(t, t', or0, input.counts);
        TruthsExtend(t, t', and0, input.counts);
        SomeReturnStep(f, b, env);
      }
    }
  }

  lemma {:induction false} RootReturns(f: Func, t0: Table, t: Table, exitsOr: seq<nat>, exitsAnd: seq<nat>, root: nat)
    requires WellFormed(t0) && WellFormed(t) && t0 <= t && Joined(f, t0, exitsOr, exitsAnd, |f|)
    requires JoinsExits(t, root, exitsOr, exitsAnd)
    ensures MeansReturns(f, t, root)
  {
    hide Val, Truth, AnyTrue, AllTrue, InstHolds, Canonical;
    forall input: Input, env: Env | AllComputed(f, env, input) ensures Truth(t, root, input.counts) <==> JoinedReturns(f, env) {
      TruthsExtend(t0, t, exitsOr, input.counts);
      TruthsExtend(t0, t, exitsAnd, input.counts);
      assert AnyTrue(t0, exitsOr, input.counts) <==> SomeReturn(f, |f|, env);
    }
  }

  // All instructions in layout order.
  function AllInsts(f: Func): seq<Inst> {
    if f == [] then [] else f[0].insts + AllInsts(f[1..])
  }

  // Each value is defined once, before its uses in the layout, so that all blocks can be computed in turn.
  ghost predicate LaidOut(f: Func) {
    var insts := AllInsts(f);
    && (forall i, j :: 0 <= i < j < |insts| ==> insts[i].x != insts[j].x)
    && forall j :: 0 <= j < |insts| ==> InstReady(insts[j], InstDefs(insts[..j]))
  }

  // The values of all blocks, reached or not.
  ghost function AllValues(f: Func, input: Input): Env { ExecInsts(AllInsts(f), map[], input) }

  lemma {:induction false} InAllInsts(f: Func, b: nat, i: Inst)
    requires b < |f| && i in f[b].insts
    ensures i in AllInsts(f)
  {
    if b > 0 { InAllInsts(f[1..], b - 1, i); }
  }

  lemma {:induction false} AllValuesComputed(f: Func, input: Input)
    requires LaidOut(f)
    ensures AllComputed(f, AllValues(f, input), input)
  {
    var insts, start: Env := AllInsts(f), map[];
    forall j | 0 <= j < |insts| ensures InstReady(insts[j], start.Keys + InstDefs(insts[..j])) {
      assert start.Keys + InstDefs(insts[..j]) == InstDefs(insts[..j]);
    }
    ExecInstsHold(insts, start, input);
    hide InstHolds, ExecInsts;
    forall b, i | 0 <= b < |f| && i in f[b].insts ensures InstHolds(i, AllValues(f, input), input) { InAllInsts(f, b, i); }
  }

  // The root of several returns is the function's result exactly when, whatever the input, joining the
  // returns of all blocks gives what the run returns.
  lemma {:induction false} ReturnsExact(f: Func, t: Table, root: nat)
    requires Forward(f) && LaidOut(f) && MeansReturns(f, t, root)
    ensures Compiles(f, t, root) <==>
      forall input: Input :: JoinedReturns(f, AllValues(f, input)) <==> Execute(f, input).value != 0
  {
    hide Val, Execute, JoinedReturns, AllValues, AllComputed, LaidOut;
    forall input: Input ensures Truth(t, root, input.counts) <==> JoinedReturns(f, AllValues(f, input)) {
      AllValuesComputed(f, input);
    }
    if Compiles(f, t, root) {
      forall input: Input ensures JoinedReturns(f, AllValues(f, input)) <==> Execute(f, input).value != 0 {
        assert Truth(t, root, input.counts) <==> Execute(f, input).value != 0;
      }
    }
  }

  lemma {:induction false} PhiDefinedHere(b: Block, p: Phi)
    requires p in b.phis
    ensures p.x in Defs(b)
  {
  }

  lemma {:induction false} DefinedHere(b: Block, i: Inst)
    requires i in b.insts
    ensures i.x in Defs(b)
  {
  }

  // ---- one block done ----

  lemma {:induction false} BlockProgress(f: Func, b: nat, t0: Table, t: Table, t': Table, entries: Entries, defined: set<Reg>,
      or0: seq<nat>, and0: seq<nat>, or1: seq<nat>, and1: seq<nat>)
    requires Supported(f) && b < |f| && Acyclic(t0) && Arity(t0) && Acyclic(t) && Arity(t) && Acyclic(t') && Arity(t') && t0 <= t <= t'
    requires Forward(f) && Progress(f, t, entries, b, defined) && defined <= Defs(f[b])
    requires f[b].term.CondBr? ==> Find(entries, f[b].term.c).At?
    requires In(t0, or0) && In(t0, and0) && In(t', or1) && In(t', and1) && EntriesIn(t', entries) && Exits(f, t0, or0, and0, b)
    requires if f[b].term.Ret? then ExitAdded(t', entries, f[b].term.v, or0, and0, or1, and1, true)
             else or1 == or0 && and1 == and0
    ensures Progress(f, t', entries, b + 1, {}) && Exits(f, t', or1, and1, b + 1)
  {
    hide Supported, Progress, Exits, ExitAdded, AgreesWithRuns;
    TermProgress(f, b, t, t', entries, defined);
    ExitsStep(f, b, t0, t', entries, defined, or0, and0, or1, and1);
  }

  lemma {:induction false} BlockStraight(f: Func, b: nat, t0: Table, t: Table, t': Table, entries: Entries,
      or0: seq<nat>, and0: seq<nat>, or1: seq<nat>, and1: seq<nat>)
    requires b < |f| && Throughout(f, t, entries) && Joined(f, t0, or0, and0, b) && Acyclic(t') && Arity(t') && t0 <= t <= t'
    requires EntriesIn(t', entries)
    requires if f[b].term.Ret? then ExitAdded(t', entries, f[b].term.v, or0, and0, or1, and1, true)
             else or1 == or0 && and1 == and0
    ensures Throughout(f, t', entries) && Joined(f, t', or1, and1, b + 1)
  {
    ThroughoutExtends(f, t, t', entries);
    JoinedStep(f, b, t0, t', entries, or0, and0, or1, and1);
  }
}

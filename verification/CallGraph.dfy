// The search for a function that may call itself.
module CallGraph {
  import opened Words

  // The calls in a function's body in order; None is a call through a pointer.
  type Calls = seq<Option<nat>>

  type Graph = seq<Calls>

  datatype Verdict = Recurses | Terminates | Stopped

  ghost predicate GraphOk(g: Graph) { forall f, c :: 0 <= f < |g| && Some(c) in g[f] ==> c < |g| }

  // A chain of direct calls.
  ghost predicate Chain(g: Graph, path: seq<nat>) {
    && path != [] && (forall i :: 0 <= i < |path| ==> path[i] < |g|)
    && forall i :: 0 <= i < |path| - 1 ==> Some(path[i + 1]) in g[path[i]]
  }

  // One or more direct calls lead from f to h.
  ghost predicate LeadsTo(g: Graph, f: nat, h: nat) {
    exists path :: Chain(g, path) && |path| > 1 && path[0] == f && path[|path| - 1] == h
  }

  // No or more direct calls lead from f to h.
  ghost predicate Reaches(g: Graph, f: nat, h: nat) { f == h || LeadsTo(g, f, h) }

  ghost predicate Indirect(g: Graph, f: nat) { f < |g| && None in g[f] }

  // Every function of the list has all its calls within the list, and none leads to h.
  ghost predicate Closed(g: Graph, fs: set<nat>, h: nat) {
    forall f :: f in fs ==> f < |g| && forall c :: c in g[f] ==> c.Some? && c.value in fs && c.value != h
  }

  lemma {:induction false} ClosedChain(g: Graph, fs: set<nat>, h: nat, path: seq<nat>)
    requires Closed(g, fs, h) && Chain(g, path) && path[0] in fs
    ensures path[|path| - 1] in fs && (|path| > 1 ==> path[|path| - 1] != h)
  {
    if |path| > 1 {
      assert Some(path[1]) in g[path[0]];
      ClosedChain(g, fs, h, path[1..]);
    }
  }

  lemma {:induction false} ChainGrows(g: Graph, f: nat, c: nat, h: nat)
    requires f < |g| && c < |g| && Some(c) in g[f] && Reaches(g, c, h)
    ensures LeadsTo(g, f, h)
  {
    if c == h {
      assert Chain(g, [f, c]);
    } else {
      var path :| Chain(g, path) && |path| > 1 && path[0] == c && path[|path| - 1] == h;
      var longer := [f] + path;
      forall i | 0 <= i < |longer| - 1 ensures Some(longer[i + 1]) in g[longer[i]] {
        if i > 0 { assert longer[i] == path[i - 1] && longer[i + 1] == path[i - 1 + 1]; }
      }
      assert Chain(g, longer);
    }
  }

  // A call through a pointer, or one that leads to one.
  ghost predicate ToPointer(g: Graph, c: Option<nat>) { c.Some? ==> exists x :: Reaches(g, c.value, x) && Indirect(g, x) }

  ghost predicate ToFunction(g: Graph, c: Option<nat>, h: nat) { c.Some? && Reaches(g, c.value, h) }

  // The first call of f that leads to h or to a call through a pointer.
  ghost predicate FirstCall(g: Graph, f: nat, h: nat, k: nat) {
    && f < |g| && k < |g[f]| && (ToPointer(g, g[f][k]) || ToFunction(g, g[f][k], h))
    && forall i :: 0 <= i < k ==> !ToPointer(g, g[f][i]) && !ToFunction(g, g[f][i], h)
  }

  // The calls of f before call k stay among s, which they close but for what was there before and f.
  ghost predicate CallsBefore(g: Graph, f: nat, h: nat, k: nat, before: set<nat>, s: set<nat>) {
    && f < |g| && k <= |g[f]| && (forall i :: 0 <= i < k ==> g[f][i].Some? && g[f][i].value in s && g[f][i].value != h)
    && forall x :: x in s - before - {f} ==> x < |g| && forall c :: c in g[x] ==> c.Some? && c.value in s && c.value != h
  }

  // Nothing they lead to is h or calls through a pointer.
  lemma {:induction false} BeforeHarmless(g: Graph, f: nat, k: nat, s: set<nat>, i: nat)
    requires CallsBefore(g, f, f, k, {}, s) && i < k
    ensures !ToPointer(g, g[f][i]) && !ToFunction(g, g[f][i], f)
  {
    var c := g[f][i].value;
    assert s - {} - {f} == s - {f};
    assert Closed(g, s - {f}, f);
    forall path | Chain(g, path) && path[0] == c ensures path[|path| - 1] in s - {f} { ClosedChain(g, s - {f}, f, path); }
  }

  class Searcher {
    const graph: Graph
    // Functions entered so far, in order.
    var visited: seq<nat>

    constructor (g: Graph)
      ensures graph == g && visited == []
    {
      graph, visited := g, [];
    }

    ghost function Seen(): set<nat>
      reads this
    {
      set f | f in visited
    }

    // Whether some chain of calls leads from f to orig; a call through a pointer stops the program.
    method FunctionRecurses(f: nat, orig: nat) returns (v: Verdict, ghost k: nat, ghost s: set<nat>)
      requires GraphOk(graph) && f < |graph| && orig < |graph| && Unique(visited) && forall x :: x in visited ==> x < |graph|
      modifies this
      ensures Unique(visited) && |old(visited)| <= |visited| && old(Seen()) <= Seen() && forall x :: x in visited ==> x < |graph|
      ensures v == Terminates ==> f in Seen() && forall x :: x in Seen() - old(Seen()) ==>
        forall c :: c in graph[x] ==> c.Some? && c.value in Seen() && c.value != orig
      ensures v != Terminates ==> CallsBefore(graph, f, orig, k, old(Seen()), s) && k < |graph[f]|
      ensures v == Recurses ==> LeadsTo(graph, f, orig) && ToFunction(graph, graph[f][k], orig)
      ensures v == Stopped ==> ToPointer(graph, graph[f][k]) && exists x :: Reaches(graph, f, x) && Indirect(graph, x)
      decreases |graph| - |visited|
    {
      k, s := 0, {};
      if f in visited { return Terminates, k, s; }
      UniqueBounded(visited, |graph|);
      ghost var before := visited;
      visited := visited + [f];
      UniqueBounded(visited, |graph|);
      var j := 0;
      while j < |graph[f]|
        invariant 0 <= j <= |graph[f]| && Unique(visited) && (forall x :: x in visited ==> x < |graph|)
        invariant |visited| > |before| && old(Seen()) + {f} <= Seen()
        invariant forall i :: 0 <= i < j ==> graph[f][i].Some? && graph[f][i].value in Seen() && graph[f][i].value != orig
        invariant forall x :: x in Seen() - old(Seen()) - {f} ==>
          forall c :: c in graph[x] ==> c.Some? && c.value in Seen() && c.value != orig
      {
        var call := graph[f][j];
        k, s := j, Seen();
        assert call in graph[f];
        if call.None? {
          assert Reaches(graph, f, f) && Indirect(graph, f);
          return Stopped, k, s;
        }
        if call.value == orig {
          ChainGrows(graph, f, orig, orig);
          return Recurses, k, s;
        }
        UniqueBounded(visited, |graph|);
        ghost var among;
        ghost var n;
        v, n, among := FunctionRecurses(call.value, orig);
        if v != Terminates {
          if v == Recurses {
            ChainGrows(graph, f, call.value, orig);
          } else {
            ghost var x :| Reaches(graph, call.value, x) && Indirect(graph, x);
            ChainGrows(graph, f, call.value, x);
          }
          return;
        }
        j := j + 1;
      }
      v := Terminates;
    }
  }

  // Exactly the functions that can call themselves are found, and what was visited is closed under calls.
  // Where there are calls through pointers, the first call that leads back or to one of them decides.
  method FunctionRecurses(g: Graph, f: nat) returns (v: Verdict, ghost seen: set<nat>)
    requires GraphOk(g) && f < |g|
    ensures (forall x :: Reaches(g, f, x) ==> !Indirect(g, x)) ==> (v == Recurses <==> LeadsTo(g, f, f)) && v != Stopped
    ensures v == Recurses ==> LeadsTo(g, f, f)
    ensures v == Terminates ==> !LeadsTo(g, f, f) && f in seen && Closed(g, seen, f)
    ensures v == Terminates ==> forall x :: Reaches(g, f, x) ==> x in seen && !Indirect(g, x)
    ensures v == Stopped ==> exists x :: Reaches(g, f, x) && Indirect(g, x)
    ensures forall k: nat :: FirstCall(g, f, f, k) ==>
      v != Terminates && if v == Recurses then ToFunction(g, g[f][k], f) else ToPointer(g, g[f][k])
  {
    var s := new Searcher(g);
    ghost var k, among;
    assert s.Seen() == {};
    v, k, among := s.FunctionRecurses(f, f);
    seen := s.Seen();
    if v == Terminates {
      forall path | Chain(g, path) && path[0] == f ensures path[|path| - 1] in seen && (|path| > 1 ==> path[|path| - 1] != f) {
        ClosedChain(g, seen, f, path);
      }
      assert CallsBefore(g, f, f, |g[f]|, {}, seen);
      forall i | 0 <= i < |g[f]| ensures !ToPointer(g, g[f][i]) && !ToFunction(g, g[f][i], f) {
        BeforeHarmless(g, f, |g[f]|, seen, i);
      }
    } else {
      forall i | 0 <= i < k ensures !ToPointer(g, g[f][i]) && !ToFunction(g, g[f][i], f) { BeforeHarmless(g, f, k, among, i); }
      forall n: nat | FirstCall(g, f, f, n) ensures n == k {}
    }
  }
}

// Numbering of types: a worklist adds every type that a listed one refers to.
module TypeTables {
  import opened Words

  // Types refer to each other by number, in cycles too.
  datatype TypeNode = TypeNode(subtypes: seq<nat>, pointer: bool, incomplete: bool)

  type TypeGraph = seq<TypeNode>

  type Ids = map<nat, nat>

  ghost predicate GraphOk(g: TypeGraph) { forall t, s :: 0 <= t < |g| && s in g[t].subtypes ==> s < |g| }

  // What a pointer leads to may stay undefined.
  predicate Spared(g: TypeGraph, t: nat, s: nat)
    requires t < |g| && s < |g|
  {
    g[t].pointer && g[s].incomplete
  }

  ghost predicate SubtypesIn(g: TypeGraph, t: nat, ids: Ids)
    requires GraphOk(g) && t < |g|
  {
    forall s :: s in g[t].subtypes && !Spared(g, t, s) ==> s in ids
  }

  // Undefined structs stand only behind pointers.
  ghost predicate SubtypesDefined(g: TypeGraph, t: nat)
    requires GraphOk(g) && t < |g|
  {
    forall s :: s in g[t].subtypes && g[s].incomplete ==> g[t].pointer
  }

  // The ids every table starts with: numbers below the first free one, for types that need no others.
  ghost predicate BaseOk(g: TypeGraph, base: Ids, start: nat) {
    && GraphOk(g)
    && (forall t :: t in base ==> t < |g| && base[t] < start && SubtypesIn(g, t, base))
    && forall t, u :: t in base && u in base && base[t] == base[u] ==> t == u
  }

  // The listed types have the ids from start on, in order, and no other type but the base ones has an id.
  ghost predicate Dense(base: Ids, start: nat, listed: seq<nat>, ids: Ids) {
    && Unique(listed)
    && (forall t :: t in ids <==> t in base || t in listed)
    && (forall t :: t in base ==> t !in listed && ids[t] == base[t])
    && forall i :: 0 <= i < |listed| ==> listed[i] in ids && ids[listed[i]] == start + i
  }

  // No two types share an id.
  lemma {:induction false} DenseInjective(g: TypeGraph, base: Ids, start: nat, listed: seq<nat>, ids: Ids)
    requires BaseOk(g, base, start) && Dense(base, start, listed, ids)
    ensures forall t, u :: t in ids && u in ids && ids[t] == ids[u] ==> t == u
    ensures forall t :: t in ids ==> ids[t] < start + |listed|
  {
    forall t, u | t in ids && u in ids && ids[t] == ids[u] ensures t == u {
      if t in listed {
        var i :| 0 <= i < |listed| && listed[i] == t;
        if u in listed {
          var j :| 0 <= j < |listed| && listed[j] == u;
        }
      }
    }
    forall t | t in ids ensures ids[t] < start + |listed| {
      if t in listed { var i :| 0 <= i < |listed| && listed[i] == t; }
    }
  }

  lemma {:induction false} DenseSnoc(base: Ids, start: nat, listed: seq<nat>, ids: Ids, t: nat)
    requires Dense(base, start, listed, ids) && t !in ids
    ensures Dense(base, start, listed + [t], ids[t := start + |listed|])
  {
  }

  // A type reached from the roots through subtypes that are neither spared nor known before.
  ghost predicate Route(g: TypeGraph, roots: set<nat>, known: set<nat>, path: seq<nat>)
    requires GraphOk(g)
  {
    && path != [] && path[0] in roots && (forall i :: 0 <= i < |path| ==> path[i] < |g| && path[i] !in known)
    && forall i :: 0 <= i < |path| - 1 ==> path[i + 1] in g[path[i]].subtypes && !Spared(g, path[i], path[i + 1])
  }

  ghost predicate Needed(g: TypeGraph, roots: set<nat>, known: set<nat>, t: nat)
    requires GraphOk(g)
  {
    exists path :: Route(g, roots, known, path) && path[|path| - 1] == t
  }

  lemma {:induction false} NeedsRoot(g: TypeGraph, roots: set<nat>, known: set<nat>, t: nat)
    requires GraphOk(g) && t in roots && t < |g| && t !in known
    ensures Needed(g, roots, known, t)
  {
    assert Route(g, roots, known, [t]);
  }

  lemma {:induction false} NeedsMore(g: TypeGraph, roots: set<nat>, known: set<nat>, t: nat, s: nat)
    requires GraphOk(g) && Needed(g, roots, known, t) && t < |g| && s in g[t].subtypes && !Spared(g, t, s) && s !in known
    ensures Needed(g, roots, known, s)
  {
    var path :| Route(g, roots, known, path) && path[|path| - 1] == t;
    assert Route(g, roots, known, path + [s]);
  }

  // A closed table holds everything needed.
  lemma {:induction false} ClosedHolds(g: TypeGraph, roots: set<nat>, known: set<nat>, ids: Ids, path: seq<nat>)
    requires GraphOk(g) && Route(g, roots, known, path) && forall t :: t in roots && t !in known ==> t in ids
    requires forall t :: t in ids ==> t < |g| && SubtypesIn(g, t, ids)
    ensures path[|path| - 1] in ids
  {
    if |path| > 1 {
      var front := path[..|path| - 1];
      ClosedHolds(g, roots, known, ids, front);
      assert front[|front| - 1] == path[|path| - 2];
      assert path[|path| - 2 + 1] in g[path[|path| - 2]].subtypes;
    }
  }

  class Table {
    const graph: TypeGraph
    const start: nat
    ghost const base: Ids
    ghost const roots: set<nat>
    var ids: Ids
    // Types given an id here, in order.
    var listed: seq<nat>
    // Next free id.
    var tid: nat
    // Types whose subtypes are still to be looked at.
    var types: seq<nat>

    ghost predicate Valid()
      reads this
    {
      && BaseOk(graph, base, start) && Dense(base, start, listed, ids) && tid == start + |listed|
      && (forall t :: t in types ==> t < |graph|) && (forall t :: t in listed ==> t < |graph|)
    }

    // The type waits, or its subtypes are listed.
    ghost predicate Settled(t: nat)
      requires GraphOk(graph) && t < |graph|
      reads this
    {
      t in types || (SubtypesIn(graph, t, ids) && SubtypesDefined(graph, t))
    }

    constructor (g: TypeGraph, baseIds: Ids, firstFree: nat, ghost from: set<nat>)
      requires BaseOk(g, baseIds, firstFree)
      ensures graph == g && base == baseIds && start == firstFree && roots == from
      ensures Valid() && listed == [] && types == [] && ids == baseIds
    {
      graph, base, start, roots := g, baseIds, firstFree, from;
      ids, listed, tid, types := baseIds, [], firstFree, [];
    }

    // Gives a type the next id and puts it on the worklist, unless it has an id.
    method Add(t: nat)
      requires Valid() && t < |graph|
      modifies this
      ensures Valid() && t in ids
      ensures if t in old(ids) then ids == old(ids) && listed == old(listed) && types == old(types)
              else listed == old(listed) + [t] && types == old(types) + [t] && ids == old(ids)[t := start + |old(listed)|]
    {
      if t !in ids {
        DenseSnoc(base, start, listed, ids, t);
        listed := listed + [t];
        ids := ids[t := tid];
        tid := tid + 1;
        types := types + [t];
      }
    }

    // Adds the types a program mentions.
    method AddAll(mentioned: seq<nat>)
      requires Valid() && listed == [] && types == [] && ids == base && roots == ToSet(mentioned)
      requires forall t :: t in mentioned ==> t < |graph|
      modifies this
      ensures Valid() && Progress({}) && forall t :: t in roots && t !in base ==> t in listed
    {
      var k := 0;
      while k < |mentioned|
        invariant 0 <= k <= |mentioned| && Valid() && types == listed && forall i :: 0 <= i < k ==> mentioned[i] in ids
        invariant forall t :: t in listed ==> Needed(graph, roots, base.Keys, t)
      {
        assert mentioned[k] in mentioned;
        if mentioned[k] !in ids { NeedsRoot(graph, roots, base.Keys, mentioned[k]); }
        Add(mentioned[k]);
        k := k + 1;
      }
    }

    // Everything listed is needed, and its subtypes are listed or it waits, but for one type at work.
    ghost predicate Progress(but: set<nat>)
      requires GraphOk(graph)
      reads this
    {
      && (forall t :: t in listed ==> t < |graph| && (t in but || Settled(t)) && Needed(graph, roots, base.Keys, t))
      && forall t :: t in types ==> t in listed
    }

    ghost predicate Undefined()
      requires GraphOk(graph)
      reads this
    {
      exists t: nat, s: nat :: UndefinedAt(t, s)
    }

    ghost predicate UndefinedAt(t: nat, s: nat)
      requires GraphOk(graph)
      reads this
    {
      && t < |graph| && s < |graph| && Needed(graph, roots, base.Keys, t)
      && s in graph[t].subtypes && graph[s].incomplete && !graph[t].pointer
    }

    // Adds the subtypes of one type.
    method ListSubtypes(ty: nat) returns (ok: bool)
      requires Valid() && ty in listed && Progress({ty})
      modifies this
      ensures Valid() && old(listed) <= listed
      ensures |listed| > |old(listed)| || types == old(types)
      ensures if ok then Progress({}) else Undefined()
      ensures forall t :: t in listed ==> Needed(graph, roots, base.Keys, t)
    {
      hide Dense, Needed, Unique;
      var k := 0;
      while k < |graph[ty].subtypes|
        invariant 0 <= k <= |graph[ty].subtypes| && Valid() && old(listed) <= listed
        invariant ty in listed && Progress({ty})
        invariant |listed| > |old(listed)| || types == old(types)
        invariant forall i :: 0 <= i < k ==>
          var s := graph[ty].subtypes[i]; s < |graph| && (s in ids || Spared(graph, ty, s)) && (graph[s].incomplete ==> graph[ty].pointer)
      {
        var s := graph[ty].subtypes[k];
        assert s in graph[ty].subtypes;
        k := k + 1;
        if graph[s].incomplete {
          if graph[ty].pointer { continue; }
          assert UndefinedAt(ty, s);
          return false;
        }
        if s !in ids { AddNeeded(ty, s); } else { Add(s); }
      }
      assert SubtypesIn(graph, ty, ids) && SubtypesDefined(graph, ty);
      ok := true;
    }

    // Adds a type that a needed one refers to.
    method AddNeeded(ty: nat, s: nat)
      requires Valid() && ty in listed && Progress({ty}) && ty < |graph| && s in graph[ty].subtypes && !Spared(graph, ty, s) && s !in ids
      modifies this
      ensures Valid() && Progress({ty}) && listed == old(listed) + [s] && ids.Keys == old(ids.Keys) + {s}
    {
      hide Needed, Unique;
      NotBase(s);
      NeedsMore(graph, roots, base.Keys, ty, s);
      Add(s);
      assert s in types;
    }

    lemma {:induction false} NotBase(s: nat)
      requires Valid() && s !in ids
      ensures s !in base
    {
    }

    // Lists everything the types collected from the program refer to. Undefined structs stop the program
    // unless a pointer leads to them.
    method Close() returns (ok: bool)
      requires Valid() && Progress({}) && forall t :: t in roots && t !in base ==> t in listed
      modifies this
      ensures Valid() && old(listed) <= listed
      ensures ok <==> !Undefined()
      ensures ok ==> forall t :: t in ids ==> t < |graph| && SubtypesIn(graph, t, ids)
      ensures forall t :: t in listed ==> Needed(graph, roots, base.Keys, t)
      ensures ok ==> forall t :: Needed(graph, roots, base.Keys, t) ==> t in listed
    {
      hide Dense, Needed, Unique, SubtypesIn, SubtypesDefined;
      while types != []
        invariant Valid() && old(listed) <= listed && Progress({})
        decreases |graph| - |listed|, |types|
      {
        var ty := types[|types| - 1];
        assert ty in types;
        ghost var before := types;
        types := types[..|types| - 1];
        assert forall t :: t in before ==> t in types || t == ty;
        assert forall t :: t in types ==> t in before;
        Bound();
        ok := ListSubtypes(ty);
        if !ok { return; }
        Bound();
      }
      AllSettled();
      ok := true;
    }

    lemma {:induction false} Bound()
      requires Valid()
      ensures |listed| <= |graph|
    {
      UniqueBounded(listed, |graph|);
    }

    lemma {:induction false} AllSettled()
      requires Valid() && Progress({}) && types == [] && forall t :: t in roots && t !in base ==> t in listed
      ensures forall t :: t in ids ==> t < |graph| && SubtypesIn(graph, t, ids)
      ensures forall t :: Needed(graph, roots, base.Keys, t) ==> t in listed
      ensures !Undefined()
    {
      forall t | t in ids ensures t < |graph| && SubtypesIn(graph, t, ids) {
        if t in listed { assert Settled(t); } else { assert SubtypesIn(graph, t, base); }
      }
      forall t | Needed(graph, roots, base.Keys, t) ensures t in listed {
        var path :| Route(graph, roots, base.Keys, path) && path[|path| - 1] == t;
        ClosedHolds(graph, roots, base.Keys, ids, path);
      }
      forall t | t in listed ensures SubtypesDefined(graph, t) { assert Settled(t); }
      forall t: nat, s: nat ensures !UndefinedAt(t, s) {}
    }
  }

  const MAX_TYPES := 65536

  // The padding types get the first ids.
  lemma {:induction false} PaddedBase(g: TypeGraph, base: Ids, start: nat, padding: seq<nat>, ids: Ids)
    requires BaseOk(g, base, start) && Dense(base, start, padding, ids)
    requires forall t :: t in padding ==> t < |g| && t !in base && SubtypesIn(g, t, base)
    ensures BaseOk(g, ids, start + |padding|)
  {
    DenseInjective(g, base, start, padding, ids);
    forall t | t in ids ensures t < |g| && SubtypesIn(g, t, ids) { assert SubtypesIn(g, t, base); }
  }

  lemma {:induction false} DenseAgain(base: Ids, start: nat, first: seq<nat>, ids: Ids, second: seq<nat>, more: Ids)
    requires Dense(base, start, first, ids) && Dense(ids, start + |first|, second, more)
    ensures Dense(base, start, first + second, more)
  {
    var all := first + second;
    forall i, j | 0 <= i < j < |all| ensures all[i] != all[j] {
      if i < |first| <= j { assert all[i] in first && all[j] in second; }
    }
    forall i | 0 <= i < |all| ensures all[i] in more && more[all[i]] == start + i {
      if i < |first| { assert all[i] in first; }
    }
  }

  ghost predicate UndefinedNeeded(g: TypeGraph, roots: set<nat>, known: set<nat>, t: nat, s: nat)
    requires GraphOk(g)
  {
    && t < |g| && s < |g| && Needed(g, roots, known, t)
    && s in g[t].subtypes && g[s].incomplete && !g[t].pointer
  }

  ghost function ToSet(s: seq<nat>): set<nat> { set t | t in s }

  // Numbers the types of a program: padding arrays first, then the types it mentions, then what those refer to.
  method NumberTypes(g: TypeGraph, base: Ids, start: nat, padding: seq<nat>, mentioned: seq<nat>)
    returns (ok: bool, ids: Ids, listed: seq<nat>)
    requires BaseOk(g, base, start) && Unique(padding) && forall t :: t in mentioned ==> t < |g|
    requires forall t :: t in padding ==> t < |g| && t !in base && SubtypesIn(g, t, base)
    ensures Dense(base, start, listed, ids) && padding <= listed
    ensures ok ==> start + |listed| < MAX_TYPES && forall t :: t in ids ==> t < |g| && SubtypesIn(g, t, ids)
    ensures ok ==> forall t :: t in listed <==> t in padding || Needed(g, ToSet(mentioned), base.Keys + ToSet(padding), t)
    ensures !ok ==> (start + |listed| >= MAX_TYPES
      || exists t: nat, s: nat :: UndefinedNeeded(g, ToSet(mentioned), base.Keys + ToSet(padding), t, s))
  {
    hide Needed, SubtypesIn;
    ids, listed := base, [];
    var tid, k := start, 0;
    while k < |padding|
      invariant 0 <= k <= |padding| && tid == start + k && listed == padding[..k] && Dense(base, start, listed, ids)
    {
      assert padding[k] in padding && padding[k] !in padding[..k];
      DenseSnoc(base, start, listed, ids, padding[k]);
      ids, listed, tid := ids[padding[k] := tid], listed + [padding[k]], tid + 1;
      k := k + 1;
    }
    assert padding[..k] == padding;
    PaddedBase(g, base, start, padding, ids);
    assert ids.Keys == base.Keys + ToSet(padding);
    var table := new Table(g, ids, tid, ToSet(mentioned));
    table.AddAll(mentioned);
    ok := table.Close();
    DenseAgain(base, start, padding, ids, table.listed, table.ids);
    if !ok {
      ghost var t: nat, s: nat :| table.UndefinedAt(t, s);
      assert UndefinedNeeded(g, ToSet(mentioned), ids.Keys, t, s);
    }
    ids, listed := table.ids, padding + table.listed;
    if start + |listed| >= MAX_TYPES { ok := false; }
  }

  // Numbers the types of the interface: types are put on the worklist with repetitions and dropped when met again.
  method NumberApiTypes(g: TypeGraph, base: Ids, start: nat, mentioned: seq<nat>) returns (ids: Ids, listed: seq<nat>)
    requires BaseOk(g, base, start) && forall t :: t in mentioned ==> t < |g|
    ensures Dense(base, start, listed, ids)
    ensures forall t :: t in ids ==> t < |g| && SubtypesIn(g, t, ids)
    ensures forall t :: t in listed <==> Needed(g, ToSet(mentioned), base.Keys, t)
  {
    hide Needed, Dense;
    ids, listed := base, [];
    var tid := start;
    var addTypes: seq<nat> := mentioned;
    ghost var roots := ToSet(mentioned);
    DenseNone(base, start);
    forall t | t in mentioned ensures Wanted(g, roots, base, t) { if t !in base { NeedsRoot(g, roots, base.Keys, t); } }
    while addTypes != []
      invariant Dense(base, start, listed, ids) && tid == start + |listed|
      invariant forall t :: t in addTypes ==> t < |g| && Wanted(g, roots, base, t)
      invariant forall t :: t in listed ==> t < |g| && Needed(g, roots, base.Keys, t)
      invariant forall t :: t in ids || t in base ==> t < |g|
      invariant Waiting(g, ids, addTypes) && forall t :: t in roots ==> t in ids || t in addTypes
      decreases |g| - |listed|, |addTypes|
    {
      var ty := addTypes[|addTypes| - 1];
      assert ty in addTypes;
      ghost var before, seen := addTypes, ids;
      addTypes := addTypes[..|addTypes| - 1];
      assert forall t :: t in before <==> t in addTypes || t == ty;
      DenseBound(g, base, start, listed, ids);
      if ty in ids { continue; }
      DenseSnoc(base, start, listed, ids, ty);
      DenseKeys(base, start, listed, ids, ty);
      listed, ids, tid := listed + [ty], ids[ty := tid], tid + 1;
      addTypes := PushSubtypes(g, roots, base, ty, addTypes);
      DenseBound(g, base, start, listed, ids);
    }
    assert forall t :: t in ids ==> SubtypesIn(g, t, ids);
    AllListed(g, base, start, roots, listed, ids);
  }

  ghost predicate Wanted(g: TypeGraph, roots: set<nat>, base: Ids, t: nat)
    requires GraphOk(g)
  {
    t in base || Needed(g, roots, base.Keys, t)
  }

  // What has an id has its subtypes listed or waiting.
  ghost predicate Waiting(g: TypeGraph, ids: Ids, addTypes: seq<nat>)
    requires GraphOk(g)
  {
    forall t, s :: t in ids && t < |g| && s in g[t].subtypes && !Spared(g, t, s) ==> s in ids || s in addTypes
  }

  method PushSubtypes(g: TypeGraph, ghost roots: set<nat>, ghost base: Ids, ty: nat, pending: seq<nat>) returns (addTypes: seq<nat>)
    requires GraphOk(g) && ty < |g| && Needed(g, roots, base.Keys, ty)
    requires forall t :: t in pending ==> t < |g| && Wanted(g, roots, base, t)
    ensures pending <= addTypes && forall t :: t in addTypes ==> t < |g| && Wanted(g, roots, base, t)
    ensures forall s :: s in g[ty].subtypes && !Spared(g, ty, s) ==> s in addTypes
  {
    hide Needed;
    addTypes := pending;
    var subs, k := g[ty].subtypes, 0;
    while k < |subs|
      invariant 0 <= k <= |subs| && pending <= addTypes && forall t :: t in addTypes ==> t < |g| && Wanted(g, roots, base, t)
      invariant forall i :: 0 <= i < k ==> subs[i] < |g| && (Spared(g, ty, subs[i]) || subs[i] in addTypes)
    {
      var s := subs[k];
      assert s in g[ty].subtypes;
      k := k + 1;
      if g[s].incomplete && g[ty].pointer { continue; }
      if s !in base { NeedsMore(g, roots, base.Keys, ty, s); }
      addTypes := addTypes + [s];
    }
  }

  lemma {:induction false} DenseNone(base: Ids, start: nat)
    ensures Dense(base, start, [], base)
  {
  }

  lemma {:induction false} DenseKeys(base: Ids, start: nat, listed: seq<nat>, ids: Ids, t: nat)
    requires Dense(base, start, listed, ids) && t !in ids
    ensures t !in base && t !in listed
  {
  }

  lemma {:induction false} DenseBound(g: TypeGraph, base: Ids, start: nat, listed: seq<nat>, ids: Ids)
    requires Dense(base, start, listed, ids) && forall t :: t in listed ==> t < |g|
    ensures |listed| <= |g|
  {
    UniqueBounded(listed, |g|);
  }

  lemma {:induction false} AllListed(g: TypeGraph, base: Ids, start: nat, roots: set<nat>, listed: seq<nat>, ids: Ids)
    requires GraphOk(g) && Dense(base, start, listed, ids) && (forall t :: t in roots ==> t in ids)
    requires forall t :: t in ids ==> t < |g| && SubtypesIn(g, t, ids)
    ensures forall t :: Needed(g, roots, base.Keys, t) ==> t in listed
  {
    forall t | Needed(g, roots, base.Keys, t) ensures t in listed {
      var path :| Route(g, roots, base.Keys, path) && path[|path| - 1] == t;
      ClosedHolds(g, roots, base.Keys, ids, path);
    }
  }
}

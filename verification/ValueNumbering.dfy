// Numbering of the values of a function for the bytecode interpreter.
module ValueNumbering {
  import opened Words

  // What the numbering looks at in a bitcast: a whole alloca, or another value. Values are numbered
  // with the arguments first, then the instructions as they are laid out.
  datatype Cast = NoCast | OfAlloca | Of(v: nat)

  // An unused instruction has neither uses nor side effects.
  datatype Ins = Ins(isVoid: bool, unused: bool, cast: Cast)

  datatype Func = Func(args: nat, body: seq<Ins>)

  function Size(f: Func): nat { f.args + |f.body| }

  function At(f: Func, v: nat): Ins
    requires f.args <= v < Size(f)
  {
    f.body[v - f.args]
  }

  predicate Live(f: Func, v: nat)
    requires v < Size(f)
  {
    v < f.args || !(At(f, v).isVoid || At(f, v).unused)
  }

  // Definitions come before uses, and what a live bitcast uses has a result and a use.
  ghost predicate Ordered(f: Func) {
    forall v :: f.args <= v < Size(f) && Live(f, v) && At(f, v).cast.Of? ==> At(f, v).cast.v < v && Live(f, At(f, v).cast.v)
  }

  // The value at the far end of a chain of bitcasts.
  function Root(f: Func, v: nat): (r: nat)
    requires Ordered(f) && v < Size(f) && Live(f, v)
    ensures r <= v && Live(f, r) && Root(f, r) == r
    decreases v
  {
    if v < f.args || !At(f, v).cast.Of? then v else Root(f, At(f, v).cast.v)
  }

  // The first n values are numbered: live ones by their roots, and each root is listed in the order they
  // are laid out.
  ghost predicate Numbered(f: Func, n: nat, ids: map<nat, Option<nat>>, rev: seq<nat>)
    requires Ordered(f) && n <= Size(f)
  {
    && (forall v: nat :: v in ids <==> v < n)
    && (forall v :: 0 <= v < n ==> ids[v].Some? == Live(f, v))
    && (forall v :: 0 <= v < n && Live(f, v) ==> ids[v].value < |rev| && rev[ids[v].value] == Root(f, v))
    && (forall i :: 0 <= i < |rev| ==> rev[i] < n && Live(f, rev[i]) && Root(f, rev[i]) == rev[i] && ids[rev[i]] == Some(i))
    && forall i, j :: 0 <= i < j < |rev| ==> rev[i] < rev[j]
  }

  // The arguments have the first ids, in their order.
  lemma {:induction false} ArgumentsFirst(f: Func, ids: map<nat, Option<nat>>, rev: seq<nat>)
    requires Ordered(f) && Numbered(f, Size(f), ids, rev)
    ensures forall v :: 0 <= v < f.args ==> ids[v] == Some(v)
  {
    hide Ordered, Root;
    var v := 0;
    while v < f.args
      invariant 0 <= v <= f.args && v <= |rev| && forall u :: 0 <= u < v ==> ids[u] == Some(u) && rev[u] == u
    {
      RootOf(f, v);
      assert rev[ids[v].value] == v;
      assert rev[v] <= v && ids[rev[v]] == Some(v);
      v := v + 1;
    }
  }

  // Of two values at the ends of their own chains the one laid out first has the smaller id.
  lemma {:induction false} IdsInOrder(f: Func, ids: map<nat, Option<nat>>, rev: seq<nat>, u: nat, v: nat)
    requires Ordered(f) && Numbered(f, Size(f), ids, rev) && u < v < Size(f) && Live(f, u) && Live(f, v)
    requires Root(f, u) == u && Root(f, v) == v
    ensures ids[u].value < ids[v].value
  {
    hide Ordered, Root, Live;
    assert rev[ids[u].value] == u && rev[ids[v].value] == v;
  }

  // Live values share an id exactly when chains of bitcasts lead to the same value.
  lemma {:induction false} SharedIds(f: Func, ids: map<nat, Option<nat>>, rev: seq<nat>, u: nat, v: nat)
    requires Ordered(f) && Numbered(f, Size(f), ids, rev) && u < Size(f) && v < Size(f) && Live(f, u) && Live(f, v)
    ensures ids[u] == ids[v] <==> Root(f, u) == Root(f, v)
  {
  }

  // Every id below the number of listed values is used.
  lemma {:induction false} IdsDense(f: Func, ids: map<nat, Option<nat>>, rev: seq<nat>, i: nat)
    requires Ordered(f) && Numbered(f, Size(f), ids, rev)
    ensures i < |rev| <==> exists v :: 0 <= v < Size(f) && ids[v] == Some(i)
  {
    if i < |rev| { assert ids[rev[i]] == Some(i); }
  }

  lemma {:induction false} NoneNumbered(f: Func)
    requires Ordered(f)
    ensures Numbered(f, 0, map[], [])
  {
  }

  lemma {:induction false} RootOf(f: Func, v: nat)
    requires Ordered(f) && v < Size(f) && Live(f, v)
    ensures if v < f.args || !At(f, v).cast.Of? then Root(f, v) == v
            else At(f, v).cast.v < v && Live(f, At(f, v).cast.v) && Root(f, v) == Root(f, At(f, v).cast.v)
  {
  }

  lemma {:induction false} NumberedNone(f: Func, n: nat, ids: map<nat, Option<nat>>, rev: seq<nat>)
    requires Ordered(f) && n < Size(f) && Numbered(f, n, ids, rev) && !Live(f, n)
    ensures Numbered(f, n + 1, ids[n := None], rev)
  {
    hide Root, Live, Ordered;
  }

  lemma {:induction false} NumberedRoot(f: Func, n: nat, ids: map<nat, Option<nat>>, rev: seq<nat>)
    requires Ordered(f) && n < Size(f) && Numbered(f, n, ids, rev) && Live(f, n) && Root(f, n) == n
    ensures Numbered(f, n + 1, ids[n := Some(|rev|)], rev + [n])
  {
    hide Root, Live, Ordered;
  }

  lemma {:induction false} NumberedShared(f: Func, n: nat, ids: map<nat, Option<nat>>, rev: seq<nat>, v: nat)
    requires Ordered(f) && v < n < Size(f) && Numbered(f, n, ids, rev) && Live(f, n) && Live(f, v) && Root(f, n) == Root(f, v)
    ensures v in ids && ids[v].Some? && Numbered(f, n + 1, ids[n := ids[v]], rev)
  {
    hide Root, Live, Ordered;
  }

  class Numbering {
    var valueMap: map<nat, Option<nat>>
    var revValueMap: seq<nat>
    var skipMap: set<nat>

    constructor ()
      ensures valueMap == map[] && revValueMap == [] && skipMap == {}
    {
      valueMap, revValueMap, skipMap := map[], [], {};
    }

    method RunOnFunction(f: Func)
      requires Ordered(f)
      modifies this
      ensures Numbered(f, Size(f), valueMap, revValueMap)
      ensures forall v :: 0 <= v < f.args ==> valueMap[v] == Some(v)
      ensures forall v :: f.args <= v < Size(f) ==> (v in skipMap <==> v in old(skipMap) || Skipped(f, v))
    {
      hide Numbered, Root, Ordered;
      valueMap, revValueMap := map[], [];
      var id, v := 0, 0;
      assert Numbered(f, 0, valueMap, revValueMap) by { NoneNumbered(f); }
      while v < f.args
        invariant 0 <= v <= f.args && id == v && |revValueMap| == id && Numbered(f, v, valueMap, revValueMap) && skipMap == old(skipMap)
      {
        RootOf(f, v);
        NumberedRoot(f, v, valueMap, revValueMap);
        valueMap := valueMap[v := Some(id)];
        if |revValueMap| == id { revValueMap := revValueMap + [v]; }
        id, v := id + 1, v + 1;
      }
      while v < Size(f)
        invariant f.args <= v <= Size(f) && |revValueMap| == id && Numbered(f, v, valueMap, revValueMap)
        invariant forall u :: f.args <= u < v ==> (u in skipMap <==> u in old(skipMap) || Skipped(f, u))
        invariant forall u: nat :: u >= v ==> (u in skipMap <==> u in old(skipMap))
      {
        var i := At(f, v);
        if i.isVoid {
          NumberedNone(f, v, valueMap, revValueMap);
          valueMap := valueMap[v := None];
        } else if i.unused {
          NumberedNone(f, v, valueMap, revValueMap);
          skipMap, valueMap := skipMap + {v}, valueMap[v := None];
        } else if i.cast.Of? {
          RootOf(f, v);
          NumberedShared(f, v, valueMap, revValueMap, i.cast.v);
          skipMap, valueMap := skipMap + {v}, valueMap[v := valueMap[i.cast.v]];
        } else {
          RootOf(f, v);
          NumberedRoot(f, v, valueMap, revValueMap);
          valueMap := valueMap[v := Some(id)];
          if |revValueMap| == id { revValueMap := revValueMap + [v]; }
          id := id + 1;
        }
        v := v + 1;
      }
      ArgumentsFirst(f, valueMap, revValueMap);
    }

    // The id of a value that is not skipped.
    predicate Holds(f: Func, v: nat, id: nat)
      reads this
    {
      v in valueMap && (v >= f.args ==> v !in skipMap) && valueMap[v] == Some(id)
    }

    // The older way of building the list, by the largest id that is not skipped, finds the same size: the
    // assertion on it cannot fail.
    method BuildReverseMap(f: Func) returns (reverseMap: seq<nat>, max: nat)
      requires Ordered(f) && Numbered(f, Size(f), valueMap, revValueMap)
      requires forall v :: f.args <= v < Size(f) ==> (v in skipMap <==> Skipped(f, v))
      ensures forall v: nat, id: nat :: Holds(f, v, id) ==> id <= max
      ensures if revValueMap == [] then max == 0 else exists v: nat :: Holds(f, v, max)
      ensures revValueMap != [] ==> max + 1 == |revValueMap|
      ensures reverseMap == revValueMap
    {
      max := 0;
      var todo := valueMap.Keys;
      while todo != {}
        invariant todo <= valueMap.Keys && max < |revValueMap| + 1
        invariant forall v: nat, id: nat :: Holds(f, v, id) ==> v in todo || id <= max
        invariant revValueMap != [] ==> max < |revValueMap|
        invariant max == |revValueMap| - 1 || revValueMap == [] || revValueMap[|revValueMap| - 1] in todo
        decreases todo
      {
        var v :| v in todo;
        todo := todo - {v};
        if v >= f.args && v in skipMap { continue; }
        if valueMap[v].None? { continue; }
        if valueMap[v].value > max { max := valueMap[v].value; }
      }
      assert !(max != 0 && max + 1 != |revValueMap|);
      assert revValueMap != [] ==> Holds(f, revValueMap[max], max);
      reverseMap := revValueMap;
    }
  }

  // Instructions that get no code of their own.
  predicate Skipped(f: Func, v: nat)
    requires f.args <= v < Size(f)
  {
    var i := At(f, v);
    !i.isVoid && (i.unused || i.cast.Of?)
  }
}

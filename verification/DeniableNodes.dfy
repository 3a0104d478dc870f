// How often a condition can be negated, and how large it is once its shared parts are written out.
module DeniableNodes {
  import opened Words
  import opened LogicalNodes
  import opened SumModifiers
  import opened NodeRules
  import opened NodeOrder
  import opened NodeSums
  import opened ShapedTables

  // ---- negating again ----

  // The negation of entry i can be negated in turn: an equality with zero, of anything but a match count,
  // turns into what it compares.
  predicate Settled(t: Table, i: nat)
    requires i < |t|
  {
    t[i].kind != Not && (t[i].kind == Eq ==>
      OneChild(t, t[i]) && t[t[i].children[0]].kind != Add && (t[i].op0 != 0 || t[t[i].children[0]].kind == SubSignature))
  }

  // Entry i can be negated; two times or more, as often as one likes.
  ghost predicate Deniable(t: Table, i: nat, times: nat)
    requires Acyclic(t) && i < |t|
  {
    times == 0 ||
    if Connective(t[i].kind) then forall c :: c in t[i].children ==> Deniable(t, c, times)
    else t[i].kind != Add && !Additive(t[i].kind) && (times > 1 ==> Settled(t, i))
  }

  ghost predicate AllDeniable(t: Table, ids: seq<nat>, times: nat)
    requires Acyclic(t)
  {
    forall i :: i in ids ==> i < |t| && Deniable(t, i, times)
  }

  ghost predicate SetDeniable(t: Table, s: set<nat>, times: nat)
    requires Acyclic(t)
  {
    forall i :: i in s ==> i < |t| && Deniable(t, i, times)
  }

  // Entry r, or each of a set, can be negated as often as all operands.
  ghost predicate AsDeniable(t0: Table, ids: seq<nat>, t: Table, r: nat)
    requires Acyclic(t0) && Acyclic(t) && r < |t|
  {
    forall times: nat :: AllDeniable(t0, ids, times) ==> Deniable(t, r, times)
  }

  ghost predicate SetAsDeniable(t0: Table, ids: seq<nat>, t: Table, s: set<nat>)
    requires Acyclic(t0) && Acyclic(t)
  {
    forall times: nat :: AllDeniable(t0, ids, times) ==> SetDeniable(t, s, times)
  }

  // Once is what the constructor of negations asks for.
  lemma {:induction false} DeniableOnce(t: Table, i: nat, times: nat)
    requires Acyclic(t) && i < |t|
    ensures Deniable(t, i, 1) <==> Negatable(t, i)
    ensures times > 0 && Deniable(t, i, times) ==> Negatable(t, i)
  {
    forall c | c in t[i].children
      ensures (Deniable(t, c, 1) <==> Negatable(t, c)) && (times > 0 && Deniable(t, c, times) ==> Negatable(t, c))
    {
      DeniableOnce(t, c, times);
    }
  }

  lemma {:induction false} DeniableFewer(t: Table, i: nat, times: nat, fewer: nat)
    requires Acyclic(t) && i < |t| && Deniable(t, i, times) && fewer <= times
    ensures Deniable(t, i, fewer)
  {
    if Connective(t[i].kind) && fewer > 0 {
      forall c | c in t[i].children ensures Deniable(t, c, fewer) { DeniableFewer(t, c, times, fewer); }
    }
  }

  lemma {:induction false} DeniableExtends(t: Table, t': Table, i: nat, times: nat)
    requires Acyclic(t) && Acyclic(t') && t <= t' && i < |t|
    ensures Deniable(t', i, times) <==> Deniable(t, i, times)
  {
    forall c | c in t[i].children ensures Deniable(t', c, times) <==> Deniable(t, c, times) {
      DeniableExtends(t, t', c, times);
    }
    if |t[i].children| == 1 { assert t[i].children[0] in t[i].children; }
  }

  lemma {:induction false} AllDeniableExtends(t: Table, t': Table, ids: seq<nat>, times: nat)
    requires Acyclic(t) && Acyclic(t') && t <= t' && AllDeniable(t, ids, times)
    ensures AllDeniable(t', ids, times)
  {
    forall i | i in ids ensures Deniable(t', i, times) { DeniableExtends(t, t', i, times); }
  }

  // What a disjunction takes over from its operands.
  lemma {:induction false} OrTermDeniable(t: Table, nodes: set<nat>, ids: seq<nat>, s: nat, times: nat)
    requires Acyclic(t) && AllDeniable(t, ids, times) && s in ids && SetDeniable(t, nodes, times)
    ensures SetDeniable(t, OrTermsAfter(t, nodes, s), times)
  {
  }

  lemma {:induction false} OneAsDeniable(t: Table, ids: seq<nat>, r: nat)
    requires Acyclic(t) && In(t, ids) && r in ids
    ensures AsDeniable(t, ids, t, r)
  {
  }

  lemma {:induction false} NothingJoined(t: Table, ids: seq<nat>)
    requires Acyclic(t)
    ensures WithinRoom(t, {}, Trees(t, [])) && SetAsDeniable(t, ids, t, {})
  {
    NoneWithin(t);
  }

  lemma {:induction false} OrTermJoined(t: Table, nodes: set<nat>, ids: seq<nat>, k: nat)
    requires Acyclic(t) && k < |ids| && ids[k] < |t| && In(t, ids) && In(t, ids[..k]) && In(t, ids[..k + 1])
    requires SetAsDeniable(t, ids, t, nodes)
    ensures SetAsDeniable(t, ids, t, OrTermsAfter(t, nodes, ids[k]))
    ensures WithinRoom(t, nodes, Trees(t, ids[..k])) ==> WithinRoom(t, OrTermsAfter(t, nodes, ids[k]), Trees(t, ids[..k + 1]))
  {
    var s := ids[k];
    assert s in ids && ids[..k + 1] == ids[..k] + [s];
    forall times: nat | AllDeniable(t, ids, times) ensures SetDeniable(t, OrTermsAfter(t, nodes, s), times) {
      OrTermDeniable(t, nodes, ids, s, times);
    }
    TreesOne(t, s);
    TreesAppend(t, ids[..k], [s]);
    if WithinRoom(t, nodes, Trees(t, ids[..k])) { OrTermWithin(t, nodes, Trees(t, ids[..k]), s); }
  }

  lemma {:induction false} OrTermWithin(t: Table, nodes: set<nat>, room: nat, s: nat)
    requires Acyclic(t) && s < |t| && WithinRoom(t, nodes, room)
    ensures WithinRoom(t, OrTermsAfter(t, nodes, s), room + Tree(t, s))
  {
    TreeOf(t, s);
    WithinOne(t, nodes, room, s);
    WithinMore(t, nodes, room, t[s].children);
    WithinLarger(t, nodes, room, room + Tree(t, s));
    WithinLarger(t, nodes + Elements(t[s].children), room + Trees(t, t[s].children), room + Tree(t, s));
  }

  lemma {:induction false} WithinLarger(t: Table, s: set<nat>, room: nat, larger: nat)
    requires Acyclic(t) && WithinRoom(t, s, room) && room <= larger
    ensures WithinRoom(t, s, larger)
  {
    var xs: seq<nat> :| In(t, xs) && HeldBy(t, s, xs, room);
    assert HeldBy(t, s, xs, larger);
  }

  // One of a list is no larger than all.
  lemma {:induction false} TreeAmong(t: Table, ids: seq<nat>, i: nat)
    requires Acyclic(t) && In(t, ids) && i in ids
    ensures i < |t| && Tree(t, i) <= Trees(t, ids)
  {
    UniqueAmong([i], ids);
    TreesAmong(t, [i], ids);
    TreesOne(t, i);
  }

  // What is placed in a conjunction can be negated as often as its operands.
  lemma {:induction false} PlacedDeniable(t0: Table, ids: seq<nat>, t: Table, e: nat, times: nat)
    requires Acyclic(t0) && In(t0, ids) && AllDeniable(t0, ids, times) && Acyclic(t) && t0 <= t && FromAtoms(t0, ids, t, e)
    ensures e < |t| && Deniable(t, e, times)
  {
    hide Paired;
    if AtomOf(t0, ids, e) {
      AtomDeniable(t0, ids, e, times);
      DeniableExtends(t0, t, e, times);
    } else {
      var n1, n2 :| AtomOf(t0, ids, n1) && AtomOf(t0, ids, n2) && Paired(t0, n1, n2, t, e);
      AtomDeniable(t0, ids, n1, times);
      PairDeniable(t0, n1, n2, t, e, times);
    }
  }

  lemma {:induction false} AtomDeniable(t: Table, ids: seq<nat>, a: nat, times: nat)
    requires Acyclic(t) && In(t, ids) && AllDeniable(t, ids, times) && AtomOf(t, ids, a)
    ensures a < |t| && Deniable(t, a, times)
  {
    var i :| i in ids && a in Atoms(t, i);
    assert Deniable(t, i, times);
  }

  lemma {:induction false} PairDeniable(t0: Table, n1: nat, n2: nat, t: Table, e: nat, times: nat)
    requires Acyclic(t0) && Acyclic(t) && t0 <= t && Paired(t0, n1, n2, t, e) && Deniable(t0, n1, times)
    ensures e < |t| && Deniable(t, e, times)
  {
  }

  lemma {:induction false} PlacedAllDeniable(t0: Table, ids: seq<nat>, t: Table, out: set<nat>)
    requires Acyclic(t0) && In(t0, ids) && Acyclic(t) && t0 <= t && AllFromAtoms(t0, ids, t, out)
    ensures SetAsDeniable(t0, ids, t, out)
  {
    hide FromAtoms, Deniable;
    forall times: nat, e | AllDeniable(t0, ids, times) && e in out ensures e < |t| && Deniable(t, e, times) {
      PlacedDeniable(t0, ids, t, e, times);
    }
  }

  // Entry r joins the terms.
  ghost predicate Connects(t: Table, kind: Kind, terms: set<nat>, r: nat) {
    && r < |t| && Connective(kind) && (terms == {} ==> Constant(t[r].kind) && t[r].children == [])
    && (|terms| == 1 ==> terms == {r})
    && (|terms| > 1 ==> t[r].kind == kind && Elements(t[r].children) == terms)
  }

  lemma {:induction false} ConnectedDeniable(t0: Table, ids: seq<nat>, t: Table, terms: set<nat>, t': Table, r: nat, kind: Kind)
    requires Acyclic(t0) && Acyclic(t) && Acyclic(t') && t <= t'
    requires SetAsDeniable(t0, ids, t, terms) && Connects(t', kind, terms, r)
    ensures AsDeniable(t0, ids, t', r)
  {
    forall times: nat | AllDeniable(t0, ids, times) ensures Deniable(t', r, times) {
      assert SetDeniable(t, terms, times);
      if |terms| == 0 { assert terms == {}; }
      forall c | c in terms ensures Deniable(t', c, times) { DeniableExtends(t, t', c, times); }
      if terms == {r} { assert r in terms; }
    }
  }

  // ---- the entries written out ----

  // The number of entries met on the way down, each as often as it is met.
  ghost function Tree(t: Table, i: nat): (n: nat)
    requires Acyclic(t) && i < |t|
    ensures n >= 1
    decreases i, 1
  {
    1 + TreesBelow(t, t[i].children, i)
  }

  ghost function TreesBelow(t: Table, ids: seq<nat>, bound: nat): nat
    requires Acyclic(t) && bound <= |t| && forall c :: c in ids ==> c < bound
    decreases bound, 0, |ids|
  {
    if ids == [] then 0
    else
      assert ids[0] in ids && forall c :: c in ids[1..] ==> c in ids;
      Tree(t, ids[0]) + TreesBelow(t, ids[1..], bound)
  }

  ghost function Trees(t: Table, ids: seq<nat>): nat
    requires Acyclic(t) && In(t, ids)
  {
    TreesBelow(t, ids, |t|)
  }

  lemma {:induction false} TreesAnyBound(t: Table, ids: seq<nat>, a: nat, b: nat)
    requires Acyclic(t) && a <= |t| && b <= |t| && (forall c :: c in ids ==> c < a) && forall c :: c in ids ==> c < b
    ensures TreesBelow(t, ids, a) == TreesBelow(t, ids, b)
  {
    if ids != [] {
      TailIn(ids);
      TreesAnyBound(t, ids[1..], a, b);
    }
  }

  lemma {:induction false} TreeOf(t: Table, i: nat)
    requires Acyclic(t) && i < |t|
    ensures In(t, t[i].children) && Tree(t, i) == 1 + Trees(t, t[i].children)
  {
    TreesAnyBound(t, t[i].children, i, |t|);
  }

  lemma {:induction false} TreesExtend(t: Table, t': Table, ids: seq<nat>, bound: nat)
    requires Acyclic(t) && Acyclic(t') && t <= t' && bound <= |t| && forall c :: c in ids ==> c < bound
    ensures TreesBelow(t', ids, bound) == TreesBelow(t, ids, bound)
    decreases bound, 0, |ids|
  {
    if ids != [] {
      TailIn(ids);
      TreeExtends(t, t', ids[0]);
      TreesExtend(t, t', ids[1..], bound);
    }
  }

  lemma {:induction false} TreeExtends(t: Table, t': Table, i: nat)
    requires Acyclic(t) && Acyclic(t') && t <= t' && i < |t|
    ensures Tree(t', i) == Tree(t, i)
    decreases i, 1
  {
    TreesExtend(t, t', t[i].children, i);
  }

  lemma {:induction false} AllTreesExtend(t: Table, t': Table, ids: seq<nat>)
    requires Acyclic(t) && Acyclic(t') && t <= t' && In(t, ids)
    ensures Trees(t', ids) == Trees(t, ids)
  {
    TreesExtend(t, t', ids, |t|);
    TreesAnyBound(t', ids, |t|, |t'|);
  }

  lemma {:induction false} TreesAppend(t: Table, a: seq<nat>, b: seq<nat>)
    requires Acyclic(t) && In(t, a) && In(t, b)
    ensures In(t, a + b) && Trees(t, a + b) == Trees(t, a) + Trees(t, b)
  {
    if a == [] {
      assert a + b == b;
    } else {
      assert (a + b)[0] == a[0] && (a + b)[1..] == a[1..] + b;
      TailIn(a);
      TreesAppend(t, a[1..], b);
    }
  }

  lemma {:induction false} TreesOne(t: Table, i: nat)
    requires Acyclic(t) && i < |t|
    ensures In(t, [i]) && Trees(t, [i]) == Tree(t, i)
  {
    assert [i][1..] == [] && TreesBelow(t, [], |t|) == 0;
  }

  lemma {:induction false} TreesTwo(t: Table, a: nat, b: nat)
    requires Acyclic(t) && a < |t| && b < |t|
    ensures In(t, [a, b]) && Trees(t, [a, b]) == Tree(t, a) + Tree(t, b)
  {
    TreesOne(t, a);
    TreesOne(t, b);
    TreesAppend(t, [a], [b]);
    assert [a] + [b] == [a, b];
  }

  // A part of a list, in any order, is no larger.
  lemma {:induction false} TreesAmong(t: Table, xs: seq<nat>, ys: seq<nat>)
    requires Acyclic(t) && In(t, ys) && multiset(xs) <= multiset(ys)
    ensures In(t, xs) && Trees(t, xs) <= Trees(t, ys)
  {
    forall x | x in xs ensures x in ys { assert x in multiset(xs) && x in multiset(ys); }
    if xs != [] {
      TailIn(xs);
      var k :| 0 <= k < |ys| && ys[k] == xs[0];
      var rest := Without(ys, k);
      TreesWithout(t, ys, k);
      hide Without, Trees;
      OneLess(multiset(xs[1..]), multiset(rest), xs[0]);
      TreesAmong(t, xs[1..], rest);
      TreesHead(t, xs);
    }
  }

  lemma {:induction false} OneLess(a: multiset<nat>, b: multiset<nat>, x: nat)
    requires multiset{x} + a <= b + multiset{x}
    ensures a <= b
  {
    forall y ensures a[y] <= b[y] { assert (multiset{x} + a)[y] <= (b + multiset{x})[y]; }
  }

  lemma {:induction false} TreesHead(t: Table, xs: seq<nat>)
    requires Acyclic(t) && In(t, xs) && xs != []
    ensures xs[0] in xs && In(t, xs[1..]) && Trees(t, xs) == Tree(t, xs[0]) + Trees(t, xs[1..])
  {
    TailIn(xs);
  }

  function Without(ys: seq<nat>, k: nat): (r: seq<nat>)
    requires k < |ys|
    ensures multiset(ys) == multiset(r) + multiset{ys[k]}
  {
    assert ys == ys[..k] + ([ys[k]] + ys[k + 1..]);
    ys[..k] + ys[k + 1..]
  }

  lemma {:induction false} TreesWithout(t: Table, ys: seq<nat>, k: nat)
    requires Acyclic(t) && In(t, ys) && k < |ys|
    ensures In(t, Without(ys, k)) && ys[k] in ys && Trees(t, ys) == Trees(t, Without(ys, k)) + Tree(t, ys[k])
  {
    var a, b := ys[..k], ys[k + 1..];
    assert ys == a + ([ys[k]] + b) && ys[k] in ys;
    assert In(t, a) && In(t, b) by { assert forall c :: c in a || c in b ==> c in ys; }
    TreesOne(t, ys[k]);
    TreesAppend(t, a, b);
    TreesAppend(t, [ys[k]], b);
    TreesAppend(t, a, [ys[k]] + b);
  }

  // A set of entries that some list of so much room holds.
  ghost predicate WithinRoom(t: Table, s: set<nat>, room: nat)
    requires Acyclic(t)
  {
    exists xs: seq<nat> :: In(t, xs) && HeldBy(t, s, xs, room)
  }

  ghost predicate HeldBy(t: Table, s: set<nat>, xs: seq<nat>, room: nat)
    requires Acyclic(t) && In(t, xs)
  {
    (forall c :: c in s ==> c in xs) && Trees(t, xs) <= room
  }

  lemma {:induction false} NoneWithin(t: Table)
    requires Acyclic(t)
    ensures WithinRoom(t, {}, 0)
  {
    assert In(t, []) && HeldBy(t, {}, [], 0);
  }

  lemma {:induction false} WithinExtends(t: Table, t': Table, s: set<nat>, room: nat)
    requires Acyclic(t) && Acyclic(t') && t <= t' && WithinRoom(t, s, room)
    ensures WithinRoom(t', s, room)
  {
    var xs: seq<nat> :| In(t, xs) && HeldBy(t, s, xs, room);
    AllTreesExtend(t, t', xs);
    assert HeldBy(t', s, xs, room);
  }

  lemma {:induction false} WithinMore(t: Table, s: set<nat>, room: nat, ids: seq<nat>)
    requires Acyclic(t) && WithinRoom(t, s, room) && In(t, ids)
    ensures WithinRoom(t, s + Elements(ids), room + Trees(t, ids))
  {
    var xs: seq<nat> :| In(t, xs) && HeldBy(t, s, xs, room);
    TreesAppend(t, xs, ids);
    assert HeldBy(t, s + Elements(ids), xs + ids, room + Trees(t, ids));
  }

  lemma {:induction false} WithinOne(t: Table, s: set<nat>, room: nat, i: nat)
    requires Acyclic(t) && WithinRoom(t, s, room) && i < |t|
    ensures WithinRoom(t, s + {i}, room + Tree(t, i))
  {
    TreesOne(t, i);
    WithinMore(t, s, room, [i]);
    assert Elements([i]) == {i};
  }

  lemma {:induction false} UniqueAmong(xs: seq<nat>, ys: seq<nat>)
    requires Unique(xs) && forall x :: x in xs ==> x in ys
    ensures multiset(xs) <= multiset(ys)
  {
    UniqueOnce(xs);
    forall x ensures multiset(xs)[x] <= multiset(ys)[x] {
      if x in xs { assert x in ys && x in multiset(ys); }
    }
  }

  lemma {:induction false} UniqueOnce(xs: seq<nat>)
    requires Unique(xs)
    ensures forall x :: multiset(xs)[x] <= 1
  {
    if xs != [] {
      TailIn(xs);
      UniqueOnce(xs[1..]);
      forall k | 0 <= k < |xs[1..]| ensures xs[1..][k] != xs[0] { assert xs[1..][k] == xs[k + 1]; }
      assert xs[0] !in xs[1..];
    }
  }

  // Joining the terms costs one entry more.
  lemma {:induction false} ConnectedTree(t: Table, terms: set<nat>, room: nat, t': Table, r: nat, kind: Kind)
    requires Acyclic(t) && WellFormed(t') && t <= t' && WithinRoom(t, terms, room) && Connects(t', kind, terms, r)
    ensures Tree(t', r) <= 1 + room
  {
    WithinExtends(t, t', terms, room);
    var xs: seq<nat> :| In(t', xs) && HeldBy(t', terms, xs, room);
    TreeOf(t', r);
    if |terms| == 0 {
      assert terms == {};
    } else if |terms| == 1 {
      assert r in terms;
      TreesOne(t', r);
      UniqueAmong([r], xs);
      TreesAmong(t', [r], xs);
    } else {
      assert FlatAt(t', r);
      UniqueAmong(t'[r].children, xs);
      TreesAmong(t', t'[r].children, xs);
    }
  }

  // ---- the terms of a disjunction ----

  // What gathering them from the first k operands keeps.
  ghost predicate Gathering(t: Table, ids: seq<nat>, k: nat, nodes: set<nat>)
    requires WellFormed(t) && In(t, ids) && k <= |ids|
  {
    && In(t, ids[..k]) && TermsOf(t, ids[..k], nodes)
    && (Shaped(t) && NoOffsets(t, ids) ==> TermsShaped(t, Or, nodes)) && (AllFirm(t, ids) ==> TermsFirm(t, nodes))
    && SetAsDeniable(t, ids, t, nodes) && WithinRoom(t, nodes, Trees(t, ids[..k]))
    && (NoneNested(t, ids) ==> forall c :: c in nodes ==> c in ids)
  }

  lemma {:induction false} GatherNone(t: Table, ids: seq<nat>)
    requires WellFormed(t) && In(t, ids)
    ensures Gathering(t, ids, 0, {})
  {
    assert ids[..0] == [];
    NoTermsShaped(t);
    NothingJoined(t, ids);
  }

  lemma {:induction false} GatheringParts(t: Table, ids: seq<nat>, k: nat, nodes: set<nat>)
    requires WellFormed(t) && In(t, ids) && k <= |ids| && Gathering(t, ids, k, nodes)
    ensures In(t, ids[..k]) && TermsOf(t, ids[..k], nodes)
    ensures Shaped(t) && NoOffsets(t, ids) ==> TermsShaped(t, Or, nodes)
    ensures AllFirm(t, ids) ==> TermsFirm(t, nodes)
    ensures SetAsDeniable(t, ids, t, nodes) && WithinRoom(t, nodes, Trees(t, ids[..k]))
    ensures NoneNested(t, ids) ==> forall c :: c in nodes ==> c in ids
  {
  }

  lemma {:induction false} GatherTerm(t: Table, ids: seq<nat>, k: nat, nodes: set<nat>)
    requires WellFormed(t) && In(t, ids) && k < |ids| && Gathering(t, ids, k, nodes) && ids[k] < |t| && t[ids[k]].kind != True
    ensures Gathering(t, ids, k + 1, OrTermsAfter(t, nodes, ids[k]))
  {
    var s := ids[k];
    assert s in ids && ids[..k + 1] == ids[..k] + [s];
    hide Val, Canonical, Shaped, NoOffsets, AllFirm, TermsFirm, TermsShaped, SetAsDeniable, WithinRoom, Trees, TermsOf;
    OrStep(t, nodes, ids[..k], s);
    if Shaped(t) && NoOffsets(t, ids) { OrTermShaped(t, nodes, ids, s); }
    if AllFirm(t, ids) { OrTermFirm(t, nodes, ids, s); }
    OrTermJoined(t, nodes, ids, k);
  }

  // ---- the equalities a conjunction sets aside ----

  // Those over the first n sums, of the given ones.
  ghost function SetAsideTrees(t: Table, sums: Sums, keys: set<nat>, n: nat): nat
    requires Acyclic(t) && SumsIn(t, sums) && keys <= sums.Keys
  {
    if n == 0 then 0
    else SetAsideTrees(t, sums, keys, n - 1) + if n - 1 in keys then EqsTrees(t, sums, n - 1) else 0
  }

  ghost function EqsTrees(t: Table, sums: Sums, c: nat): nat
    requires Acyclic(t) && SumsIn(t, sums) && c in sums
  {
    assert In(t, sums[c]);
    Trees(t, sums[c])
  }

  lemma {:induction false} NoneSetAside(t: Table, n: nat)
    requires Acyclic(t)
    ensures SetAsideTrees(t, map[], {}, n) == 0
  {
    if n > 0 { NoneSetAside(t, n - 1); }
  }

  lemma {:induction false} OneSetAside(t: Table, sums: Sums, c: nat, s: nat, n: nat)
    requires Acyclic(t) && SumsIn(t, sums) && s < |t|
    ensures var after := SetAside(sums, c, s);
      SumsIn(t, after)
      && SetAsideTrees(t, after, after.Keys, n) == SetAsideTrees(t, sums, sums.Keys, n) + if c < n then Tree(t, s) else 0
  {
    var after := SetAside(sums, c, s);
    assert SumsIn(t, after) by {
      forall d, x | d in after && x in after[d] ensures x < |t| { if d in sums && x in sums[d] {} }
    }
    if n > 0 {
      OneSetAside(t, sums, c, s, n - 1);
      if n - 1 == c {
        var before: seq<nat> := if c in sums then sums[c] else [];
        assert In(t, before);
        TreesOne(t, s);
        TreesAppend(t, before, [s]);
      } else if n - 1 in sums {
        assert after[n - 1] == sums[n - 1];
      }
    }
  }

  lemma {:induction false} OneTaken(t: Table, sums: Sums, keys: set<nat>, c: nat, n: nat)
    requires Acyclic(t) && SumsIn(t, sums) && keys <= sums.Keys && c in keys
    ensures SetAsideTrees(t, sums, keys, n) == SetAsideTrees(t, sums, keys - {c}, n) + if c < n then EqsTrees(t, sums, c) else 0
  {
    if n > 0 { OneTaken(t, sums, keys, c, n - 1); }
  }

  // What the worklist of a conjunction keeps: the terms, the equalities set aside and the pending entries
  // are together no larger than the operands.
  ghost predicate Kept(t: Table, ids: seq<nat>, pending: seq<nat>, others: set<nat>, sums: Sums, room: nat)
    requires Acyclic(t) && In(t, ids)
  {
    && In(t, pending) && SumsIn(t, sums) && WithinRoom(t, others, room)
    && room + SetAsideTrees(t, sums, sums.Keys, |t|) + Trees(t, pending) <= Trees(t, ids)
  }

  lemma {:induction false} KeptStart(t: Table, ids: seq<nat>)
    requires Acyclic(t) && In(t, ids)
    ensures Kept(t, ids, ids, {}, map[], 0)
  {
    NoneSetAside(t, |t|);
    NoneWithin(t);
    var none: Sums := map[];
    assert none.Keys == {};
  }

  // The next entry is no larger than the operands.
  lemma {:induction false} KeptNext(t: Table, ids: seq<nat>, rest: seq<nat>, s: nat, others: set<nat>, sums: Sums, room: nat)
    requires Acyclic(t) && In(t, ids) && s < |t| && Kept(t, ids, rest + [s], others, sums, room)
    ensures In(t, rest) && Trees(t, rest + [s]) == Trees(t, rest) + Tree(t, s) && Tree(t, s) <= Trees(t, ids)
    ensures Kept(t, ids, rest, others, sums, room)
  {
    assert forall c :: c in rest ==> c in rest + [s];
    TreesOne(t, s);
    TreesAppend(t, rest, [s]);
  }

  lemma {:induction false} KeptNested(t: Table, ids: seq<nat>, rest: seq<nat>, s: nat, others: set<nat>, sums: Sums, room: nat)
    requires Acyclic(t) && In(t, ids) && s < |t| && Kept(t, ids, rest + [s], others, sums, room)
    ensures Kept(t, ids, rest + t[s].children, others, sums, room)
  {
    KeptNext(t, ids, rest, s, others, sums, room);
    TreeOf(t, s);
    TreesAppend(t, rest, t[s].children);
  }

  lemma {:induction false} KeptTerm(t: Table, ids: seq<nat>, rest: seq<nat>, s: nat, others: set<nat>, sums: Sums, room: nat)
    requires Acyclic(t) && In(t, ids) && s < |t| && Kept(t, ids, rest + [s], others, sums, room)
    ensures Kept(t, ids, rest, others + {s}, sums, room + Tree(t, s))
  {
    KeptNext(t, ids, rest, s, others, sums, room);
    WithinOne(t, others, room, s);
  }

  lemma {:induction false} KeptSum(t: Table, ids: seq<nat>, rest: seq<nat>, s: nat, others: set<nat>, sums: Sums, room: nat, c: nat)
    requires Acyclic(t) && In(t, ids) && s < |t| && c < |t| && Kept(t, ids, rest + [s], others, sums, room)
    ensures Kept(t, ids, rest, others, SetAside(sums, c, s), room)
  {
    KeptNext(t, ids, rest, s, others, sums, room);
    OneSetAside(t, sums, c, s, |t|);
  }

  // All that the worklist keeps.
  ghost predicate Walking(t: Table, ids: seq<nat>, pending: seq<nat>, others: set<nat>, sums: Sums, room: nat)
    requires WellFormed(t) && In(t, ids) && In(t, pending)
  {
    ConjunctsOf(t, ids, pending, others, sums) && NoneDropped(t, ids, pending, others, sums) && Kept(t, ids, pending, others, sums, room)
  }

  lemma {:induction false} WalkStart(t: Table, ids: seq<nat>)
    requires WellFormed(t) && In(t, ids)
    ensures Walking(t, ids, ids, {}, map[], 0)
  {
    KeptStart(t, ids);
    StartConjuncts(t, ids);
  }

  lemma {:induction false} WalkTrue(t: Table, ids: seq<nat>, rest: seq<nat>, s: nat, others: set<nat>, sums: Sums, room: nat)
    requires WellFormed(t) && In(t, ids) && In(t, rest + [s]) && Walking(t, ids, rest + [s], others, sums, room)
    requires s < |t| && t[s].kind == True
    ensures In(t, rest) && Walking(t, ids, rest, others, sums, room)
  {
    hide ConjunctsOf, NoneDropped, Kept, Canonical;
    AndStepTerm(t, ids, rest, s, others, sums);
    NoneDroppedStep(t, ids, rest, s, others, sums, others, sums);
    KeptNext(t, ids, rest, s, others, sums, room);
  }

  lemma {:induction false} WalkFalse(t: Table, ids: seq<nat>, rest: seq<nat>, s: nat, others: set<nat>, sums: Sums, room: nat)
    requires WellFormed(t) && In(t, ids) && In(t, rest + [s]) && Walking(t, ids, rest + [s], others, sums, room)
    requires s < |t| && t[s].kind == False
    ensures (forall m: Counts :: !AllTrue(t, ids, m)) && (ids != [] ==> !Joins(t, ids)) && Tree(t, s) <= Trees(t, ids)
  {
    hide ConjunctsOf, NoneDropped, Kept, Canonical, AllTrue;
    FalseConjunct(t, ids, rest, s, others, sums);
    KeptNext(t, ids, rest, s, others, sums, room);
  }

  lemma {:induction false} WalkNested(t: Table, ids: seq<nat>, rest: seq<nat>, s: nat, others: set<nat>, sums: Sums, room: nat)
    requires WellFormed(t) && In(t, ids) && In(t, rest + [s]) && Walking(t, ids, rest + [s], others, sums, room)
    requires s < |t| && t[s].kind == And
    ensures In(t, rest + t[s].children) && Walking(t, ids, rest + t[s].children, others, sums, room)
  {
    hide ConjunctsOf, NoneDropped, Kept, Canonical;
    AndStepNested(t, ids, rest, s, others, sums);
    NoneDroppedNested(t, ids, rest, s, others, sums);
    KeptNested(t, ids, rest, s, others, sums, room);
  }

  lemma {:induction false} WalkSum(t: Table, ids: seq<nat>, rest: seq<nat>, s: nat, others: set<nat>, sums: Sums, room: nat)
    requires WellFormed(t) && In(t, ids) && In(t, rest + [s]) && Walking(t, ids, rest + [s], others, sums, room)
    requires s < |t| && t[s].kind == Eq && Mergeable(t, s, t[s].children[0])
    ensures In(t, rest) && Walking(t, ids, rest, others, SetAside(sums, t[s].children[0], s), room)
  {
    hide ConjunctsOf, NoneDropped, Kept, Canonical;
    var c := t[s].children[0];
    var after := SetAside(sums, c, s);
    assert c in after && s in after[c];
    AndStepSum(t, ids, rest, s, others, sums, c);
    NoneDroppedStep(t, ids, rest, s, others, sums, others, after);
    KeptSum(t, ids, rest, s, others, sums, room, c);
  }

  lemma {:induction false} WalkTerm(t: Table, ids: seq<nat>, rest: seq<nat>, s: nat, others: set<nat>, sums: Sums, room: nat)
    requires WellFormed(t) && In(t, ids) && In(t, rest + [s]) && Walking(t, ids, rest + [s], others, sums, room)
    requires s < |t| && AndTerm(t, s)
    ensures In(t, rest) && Walking(t, ids, rest, others + {s}, sums, room + Tree(t, s))
  {
    hide ConjunctsOf, NoneDropped, Kept, Canonical;
    AndStepTerm(t, ids, rest, s, others, sums);
    NoneDroppedStep(t, ids, rest, s, others, sums, others + {s}, sums);
    KeptTerm(t, ids, rest, s, others, sums, room);
  }

  lemma {:induction false} WalkEnd(t: Table, ids: seq<nat>, others: set<nat>, sums: Sums, room: nat)
    requires WellFormed(t) && In(t, ids) && Walking(t, ids, [], others, sums, room)
    ensures ConjunctsOf(t, ids, [], others, sums) && NoneDropped(t, ids, [], others, sums) && Kept(t, ids, [], others, sums, room)
  {
  }

  // The terms placed so far and the equalities still to place.
  ghost predicate RoomLeft(t0: Table, ids: seq<nat>, sums: Sums, rest: set<nat>, t: Table, out: set<nat>, used: nat)
    requires Acyclic(t0) && In(t0, ids) && Acyclic(t)
  {
    && rest <= sums.Keys && SumsIn(t0, sums) && WithinRoom(t, out, used)
    && used + SetAsideTrees(t0, sums, rest, |t0|) <= Trees(t0, ids)
  }

  lemma {:induction false} RoomStart(t: Table, ids: seq<nat>, others: set<nat>, sums: Sums, room: nat)
    requires Acyclic(t) && In(t, ids) && Kept(t, ids, [], others, sums, room)
    ensures RoomLeft(t, ids, sums, sums.Keys, t, others, room)
  {
  }

  // The equalities over the next sum are placed.
  lemma {:induction false} RoomStep(t0: Table, ids: seq<nat>, sums: Sums, rest: set<nat>, t1: Table, out: set<nat>, used: nat,
      c: nat, t: Table, out': set<nat>)
    requires Acyclic(t0) && In(t0, ids) && Acyclic(t1) && Acyclic(t) && t0 <= t1 <= t
    requires RoomLeft(t0, ids, sums, rest, t1, out, used) && c in rest && In(t1, sums[c])
    requires AllMergeable(t1, sums[c], c) && sums[c] != [] && forall s :: s in sums[c] ==> s < |t0|
    requires WithinRoom(t1, out, used) ==> WithinRoom(t, out', used + Trees(t1, sums[c]))
    ensures RoomLeft(t0, ids, sums, rest - {c}, t, out', used + Trees(t1, sums[c]))
  {
    hide WithinRoom, Trees;
    assert sums[c][0] in sums[c];
    MergeableOver(t0, t1, sums[c][0], c);
    AllTreesExtend(t0, t1, sums[c]);
    OneTaken(t0, sums, rest, c, |t0|);
  }

  lemma {:induction false} RoomEnd(t0: Table, ids: seq<nat>, sums: Sums, t: Table, out: set<nat>, used: nat)
    requires Acyclic(t0) && In(t0, ids) && Acyclic(t) && RoomLeft(t0, ids, sums, {}, t, out, used)
    ensures WithinRoom(t, out, Trees(t0, ids))
  {
    WithinLarger(t, out, used, Trees(t0, ids));
  }

  // What placing the equalities keeps.
  ghost predicate Placed(t0: Table, ids: seq<nat>, others: set<nat>, sums: Sums, rest: set<nat>, exact: bool,
      t: Table, out: set<nat>, used: nat)
    requires WellFormed(t0) && In(t0, ids) && WellFormed(t)
  {
    && Gathered(t0, ids, t, out, sums, rest, exact) && RoomLeft(t0, ids, sums, rest, t, out, used)
    && (forall c :: c in sums ==> sums[c] != [])
    && WithEqs(t, others, out) && (rest != sums.Keys ==> HasEq(t, out))
    && AllFromAtoms(t0, ids, t, out) && AllTerms(t, out)
  }

  lemma {:induction false} PlaceStart(t: Table, ids: seq<nat>, others: set<nat>, sums: Sums, exact: bool, room: nat)
    requires WellFormed(t) && In(t, ids) && ConjunctsOf(t, ids, [], others, sums) && Kept(t, ids, [], others, sums, room)
    ensures Placed(t, ids, others, sums, sums.Keys, exact, t, others, room)
  {
    hide Canonical, AllTrue, SetTrue, AllFromAtoms, WithEqs, RoomLeft, Gathered, Kept;
    RoomStart(t, ids, others, sums, room);
    StartGather(t, ids, others, sums, exact);
    StartFromAtoms(t, ids, others, sums);
  }

  lemma {:induction false} PlacedParts(t0: Table, ids: seq<nat>, others: set<nat>, sums: Sums, rest: set<nat>, exact: bool,
      t: Table, out: set<nat>, used: nat)
    requires WellFormed(t0) && In(t0, ids) && WellFormed(t) && Placed(t0, ids, others, sums, rest, exact, t, out, used)
    ensures Gathered(t0, ids, t, out, sums, rest, exact) && RoomLeft(t0, ids, sums, rest, t, out, used) && rest <= sums.Keys
    ensures WithEqs(t, others, out) && (rest != sums.Keys ==> HasEq(t, out))
    ensures AllFromAtoms(t0, ids, t, out) && AllTerms(t, out)
  {
  }

  lemma {:induction false} MergeableOver(t0: Table, t: Table, n: nat, c: nat)
    requires Acyclic(t0) && t0 <= t && n < |t0| && Mergeable(t, n, c)
    ensures c < |t0| && t0[n].children == [c] && t[n].children == [c]
  {
    assert t0[n] == t[n] && t[n].children == [t[n].children[0]] && c in t0[n].children;
  }

  lemma {:induction false} NoTrees(t: Table)
    requires Acyclic(t)
    ensures In(t, []) && Trees(t, []) == 0
  {
  }

  lemma {:induction false} TreesNext(t: Table, i: nat, rest: seq<nat>)
    requires Acyclic(t) && In(t, [i] + rest)
    ensures i < |t| && In(t, rest) && Trees(t, [i] + rest) == Tree(t, i) + Trees(t, rest)
  {
    assert i in [i] + rest && forall c :: c in rest ==> c in [i] + rest;
    TreesOne(t, i);
    TreesAppend(t, [i], rest);
  }

  lemma {:induction false} TreesFewer(t: Table, rest: seq<nat>, i: nat)
    requires Acyclic(t) && In(t, rest) && i < |t|
    ensures In(t, rest + [i]) && Trees(t, rest + [i]) == Trees(t, rest) + Tree(t, i)
  {
    TreesOne(t, i);
    TreesAppend(t, rest, [i]);
  }

  // Two merged are as large as the first.
  lemma {:induction false} PairWithin(t0: Table, t1: Table, out: set<nat>, room: nat, roomy: bool, n1: nat, t: Table, e: nat)
    requires Acyclic(t0) && Acyclic(t1) && Acyclic(t) && t0 <= t1 <= t && n1 < |t0| && e < |t| && t[e].children == t0[n1].children
    requires roomy ==> WithinRoom(t1, out, room)
    ensures roomy ==> WithinRoom(t, out + {e}, room + Tree(t0, n1))
  {
    TreeExtends(t0, t, n1);
    TreeOf(t, e);
    TreeOf(t, n1);
    if roomy {
      WithinExtends(t1, t, out, room);
      WithinOne(t, out, room, e);
    }
  }

  // The terms placed so far and the equalities over one sum still to place.
  ghost predicate MergeRoom(t0: Table, t: Table, out: set<nat>, totals: seq<nat>, uniqs: seq<nat>, roomy: bool, used: nat, all: nat)
    requires Acyclic(t0) && Acyclic(t)
  {
    && In(t0, totals) && In(t0, uniqs) && (roomy ==> WithinRoom(t, out, used))
    && used + Trees(t0, totals) + Trees(t0, uniqs) <= all
  }

  lemma {:induction false} MergeRoomStart(t: Table, out: set<nat>, totals: seq<nat>, uniqs: seq<nat>, roomy: bool, used: nat, all: nat)
    requires Acyclic(t) && In(t, totals) && In(t, uniqs) && (roomy ==> WithinRoom(t, out, used))
    requires used + Trees(t, totals) + Trees(t, uniqs) <= all
    ensures MergeRoom(t, t, out, totals, uniqs, roomy, used, all)
  {
  }

  lemma {:induction false} MergeRoomPair(t0: Table, t1: Table, out: set<nat>, n1: nat, rest: seq<nat>, u: seq<nat>, n2: nat,
      roomy: bool, used: nat, all: nat, t: Table, e: nat)
    requires Acyclic(t0) && Acyclic(t1) && Acyclic(t) && t0 <= t1 <= t
    requires MergeRoom(t0, t1, out, [n1] + rest, u + [n2], roomy, used, all)
    requires n1 < |t0| && e < |t| && t[e].children == t0[n1].children
    ensures MergeRoom(t0, t, out + {e}, rest, u, roomy, used + Tree(t0, n1), all)
  {
    hide Trees, WithinRoom;
    TreesNext(t0, n1, rest);
    assert n2 in u + [n2] && forall c :: c in u ==> c in u + [n2];
    TreesFewer(t0, u, n2);
    PairWithin(t0, t1, out, used, roomy, n1, t, e);
  }

  lemma {:induction false} MergeRoomOne(t0: Table, t: Table, out: set<nat>, n1: nat, rest: seq<nat>, uniqs: seq<nat>,
      roomy: bool, used: nat, all: nat)
    requires Acyclic(t0) && Acyclic(t) && t0 <= t && MergeRoom(t0, t, out, [n1] + rest, uniqs, roomy, used, all)
    ensures n1 < |t0| && MergeRoom(t0, t, out + {n1}, rest, uniqs, roomy, used + Tree(t0, n1), all)
  {
    hide Trees, WithinRoom;
    TreesNext(t0, n1, rest);
    TreeExtends(t0, t, n1);
    if roomy { WithinOne(t, out, used, n1); }
  }

  lemma {:induction false} MergeRoomRest(t0: Table, t: Table, out: set<nat>, uniqs: seq<nat>, roomy: bool, used: nat, all: nat)
    requires Acyclic(t0) && Acyclic(t) && t0 <= t && MergeRoom(t0, t, out, [], uniqs, roomy, used, all)
    ensures roomy ==> WithinRoom(t, out + Elements(uniqs), all)
  {
    NoTrees(t0);
    hide Trees, WithinRoom;
    AllTreesExtend(t0, t, uniqs);
    if roomy {
      WithinMore(t, out, used, uniqs);
      WithinLarger(t, out + Elements(uniqs), used + Trees(t, uniqs), all);
    }
  }

  // All that placing the equalities over one sum keeps.
  ghost predicate Merging(t0: Table, others: set<nat>, eqs: seq<nat>, totals: seq<nat>, u0: seq<nat>,
      t: Table, out: set<nat>, rest: seq<nat>, uniqs: seq<nat>, started: bool, c: nat, exact: bool, roomy: bool, used: nat, all: nat)
    requires WellFormed(t0) && WellFormed(t)
  {
    && (forall i :: i in eqs <==> i in totals || i in u0) && (forall i :: i in totals ==> i < |t0|) && (forall i :: i in u0 ==> i < |t0|)
    && (forall i :: i in totals ==> t0[i].op1 == ALL_ONES) && (forall i :: i in u0 ==> t0[i].op1 != ALL_ONES)
    && Placing(t0, others, totals, u0, t, out, rest, uniqs, c, exact) && WithEqs(t, others, out) && (started ==> HasEq(t, out))
    && uniqs <= u0 && (!started ==> uniqs == u0 && rest == totals) && AllFromEqs(t0, others, eqs, t, out)
    && MergeRoom(t0, t, out, rest, uniqs, roomy, used, all)
  }

  lemma {:induction false} MergeStart(t: Table, others: set<nat>, eqs: seq<nat>, totals: seq<nat>, uniqs: seq<nat>, c: nat,
      roomy: bool, room: nat)
    requires WellFormed(t) && Waiting(t, totals, uniqs, c) && AllTerms(t, others) && In(t, eqs)
    requires (forall i :: i in eqs <==> i in totals || i in uniqs) && (roomy ==> WithinRoom(t, others, room))
    requires Trees(t, totals) + Trees(t, uniqs) == Trees(t, eqs)
    ensures Merging(t, others, eqs, totals, uniqs, t, others, totals, uniqs, false, c, NoLoss(t, eqs), roomy, room, room + Trees(t, eqs))
  {
    StartPlacing(t, others, totals, uniqs, c, eqs);
    assert WithEqs(t, others, others) by { PlacedNothing(t, others, others, t); }
    FromEqsStart(t, others, eqs);
    hide Canonical, Placing, AllTerms, WithEqs, AllFromEqs, WithinRoom, Trees;
    MergeRoomStart(t, others, totals, uniqs, roomy, room, room + Trees(t, eqs));
  }

  // The next of each kind.
  lemma {:induction false} MergeHeads(t0: Table, others: set<nat>, eqs: seq<nat>, totals: seq<nat>, u0: seq<nat>,
      t: Table, out: set<nat>, n1: nat, rest: seq<nat>, u: seq<nat>, n2: nat, started: bool, c: nat, exact: bool, roomy: bool,
      used: nat, all: nat)
    requires WellFormed(t0) && WellFormed(t) && t0 <= t
    requires Merging(t0, others, eqs, totals, u0, t, out, [n1] + rest, u + [n2], started, c, exact, roomy, used, all) && n1 in totals
    ensures n1 in eqs && n2 in eqs && n1 < |t0| && n2 < |t0| && t[n1].op1 == ALL_ONES && t[n2].op1 != ALL_ONES
    ensures Mergeable(t, n1, c) && Mergeable(t, n2, c)
  {
    hide Canonical, Placing, AllTerms, WithEqs, HasEq, AllFromEqs, MergeRoom;
    PlacingHeads(t0, others, totals, u0, t, out, [n1] + rest, u + [n2], c, exact);
    assert (u + [n2])[|u|] == n2 && n2 in u0;
  }

  lemma {:induction false} MergeTwo(t0: Table, others: set<nat>, eqs: seq<nat>, totals: seq<nat>, u0: seq<nat>,
      t1: Table, out: set<nat>, n1: nat, rest: seq<nat>, u: seq<nat>, n2: nat, started: bool, c: nat, exact: bool, roomy: bool,
      used: nat, all: nat, t: Table, e: nat)
    requires WellFormed(t0) && WellFormed(t1) && WellFormed(t) && t0 <= t1 <= t && e < |t|
    requires Merging(t0, others, eqs, totals, u0, t1, out, [n1] + rest, u + [n2], started, c, exact, roomy, used, all) && n1 in totals
    requires n1 < |t1| && n2 < |t1| && t[e] == Node(Eq, t1[n1].op0, t1[n2].op1, [c])
    ensures n1 < |t0|
    ensures Merging(t0, others, eqs, totals, u0, t, out + {e}, rest, u, true, c, exact, roomy, used + Tree(t0, n1), all)
  {
    MergeHeads(t0, others, eqs, totals, u0, t1, out, n1, rest, u, n2, started, c, exact, roomy, used, all);
    hide Canonical, Placing, AllTerms, WithEqs, HasEq, AllFromEqs, MergeRoom, Acyclic, Arity;
    MergeableOver(t0, t1, n1, c);
    MergePlacing(t0, others, totals, u0, t1, out, n1, rest, n2, u, t, e, c, exact);
    PlacedEq(t1, others, out, t, e);
    PairedFrom(t0, others, eqs, t1, out, n1, n2, c, t, e);
    MergeRoomPair(t0, t1, out, n1, rest, u, n2, roomy, used, all, t, e);
  }

  lemma {:induction false} MergeOne(t0: Table, others: set<nat>, eqs: seq<nat>, totals: seq<nat>, u0: seq<nat>,
      t: Table, out: set<nat>, n1: nat, rest: seq<nat>, uniqs: seq<nat>, started: bool, c: nat, exact: bool, roomy: bool, used: nat, all: nat)
    requires WellFormed(t0) && WellFormed(t) && t0 <= t && n1 in totals
    requires Merging(t0, others, eqs, totals, u0, t, out, [n1] + rest, uniqs, started, c, exact, roomy, used, all) && uniqs == []
    ensures n1 < |t0|
    ensures Merging(t0, others, eqs, totals, u0, t, out + {n1}, rest, uniqs, true, c, exact, roomy, used + Tree(t0, n1), all)
  {
    hide Canonical, Placing, AllTerms, WithEqs, HasEq, AllFromEqs, MergeRoom, Acyclic, Arity;
    PlacingHeads(t0, others, totals, u0, t, out, [n1] + rest, uniqs, c, exact);
    PlaceOne(t0, others, totals, u0, t, out, n1, rest, uniqs, c, exact);
    PlacedEq(t, others, out, t, n1) by { MergeableEq(t, n1, c); }
    FromEqsStep(t0, others, eqs, t, out, t, n1) by { FromEqsAt(t0, eqs, t, n1); }
    MergeRoomOne(t0, t, out, n1, rest, uniqs, roomy, used, all);
  }

  lemma {:induction false} MergeDone(t0: Table, others: set<nat>, eqs: seq<nat>, totals: seq<nat>, u0: seq<nat>,
      t: Table, out: set<nat>, uniqs: seq<nat>, started: bool, c: nat, exact: bool, roomy: bool, used: nat, all: nat)
    requires WellFormed(t0) && WellFormed(t) && t0 <= t && In(t0, eqs) && AllTerms(t0, others)
    requires Merging(t0, others, eqs, totals, u0, t, out, [], uniqs, started, c, exact, roomy, used, all)
    ensures var last := out + Elements(uniqs);
      && AllTerms(t, last) && WithEqs(t, others, last) && (eqs != [] ==> HasEq(t, last)) && AllFromEqs(t0, others, eqs, t, last)
      && (roomy ==> WithinRoom(t, last, all))
      && (forall m: Counts :: Together(t0, others, eqs, m) ==> SetTrue(t, last, m))
      && (exact ==> forall m: Counts :: SetTrue(t, last, m) ==> Together(t0, others, eqs, m))
  {
    hide Canonical, Placing, AllTerms, WithEqs, HasEq, AllFromEqs, MergeRoom, Acyclic, Arity, Together, SetTrue, WithinRoom;
    PlaceRest(t0, others, totals, u0, t, out, uniqs, c, exact, eqs);
    PlacingHeads(t0, others, totals, u0, t, out, [], uniqs, c, exact);
    PlacedEqs(t, others, out, c, uniqs);
    if eqs != [] && !started { assert eqs[0] in eqs; }
    assert forall x :: x in uniqs ==> x in u0;
    FromEqsRest(t0, others, eqs, t, out, uniqs);
    MergeRoomRest(t0, t, out, uniqs, roomy, used, all);
  }

  lemma {:induction false} ConstantDeniable(t0: Table, ids: seq<nat>, t: Table, r: nat)
    requires Acyclic(t0) && Acyclic(t) && r < |t| && Constant(t[r].kind)
    ensures AsDeniable(t0, ids, t, r)
  {
  }

  // ---- compares ----

  // An equality is as large as what it compares and itself, or smaller.
  lemma {:induction false} EqTree(t: Table, i: nat, v: u32, r: nat)
    requires Acyclic(t) && Arity(t) && EqFor(t, i, v, r)
    ensures Tree(t, r) <= 1 + Tree(t, i)
  {
    var b, n := EqBase(t, i), t[r];
    TreeOf(t, r);
    TreesOne(t, n.children[0]);
    assert n.children == [n.children[0]];
    TreeOf(t, b);
    TreeOf(t, n.children[0]);
    if b != i {
      TreeOf(t, i);
      TreesOne(t, b);
      assert t[i].children == [b];
    }
  }

  lemma {:induction false} EqDeniable(t: Table, i: nat, v: u32, r: nat)
    requires Acyclic(t) && EqFor(t, i, v, r)
    ensures Deniable(t, r, 1)
    ensures t[i].kind != Add && (v != 0 || t[i].kind == SubSignature) ==> Deniable(t, r, 2)
  {
  }

  lemma {:induction false} OrderTree(t: Table, r: nat, kind: Kind, v: u32, c: nat)
    requires Acyclic(t) && r < |t| && c < |t| && t[r] == Plain(kind, v, [c])
    ensures Tree(t, r) == 1 + Tree(t, c)
    ensures kind == Lt || kind == Gt ==> Deniable(t, r, 2)
  {
    TreeOf(t, r);
    TreesOne(t, c);
  }

  lemma {:induction false} LeafTree(t: Table, r: nat)
    requires Acyclic(t) && r < |t| && t[r].children == []
    ensures Tree(t, r) == 1
    ensures Constant(t[r].kind) || t[r].kind == SubSignature ==> forall times: nat :: Deniable(t, r, times)
  {
  }

  // The placed terms of a conjunction, joined.
  lemma {:induction false} ConjunctionDeniable(t0: Table, ids: seq<nat>, t: Table, out: set<nat>, t': Table, r: nat)
    requires WellFormed(t0) && In(t0, ids) && WellFormed(t) && WellFormed(t') && t0 <= t <= t'
    requires AllFromAtoms(t0, ids, t, out) && WithinRoom(t, out, Trees(t0, ids)) && Connects(t', And, out, r)
    ensures AsDeniable(t0, ids, t', r) && Tree(t', r) <= 1 + Trees(t0, ids)
  {
    hide Canonical, AllFromAtoms, WithinRoom, Connects, SetAsDeniable, AsDeniable;
    PlacedAllDeniable(t0, ids, t, out);
    ConnectedDeniable(t0, ids, t, out, t', r, And);
    ConnectedTree(t, out, Trees(t0, ids), t', r, And);
  }

  // What the joined terms promise of the operands.
  lemma {:induction false} ConjunctionEntered(t0: Table, ids: seq<nat>, others: set<nat>, sums: Sums, exact: bool,
      t: Table, out: set<nat>, t': Table, r: nat)
    requires WellFormed(t0) && In(t0, ids) && ids != [] && WellFormed(t) && WellFormed(t') && t0 <= t <= t' && r < |t'|
    requires ConjunctsOf(t0, ids, [], others, sums) && NoneDropped(t0, ids, [], others, sums) && (sums == map[] ==> out == others)
    requires Gathered(t0, ids, t, out, sums, {}, exact) && WithEqs(t, others, out) && (sums != map[] ==> HasEq(t, out))
    requires AllFromAtoms(t0, ids, t, out) && AllTerms(t, out) && WithinRoom(t, out, Trees(t0, ids))
    requires Connects(t', And, out, r) && (exact <==> AndGuard(t0, ids))
    requires forall m: Counts :: Truth(t', r, m) <==> SetTrue(t', out, m)
    ensures Implied(t', r, ids) && (exact ==> Conjoins(t', r, ids)) && (AllSumFree(t0, ids) ==> SumFree(t', r))
    ensures Joins(t0, ids) ==> Single(t'[r].kind)
    ensures AsDeniable(t0, ids, t', r) && Tree(t', r) <= 1 + Trees(t0, ids)
    ensures exact ==> Lossless(t', r) && forall ns :: AllNumbersIn(t0, ids, ns) ==> NumbersIn(t', r, ns)
  {
    ConjunctionDeniable(t0, ids, t, out, t', r);
    hide Canonical, Joins, AndGuard, WithEqs, HasEq, NoneDropped, AllFromAtoms, NumbersIn, AllNumbersIn, Lossless, Gathered, ConjunctsOf;
    hide Implied, Conjoins, SumFree, AllSumFree, AllTerms, AllTrue, Single, Acyclic, Arity, SetTrue, Truth, WithinRoom, Trees, AsDeniable;
    SingleKinds(t'[r].kind);
    AndResult(t0, ids, t, out, sums, exact, t', r);
    AndSumFree(t0, ids, others, sums, out, t', r);
    if Joins(t0, ids) {
      PlacedMore(t, others, out, t', out) by { PlacedNothing(t, others, out, t'); }
      JoinedKind(t0, ids, others, sums, out, t', r);
    }
    if exact { ConjunctionNumbers(t0, ids, t, out, t', r); }
  }

  lemma {:induction false} OffsetVal(t: Table, r: nat, i: nat, off: u32, m: Counts)
    requires Acyclic(t) && Arity(t) && r < |t| && i < |t| && t[r] == Plain(Add, off, [i])
    ensures Val(t, r, m) == Plus(Val(t, i, m), off)
  {
    assert i in t[r].children;
  }

  // ---- negations ----

  // Entry r, the negation of entry i, can be negated in turn, and is at most three times as large.
  ghost predicate DeniedWithin(t0: Table, i: nat, t: Table, r: nat)
    requires Acyclic(t0) && Acyclic(t) && i < |t0|
  {
    r < |t| && Deniable(t, r, 2) && Tree(t, r) <= 3 * Tree(t0, i)
  }

  // One side of what a negated compare splits into.
  ghost predicate SideDenied(t0: Table, i: nat, t: Table, r: nat)
    requires Acyclic(t0) && Acyclic(t) && i < |t0|
  {
    r < |t| && Deniable(t, r, 2) && Tree(t, r) <= Tree(t0, i)
  }

  lemma {:induction false} SettledKinds(t: Table, i: nat)
    requires Acyclic(t) && i < |t|
    ensures !Connective(t[i].kind) && Deniable(t, i, 2) ==> Settled(t, i) && t[i].kind != Not
  {
  }

  lemma {:induction false} SettledOperand(t: Table, i: nat)
    requires i < |t| && t[i].kind == Eq && Settled(t, i)
    ensures var c := t[i].children[0]; t[i].children == [c] && c < |t| && t[c].kind != Add
  {
  }

  lemma {:induction false} CountDeniedWithin(t0: Table, i: nat, t: Table, e: nat)
    requires Acyclic(t0) && Acyclic(t) && t0 <= t && i < |t0| && t[i].kind == SubSignature
    requires e < |t| && t[e] == Node(Eq, 0, ALL_ONES, [i])
    ensures DeniedWithin(t0, i, t, e)
  {
    OrderTree(t, e, Eq, 0, i);
    TreeExtends(t0, t, i);
  }

  lemma {:induction false} ConstantDeniedWithin(t0: Table, i: nat, t: Table, r: nat)
    requires Acyclic(t0) && Acyclic(t) && i < |t0| && r < |t| && Constant(t[r].kind) && t[r].children == []
    ensures DeniedWithin(t0, i, t, r)
  {
    LeafTree(t, r);
  }

  lemma {:induction false} SidesDenied(t0: Table, i: nat, t1: Table, a: nat, b: nat, t: Table, r: nat)
    requires Acyclic(t0) && Acyclic(t1) && Acyclic(t) && i < |t0| && r < |t|
    requires SideDenied(t0, i, t1, a) && SideDenied(t0, i, t1, b)
    requires AsDeniable(t1, [a, b], t, r) && In(t1, [a, b]) && Tree(t, r) <= 1 + Trees(t1, [a, b])
    ensures DeniedWithin(t0, i, t, r)
  {
    hide Deniable;
    TreesTwo(t1, a, b);
    assert AllDeniable(t1, [a, b], 2);
  }

  lemma {:induction false} SideBelow(t0: Table, i: nat, t1: Table, a: nat, t: Table)
    requires WellFormed(t0) && Acyclic(t1) && Acyclic(t) && t0 <= t1 <= t && i < |t0| && t0[i].kind == Eq && Settled(t0, i)
    requires a < |t1| && t1[a] == if t0[i].op0 == 0 then Plain(False, ALL_ONES, []) else Plain(Lt, t0[i].op0, t0[i].children)
    ensures SideDenied(t0, i, t, a)
  {
    SideSize(t0, i, t, a);
  }

  lemma {:induction false} SideAbove(t0: Table, i: nat, t: Table, b: nat)
    requires WellFormed(t0) && Acyclic(t) && t0 <= t && i < |t0| && t0[i].kind == Eq && Settled(t0, i) && b < |t|
    requires if t0[i].op0 == 0 then b == t0[i].children[0] else t[b] == Plain(Gt, t0[i].op0, t0[i].children)
    ensures SideDenied(t0, i, t, b)
  {
    if t0[i].op0 == 0 {
      var c := t0[i].children[0];
      assert t0[i].children == [c] && c in t0[i].children;
      TreeOf(t0, i);
      TreesOne(t0, c);
      TreeExtends(t0, t, c);
    } else {
      SideSize(t0, i, t, b);
    }
  }

  // A side over what was compared is as large as the compare.
  lemma {:induction false} SideSize(t0: Table, i: nat, t: Table, r: nat)
    requires Acyclic(t0) && Acyclic(t) && t0 <= t && i < |t0| && r < |t|
    requires t[r].children == [] || t[r].children == t0[i].children
    ensures Tree(t, r) <= Tree(t0, i)
  {
    TreeOf(t, r);
    TreeOf(t0, i);
    AllTreesExtend(t0, t, t0[i].children);
  }

  lemma {:induction false} OtherSidesDenied(t0: Table, i: nat, c: nat, v: u32, t1: Table, a: nat, t: Table, b: nat)
    requires Acyclic(t0) && Acyclic(t1) && WellFormed(t) && t0 <= t1 <= t && c < |t0| && t0[c].kind != Add && v != 0
    requires a < |t1| && (t1[a] == Plain(Lt, v, [c]) || t1[a] == Plain(Gt, v, [c])) && EqFor(t, c, v, b)
    requires i < |t0| && t0[i].children == [c]
    ensures SideDenied(t0, i, t, a) && SideDenied(t0, i, t, b)
  {
    EqDeniable(t, c, v, b);
    EqTree(t, c, v, b);
    SideSize(t0, i, t, a);
    TreeOf(t0, i);
    TreesOne(t0, c);
    TreeExtends(t0, t, c);
  }

  // What denying the operands of a connective keeps.
  ghost predicate AllDeniedWithin(t0: Table, cs: seq<nat>, t: Table, nodes: seq<nat>)
    requires Acyclic(t0) && Acyclic(t) && In(t0, cs) && In(t, nodes)
  {
    AllDeniable(t, nodes, 2) && Trees(t, nodes) <= 3 * Trees(t0, cs)
  }

  lemma {:induction false} ConnectiveDeniable(t: Table, i: nat)
    requires Acyclic(t) && i < |t| && Connective(t[i].kind) && Deniable(t, i, 2)
    ensures forall c :: c in t[i].children ==> c < |t| && Deniable(t, c, 2)
  {
  }

  lemma {:induction false} NoneDenied(t0: Table, t: Table)
    requires Acyclic(t0) && Acyclic(t)
    ensures In(t0, []) && In(t, []) && AllDeniedWithin(t0, [], t, [])
  {
  }

  lemma {:induction false} AllDeniedStep(t0: Table, cs: seq<nat>, t1: Table, nodes: seq<nat>, c: nat, t: Table, e: nat)
    requires Acyclic(t0) && Acyclic(t1) && Acyclic(t) && t0 <= t1 <= t && In(t0, cs) && In(t1, nodes) && c < |t0|
    requires AllDeniedWithin(t0, cs, t1, nodes) && DeniedWithin(t1, c, t, e)
    ensures In(t0, cs + [c]) && In(t, nodes + [e]) && AllDeniedWithin(t0, cs + [c], t, nodes + [e])
  {
    hide Deniable;
    AllDeniableExtends(t1, t, nodes, 2);
    AllTreesExtend(t1, t, nodes);
    TreeExtends(t0, t1, c);
    TreesFewer(t0, cs, c);
    TreesFewer(t, nodes, e);
  }

  lemma {:induction false} NegationsWithin(t0: Table, i: nat, t2: Table, nodes: seq<nat>, t: Table, r: nat)
    requires Acyclic(t0) && Acyclic(t2) && Acyclic(t) && i < |t0| && In(t0, t0[i].children) && In(t2, nodes) && r < |t|
    requires AllDeniedWithin(t0, t0[i].children, t2, nodes)
    requires AsDeniable(t2, nodes, t, r) && Tree(t, r) <= 1 + Trees(t2, nodes)
    ensures DeniedWithin(t0, i, t, r)
  {
    hide Deniable;
    TreeOf(t0, i);
  }

  // All that denying the operands one after another keeps.
  ghost predicate Negated(t0: Table, cs: seq<nat>, t: Table, nodes: seq<nat>, shaped: bool, exact: bool, again: bool)
    requires WellFormed(t0) && WellFormed(t) && In(t0, cs) && In(t, cs) && In(t, nodes)
  {
    && (shaped ==> Shaped(t) && AllJoinable(t, nodes) && AllFirm(t, nodes))
    && (exact ==> NegatesAll(t, nodes, cs) && AllSumFree(t, nodes))
    && (again ==> AllDeniedWithin(t0, cs, t, nodes))
  }

  lemma {:induction false} NegatedNone(t: Table, shaped: bool, exact: bool, again: bool)
    requires WellFormed(t) && (shaped ==> Shaped(t))
    ensures In(t, []) && Negated(t, [], t, [], shaped, exact, again)
  {
    hide Shaped, AllDeniedWithin;
    NoneDenied(t, t);
    NoNegations(t);
    NoneShaped(t);
  }

  lemma {:induction false} NegatedParts(t0: Table, cs: seq<nat>, t: Table, nodes: seq<nat>, shaped: bool, exact: bool, again: bool)
    requires WellFormed(t0) && WellFormed(t) && In(t0, cs) && In(t, cs) && In(t, nodes)
    requires Negated(t0, cs, t, nodes, shaped, exact, again)
    ensures shaped ==> Shaped(t) && AllJoinable(t, nodes) && AllFirm(t, nodes)
    ensures exact ==> NegatesAll(t, nodes, cs) && AllSumFree(t, nodes)
    ensures again ==> AllDeniedWithin(t0, cs, t, nodes)
  {
  }

  lemma {:induction false} NegatedStep(t0: Table, cs: seq<nat>, t1: Table, nodes: seq<nat>, c: nat, t: Table, e: nat,
      shaped: bool, exact: bool, again: bool)
    requires WellFormed(t0) && WellFormed(t1) && WellFormed(t) && t0 <= t1 <= t && c < |t0| && e < |t|
    requires In(t0, cs) && In(t1, cs) && In(t1, nodes) && Negated(t0, cs, t1, nodes, shaped, exact, again)
    requires shaped ==> Shaped(t) && Joinable(t, e) && Firm(t, e)
    requires exact ==> Negates(t, e, c) && SumFree(t, e)
    requires again ==> DeniedWithin(t1, c, t, e)
    ensures In(t0, cs + [c]) && In(t, cs + [c]) && In(t, nodes + [e])
    ensures Negated(t0, cs + [c], t, nodes + [e], shaped, exact, again)
  {
    hide Canonical, Shaped, Joinable, Firm, AllJoinable, AllFirm, NegatesAll, AllSumFree, Negates, SumFree, AllDeniedWithin, DeniedWithin;
    if again { AllDeniedStep(t0, cs, t1, nodes, c, t, e); }
    if exact { NegatesAllStep(t1, nodes, cs, t, e, c); }
    if shaped { AllJoinableStep(t1, nodes, t, e); }
  }
}

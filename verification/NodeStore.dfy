// The uniquing store of logical nodes and its smart constructors.
module NodeStore {
  import opened Words
  import opened LogicalNodes
  import opened WrappedRanges
  import opened SumModifiers
  import opened NodeRules
  import opened NodeOrder
  import opened NodeSums
  import opened ShapedTables
  import opened DeniableNodes

  class Store {
    var table: Table

    ghost predicate Valid() reads this { WellFormed(table) }

    constructor ()
      ensures Valid() && table == []
    {
      table := [];
    }

    // Returns the entry equal to n, adding it only when there is none.
    method GetNode(n: Node) returns (r: nat)
      requires Valid() && Enterable(table, n)
      modifies this
      ensures Valid() && r < |table| && table[r] == n
      ensures Shaped(old(table)) && ShapedNode(old(table), n) ==> Shaped(table)
      ensures table == if n in old(table) then old(table) else old(table) + [n]
      ensures !Additive(n.kind) || |n.children| <= 1 ==> Grown(old(table), table)
    {
      r := 0;
      while r < |table|
        invariant r <= |table| && n !in table[..r]
      {
        if table[r] == n { return; }
        r := r + 1;
      }
      assert table[..r] == table;
      AppendKeepsForm(table, n);
      if Shaped(table) && ShapedNode(table, n) { ShapedAppend(table, n); }
      table := table + [n];
    }

    method GetTrue() returns (r: nat)
      requires Valid()
      modifies this
      ensures Valid() && Grown(old(table), table) && r < |table| && table[r] == Plain(True, ALL_ONES, [])
      ensures Shaped(old(table)) ==> Shaped(table)
    {
      r := GetNode(Plain(True, ALL_ONES, []));
    }

    method GetFalse() returns (r: nat)
      requires Valid()
      modifies this
      ensures Valid() && Grown(old(table), table) && r < |table| && table[r] == Plain(False, ALL_ONES, [])
      ensures Shaped(old(table)) ==> Shaped(table)
    {
      r := GetNode(Plain(False, ALL_ONES, []));
    }

    method GetSubSig(sig: u32) returns (r: nat)
      requires Valid()
      modifies this
      ensures Valid() && Grown(old(table), table) && r < |table|
      ensures Shaped(old(table)) ==> Shaped(table)
      ensures table[r] == Plain(SubSignature, sig, []) && forall m: Counts :: Val(table, r, m) == Count(m, sig)
    {
      r := GetNode(Plain(SubSignature, sig, []));
    }

    method GetUniqueSigs(i: nat) returns (r: nat)
      requires Valid() && i < |table|
      modifies this
      ensures Valid() && Grown(old(table), table) && r < |table| && table[r] == Plain(AddUniq, ALL_ONES, [i])
      ensures Shaped(old(table)) && (Single(old(table)[i].kind) || old(table)[i].kind == SubSignature) ==> Shaped(table)
      ensures forall m: Counts :: Val(table, r, m) == Bit(Truth(table, i, m))
    {
      hide Canonical, Shaped, ShapedNode, OneTerm;
      UniqNodeShaped(table, i);
      r := GetNode(Plain(AddUniq, ALL_ONES, [i]));
      forall m: Counts ensures Val(table, r, m) == Bit(Truth(table, i, m)) {
        assert i in table[r].children;
        var vs := Vals(table, [i], r, m);
        assert vs == [Val(table, i, m)];
        assert Nonzero(vs) == (if vs[0] != 0 then 1 else 0) + Nonzero(vs[1..]);
      }
    }

    // The AddBoth node over the terms of a sum.
    method GetBoth(base: nat) returns (r: nat)
      requires Valid() && base < |table| && (table[base].kind == AddUniq || table[base].kind == AddSum)
      modifies this
      ensures Valid() && Grown(old(table), table) && r < |table| && table[r] == Plain(AddBoth, ALL_ONES, table[base].children)
      ensures Shaped(old(table)) ==> Shaped(table)
    {
      hide Val;
      assert Shaped(table) ==> ShapedNode(table, table[base]);
      r := GetNode(Plain(AddBoth, ALL_ONES, table[base].children));
    }

    method GetEQ(i: nat, value: u32) returns (r: nat)
      requires Valid() && i < |table|
      modifies this
      ensures Valid() && Grown(old(table), table) && r < |table|
      ensures EqFor(table, i, value, r) && table[r].kind == Eq
      ensures Shaped(old(table)) && EqShaped(old(table), i, value) ==> Shaped(table)
      ensures Shaped(old(table)) && EqShaped(old(table), i, value) && table[i].kind != AddBoth ==> Joinable(table, r)
      ensures EqFirm(old(table), i) ==> Firm(table, r)
      ensures old(table)[i].kind != Add && !Additive(old(table)[i].kind) ==> table[r] == Node(Eq, value, ALL_ONES, [i])
      ensures EqGuard(old(table), i, value) ==> EqMeans(table, r, i, value)
    {
      hide Val, EqMeans, Canonical, FlatAt, FoldedAt, Shaped, EqShaped, EqFirm, ShapedNode, Joinable, Firm, EqGuard, OneTerm;
      hide EqFor;
      ghost var t0 := table;
      var base, v := i, value;
      if table[i].kind == Add {
        v := Minus(value, table[i].op0);
        base := table[i].children[0];
        assert base in table[i].children;
      }
      var node, uniq := base, ALL_ONES;
      if table[base].kind == AddUniq || table[base].kind == AddSum {
        if table[base].kind == AddUniq { uniq := v; }
        node := GetBoth(base);
      }
      ghost var t1 := table;
      ghost var n := Node(Eq, v, uniq, [node]);
      assert base == EqBase(t1, i) && v == EqValue(t1, i, value) && EqRecord(t1, base, v, n);
      if Shaped(t0) && EqShaped(t0, i, value) { EqNodeShaped(t0, t1, i, value, n); }
      r := GetNode(Node(Eq, v, uniq, [node]));
      assert t1 <= table && t0 <= t1;
      EqEntered(t0, t1, table, i, value, n, r);
      EqResult(t0, table, i, value, r);
    }

    // What an equality is in a table in shape.
    ghost method EqResult(t0: Table, t: Table, i: nat, value: u32, r: nat)
      requires WellFormed(t0) && WellFormed(t) && t0 <= t && i < |t0| && EqFor(t, i, value, r)
      ensures Shaped(t) && EqShaped(t0, i, value) && t[i].kind != AddBoth ==> Joinable(t, r)
      ensures EqFirm(t0, i) ==> Firm(t, r)
    {
      hide Shaped, EqShaped, EqFirm, Joinable, Firm, EqFor, Canonical, EqGuard, EqMeans;
      if Shaped(t) && EqShaped(t0, i, value) && t[i].kind != AddBoth {
        EqShapedExtends(t0, t, i, value);
        EqJoinable(t, i, value, r);
      }
      if EqFirm(t0, i) {
        EqFirmExtends(t0, t, i);
        EqIsFirm(t, i, value, r);
      }
    }

    // Disjunction: absorbs nested disjunctions, drops FALSE and repeated operands, stops at TRUE.
    method GetOr(ids: seq<nat>) returns (r: nat)
      requires Valid() && ids != [] && In(table, ids)
      modifies this
      ensures Valid() && Grown(old(table), table) && r < |table|
      ensures Shaped(old(table)) && NoOffsets(old(table), ids) ==> Shaped(table)
      ensures AllJoinable(old(table), ids) ==> Joinable(table, r)
      ensures AllFirm(old(table), ids) ==> Firm(table, r)
      ensures Disjoins(table, r, ids)
      ensures forall b :: b in ids && OnlyTerm(old(table), ids, b) ==> r == b
      ensures r in ids || table[r].kind == Or || Constant(table[r].kind)
      ensures |ids| == 2 && ids[0] != ids[1] && (forall i :: i in ids ==> table[i].kind != Or && !Constant(table[i].kind))
        ==> table[r].kind == Or
      ensures AsDeniable(old(table), ids, table, r)
      ensures Tree(table, r) <= 1 + Trees(old(table), ids)
    {
      hide Canonical, Shaped, NoOffsets, AllJoinable, Joinable, TermsShaped, Val, TermsOf, Disjoins, SetAny, OneTerm;
      hide Firm, TermsFirm, Deniable, SetDeniable, WithinRoom, Trees, Connects, AsDeniable;
      ghost var t0 := table;
      var nodes, top := OrTerms(ids);
      if top.Some? {
        r := top.value;
        TreeAmong(table, ids, r);
        OneAsDeniable(table, ids, r);
        TopDisjoins(table, ids, r);
        if AllJoinable(t0, ids) { ResultJoinable(t0, ids, table, r); }
        return;
      }
      OrTermsIn(table, ids, nodes);
      r := Connect(Or, nodes);
      OrResult(t0, ids, nodes, table, r);
      ConnectedDeniable(t0, ids, t0, nodes, table, r, Or);
      ConnectedTree(t0, nodes, Trees(t0, ids), table, r, Or);
      if |nodes| == 1 { OneTermOf(t0, ids, nodes, r); }
      if TermsFirm(t0, nodes) { ConnectedFirm(t0, nodes, table, r, Or); }
      forall b | b in ids && OnlyTerm(t0, ids, b) ensures r == b { OnlyTermOf(t0, ids, nodes, b); }
      if |ids| == 2 && ids[0] != ids[1] && (forall i :: i in ids ==> table[i].kind != Or && !Constant(table[i].kind)) {
        TwoTermsOf(t0, ids, nodes);
      }
      assert nodes == {} || |nodes| == 1 || |nodes| > 1;
      if AllJoinable(t0, ids) { ResultJoinable(t0, ids, table, r); }
    }

    // The distinct terms of a disjunction, or the TRUE operand met on the way.
    method OrTerms(ids: seq<nat>) returns (nodes: set<nat>, top: Option<nat>)
      requires Valid() && In(table, ids)
      ensures top.Some? ==> top.value in ids && table[top.value].kind == True
      ensures top.None? ==> TermsOf(table, ids, nodes) && (NoneNested(table, ids) ==> forall c :: c in nodes ==> c in ids)
      ensures Shaped(table) && NoOffsets(table, ids) ==> TermsShaped(table, Or, nodes)
      ensures AllFirm(table, ids) ==> TermsFirm(table, nodes)
      ensures SetAsDeniable(table, ids, table, nodes)
      ensures top.None? ==> WithinRoom(table, nodes, Trees(table, ids))
    {
      hide Canonical, Shaped, OneTerm, Gathering, Acyclic, Arity;
      nodes, top := {}, None;
      var k := 0;
      GatherNone(table, ids);
      while k < |ids|
        invariant 0 <= k <= |ids| && Gathering(table, ids, k, nodes)
      {
        var s := ids[k];
        assert s in ids;
        if table[s].kind == True {
          GatheringParts(table, ids, k, nodes);
          return nodes, Some(s);
        }
        GatherTerm(table, ids, k, nodes);
        if table[s].kind == Or {
          nodes := nodes + Elements(table[s].children);
        } else if table[s].kind != False {
          nodes := nodes + {s};
        }
        k := k + 1;
      }
      assert ids[..k] == ids;
      GatheringParts(table, ids, k, nodes);
    }

    // A connective over a set of flattened terms, in whatever order the set is walked.
    method Connect(kind: Kind, terms: set<nat>) returns (r: nat)
      requires Valid() && Connective(kind)
      requires forall c :: c in terms ==> c < |table| && table[c].kind != kind && !Constant(table[c].kind)
      modifies this
      ensures Valid() && Grown(old(table), table) && r < |table|
      ensures Shaped(old(table)) && TermsShaped(old(table), kind, terms) ==> Shaped(table)
      ensures forall m: Counts :: Truth(table, r, m) <==>
        if kind == And then SetTrue(table, terms, m) else SetAny(table, terms, m)
      ensures terms == {} ==> Constant(table[r].kind)
      ensures |terms| == 1 ==> terms == {r}
      ensures |terms| > 1 ==> table[r].kind == kind && Elements(table[r].children) == terms
      ensures Connects(table, kind, terms, r)
    {
      hide Val, SetTrue, SetAny, Shaped, Truth, TermsShaped, OneTerm;
      if terms == {} {
        if kind == And { r := GetTrue(); } else { r := GetFalse(); }
        NoneConnected(table, r, kind);
        return;
      }
      var xs := Enumerate(terms);
      if |xs| == 1 {
        r := xs[0];
        assert r in xs;
        assert terms == {r} by { assert forall c :: c in terms ==> c in xs; }
        OneConnected(table, r, kind);
      } else {
        if TermsShaped(table, kind, terms) { TermsNodeShaped(table, kind, terms, xs); }
        r := GetNode(Plain(kind, ALL_ONES, xs));
        AllConnected(table, r, kind, terms);
      }
    }

    // Walks the nested conjunctions of ids, keeping plain terms apart from equalities over sums.
    method AndTerms(ids: seq<nat>) returns (others: set<nat>, sums: Sums, bottom: Option<nat>, ghost room: nat)
      requires Valid() && In(table, ids)
      ensures bottom.Some? ==> bottom.value < |table| && table[bottom.value].kind == False
      ensures bottom.Some? ==> forall m: Counts :: !AllTrue(table, ids, m)
      ensures bottom.Some? && ids != [] ==> !Joins(table, ids)
      ensures bottom.None? ==> ConjunctsOf(table, ids, [], others, sums) && NoneDropped(table, ids, [], others, sums)
      ensures if bottom.None? then Kept(table, ids, [], others, sums, room) else Tree(table, bottom.value) <= Trees(table, ids)
    {
      hide Val, ConjunctsOf, NoneDropped, Canonical, Joins, AllTrue, Walking, Trees, OneTerm, SetAside, Weight, Acyclic;
      others, sums, bottom, room := {}, map[], None, 0;
      var nodes := ids;
      WalkStart(table, ids);
      while nodes != []
        invariant In(table, nodes) && Walking(table, ids, nodes, others, sums, room)
        decreases Weight(table, nodes)
      {
        var rest, s := nodes[..|nodes| - 1], nodes[|nodes| - 1];
        assert nodes == rest + [s] && s in nodes;
        WeightStep(table, rest, s);
        nodes := rest;
        if table[s].kind == True {
          WalkTrue(table, ids, rest, s, others, sums, room);
        } else if table[s].kind == False {
          bottom := Some(s);
          WalkFalse(table, ids, rest, s, others, sums, room);
          return;
        } else if table[s].kind == And {
          WalkNested(table, ids, rest, s, others, sums, room);
          nodes := rest + table[s].children;
        } else if table[s].kind == Eq && Mergeable(table, s, table[s].children[0]) {
          WalkSum(table, ids, rest, s, others, sums, room);
          sums := SetAside(sums, table[s].children[0], s);
        } else {
          WalkTerm(table, ids, rest, s, others, sums, room);
          others, room := others + {s}, room + Tree(table, s);
        }
      }
      WalkEnd(table, ids, others, sums, room);
    }

    // Places the equalities eqs over the sum c, pairing each =X with a waiting =Y,Y into =X,Y.
    method Merge(c: nat, eqs: seq<nat>, others: set<nat>, ghost room: nat) returns (out: set<nat>)
      requires Valid() && AllMergeable(table, eqs, c) && In(table, eqs) && AllTerms(table, others)
      modifies this
      ensures Valid() && Grown(old(table), table) && AllTerms(table, out)
      ensures WithEqs(table, others, out) && (eqs != [] ==> HasEq(table, out))
      ensures Shaped(old(table)) && AllJoinable(old(table), eqs) ==> Shaped(table)
      ensures AllFromEqs(old(table), others, eqs, table, out)
      ensures WithinRoom(old(table), others, room) ==> WithinRoom(table, out, room + Trees(old(table), eqs))
      ensures forall m: Counts :: Together(old(table), others, eqs, m) ==> SetTrue(table, out, m)
      ensures NoLoss(old(table), eqs) ==>
        forall m: Counts :: SetTrue(table, out, m) ==> Together(old(table), others, eqs, m)
    {
      hide Val, NoLoss, SetTrue, AllTrue, Canonical, WithEqs, HasEq, Shaped, AllJoinable, OneTerm, AllFromEqs, AllTerms;
      hide WithinRoom, Trees, Merging, Together, Acyclic, Arity, SumEq;
      ghost var t0, exact := table, NoLoss(table, eqs);
      ghost var roomy, used, all := WithinRoom(table, others, room), room, room + Trees(table, eqs);
      ghost var shaped := Shaped(table) && AllJoinable(table, eqs);
      var totals, uniqs := Split(c, eqs);
      ghost var u0 := uniqs;
      out := others;
      var j := 0;
      assert totals[0..] == totals;
      MergeStart(t0, others, eqs, totals, uniqs, c, roomy, room);
      while j < |totals|
        invariant 0 <= j <= |totals| && Valid() && Grown(t0, table) && (shaped ==> Shaped(table)) && used >= 0
        invariant Merging(t0, others, eqs, totals, u0, table, out, totals[j..], uniqs, j > 0, c, exact, roomy, used, all)
      {
        var n1 := totals[j];
        ghost var rest := totals[j + 1..];
        assert totals[j..] == [n1] + rest && n1 in totals;
        if uniqs != [] {
          var n2 := uniqs[|uniqs| - 1];
          ghost var t1, u := table, uniqs[..|uniqs| - 1];
          assert uniqs == u + [n2];
          MergeHeads(t0, others, eqs, totals, u0, t1, out, n1, rest, u, n2, j > 0, c, exact, roomy, used, all);
          if shaped { JoinableAt(t0, eqs, t1, n1); }
          var e := MergePair(n1, n2, c);
          MergeTwo(t0, others, eqs, totals, u0, t1, out, n1, rest, u, n2, j > 0, c, exact, roomy, used, all, table, e);
          out := out + {e};
          uniqs := uniqs[..|uniqs| - 1];
        } else {
          MergeOne(t0, others, eqs, totals, u0, table, out, n1, rest, uniqs, j > 0, c, exact, roomy, used, all);
          out := out + {n1};
        }
        used := used + Tree(t0, n1);
        j := j + 1;
      }
      assert totals[j..] == [];
      MergeDone(t0, others, eqs, totals, u0, table, out, uniqs, j > 0, c, exact, roomy, used, all);
      out := out + Elements(uniqs);
    }

    // =X and =Y,Y over one sum become =X,Y.
    method MergePair(n1: nat, n2: nat, c: nat) returns (e: nat)
      requires Valid() && Mergeable(table, n1, c) && Mergeable(table, n2, c)
      modifies this
      ensures Valid() && Grown(old(table), table) && e < |table|
      ensures table[e] == Node(Eq, table[n1].op0, table[n2].op1, [c])
      ensures Shaped(old(table)) && Joinable(old(table), n1) && table[n1].op1 == ALL_ONES && table[n2].op1 != ALL_ONES ==> Shaped(table)
    {
      hide Shaped, Joinable, OneTerm;
      assert c in table[n1].children;
      if Shaped(table) && Joinable(table, n1) && table[n1].op1 == ALL_ONES && table[n2].op1 != ALL_ONES { PairShaped(table, n1, n2, c); }
      e := GetNode(Node(Eq, table[n1].op0, table[n2].op1, [c]));
    }

    // Separates =X from =Y,Y, keeping their order.
    method Split(c: nat, eqs: seq<nat>) returns (totals: seq<nat>, uniqs: seq<nat>)
      requires Valid() && AllMergeable(table, eqs, c) && In(table, eqs)
      ensures AllMergeable(table, totals, c) && AllMergeable(table, uniqs, c) && In(table, totals) && In(table, uniqs)
      ensures (forall i :: i in totals ==> table[i].op1 == ALL_ONES) && forall i :: i in uniqs ==> table[i].op1 != ALL_ONES
      ensures forall i :: i in eqs <==> i in totals || i in uniqs
      ensures Trees(table, totals) + Trees(table, uniqs) == Trees(table, eqs)
    {
      hide Val, OneTerm, Trees;
      totals, uniqs := [], [];
      NoTrees(table);
      for j := 0 to |eqs|
        invariant forall i :: i in totals ==> i < |table| && table[i].op1 == ALL_ONES
        invariant forall i :: i in uniqs ==> i < |table| && table[i].op1 != ALL_ONES
        invariant forall i :: i in eqs[..j] <==> i in totals || i in uniqs
        invariant forall i :: i in totals || i in uniqs ==> i in eqs
        invariant In(table, totals) && In(table, uniqs) && In(table, eqs[..j])
        invariant Trees(table, totals) + Trees(table, uniqs) == Trees(table, eqs[..j])
      {
        assert eqs[..j + 1] == eqs[..j] + [eqs[j]] && eqs[j] in eqs;
        TreesFewer(table, eqs[..j], eqs[j]);
        TreesFewer(table, totals, eqs[j]);
        TreesFewer(table, uniqs, eqs[j]);
        if table[eqs[j]].op1 == ALL_ONES { totals := totals + [eqs[j]]; } else { uniqs := uniqs + [eqs[j]]; }
      }
      assert eqs[..|eqs|] == eqs;
    }

    // Conjunction: flattens nested conjunctions, drops TRUE and repeated operands, stops at FALSE, and
    // merges =X with =Y,Y over one sum.
    method GetAnd(ids: seq<nat>) returns (r: nat)
      requires Valid() && ids != [] && In(table, ids)
      modifies this
      ensures Valid() && Grown(old(table), table) && r < |table|
      ensures Implied(table, r, ids)
      ensures AndGuard(old(table), ids) ==> Conjoins(table, r, ids)
      ensures AllSumFree(old(table), ids) ==> SumFree(table, r)
      ensures Joins(old(table), ids) ==> Single(table[r].kind)
      ensures Shaped(old(table)) && AllJoinable(old(table), ids) ==> Shaped(table) && Joinable(table, r)
      ensures Shaped(old(table)) && AllJoinable(old(table), ids) && AllFirm(old(table), ids) ==> Firm(table, r)
      ensures AndGuard(old(table), ids) ==> Lossless(table, r)
      ensures AndGuard(old(table), ids) ==> forall ns :: AllNumbersIn(old(table), ids, ns) ==> NumbersIn(table, r, ns)
      ensures AsDeniable(old(table), ids, table, r)
      ensures Tree(table, r) <= 1 + Trees(old(table), ids)
    {
      hide Canonical, Shaped, AllJoinable, Joinable, Joins, AndGuard, WithEqs, HasEq, NoneDropped, TermsShaped;
      hide AllFromAtoms, Firm, AllFirm, TermsFirm, NumbersIn, AllNumbersIn, Lossless, OneTerm, Gathered, ConjunctsOf;
      hide Implied, Conjoins, SumFree, AllSumFree, AllTerms, AllTrue, Single, Acyclic, Arity, SetTrue, SetAny, Truth, Elements;
      hide Deniable, AllDeniable, SetDeniable, WithinRoom, Trees, Connects, Kept, AsDeniable, SetAsDeniable;
      ghost var t0, exact := table, AndGuard(table, ids);
      ghost var shaped := Shaped(table) && AllJoinable(table, ids);
      var others, sums, bottom;
      ghost var room;
      others, sums, bottom, room := AndTerms(ids);
      if bottom.Some? {
        r := bottom.value;
        ConstantDeniable(t0, ids, table, r);
        ConstantResult(table, r);
        BottomConjoins(table, ids, r);
        return;
      }
      var out := PlaceSums(ids, others, sums, exact, room);
      ghost var t2 := table;
      if shaped { PlacedShaped(t0, ids, t2, out); }
      AllTermsKinds(t2, out);
      r := Connect(And, out);
      ConjunctionEntered(t0, ids, others, sums, exact, t2, out, table, r);
      if shaped {
        ConjunctionJoinable(t2, out, table, r);
        if TermsFirm(t2, out) { ConnectedFirm(t2, out, table, r, And); }
      }
    }

    // Places the equalities sum by sum.
    method PlaceSums(ghost ids: seq<nat>, others: set<nat>, sums: Sums, ghost exact: bool, ghost room: nat) returns (out: set<nat>)
      requires Valid() && In(table, ids) && ConjunctsOf(table, ids, [], others, sums) && Kept(table, ids, [], others, sums, room)
      requires exact ==> AndGuard(table, ids)
      modifies this
      ensures Valid() && Grown(old(table), table)
      ensures Gathered(old(table), ids, table, out, sums, {}, exact)
      ensures sums == map[] ==> out == others
      ensures WithEqs(table, others, out) && (sums != map[] ==> HasEq(table, out))
      ensures Shaped(old(table)) && AllJoinable(old(table), ids) ==> Shaped(table)
      ensures AllFromAtoms(old(table), ids, table, out) && AllTerms(table, out)
      ensures WithinRoom(table, out, Trees(old(table), ids))
    {
      hide Val, AndGuard, Canonical, Shaped, AllJoinable, Placed, ConjunctsOf, WithinRoom, Trees, OneTerm, Acyclic, Arity;
      ghost var t0, used := table, room;
      ghost var shaped := Shaped(t0) && AllJoinable(t0, ids);
      PlaceStart(t0, ids, others, sums, exact, room);
      out := others;
      var rest := sums.Keys;
      while rest != {}
        invariant Valid() && Grown(t0, table) && (shaped ==> Shaped(table))
        invariant used >= 0 && Placed(t0, ids, others, sums, rest, exact, table, out, used)
        invariant sums == map[] ==> out == others
        decreases |rest|
      {
        var c :| c in rest;
        assert c in sums by { PlacedParts(t0, ids, others, sums, rest, exact, table, out, used); }
        out, used := PlaceNext(t0, ids, others, sums, rest, exact, c, sums[c], out, used);
        rest := rest - {c};
      }
      PlacedParts(t0, ids, others, sums, {}, exact, table, out, used);
      RoomEnd(t0, ids, sums, table, out, used);
    }

    // The equalities over one more sum.
    method PlaceNext(ghost t0: Table, ghost ids: seq<nat>, ghost others: set<nat>, ghost sums: Sums, ghost rest: set<nat>,
        ghost exact: bool, c: nat, eqs: seq<nat>, out: set<nat>, ghost used: nat)
      returns (out': set<nat>, ghost used': nat)
      requires Valid() && WellFormed(t0) && t0 <= table && In(t0, ids) && (exact ==> AndGuard(t0, ids))
      requires Placed(t0, ids, others, sums, rest, exact, table, out, used) && c in rest && c in sums && eqs == sums[c]
      modifies this
      ensures Valid() && Grown(old(table), table)
      ensures Placed(t0, ids, others, sums, rest - {c}, exact, table, out', used')
      ensures Shaped(t0) && AllJoinable(t0, ids) && Shaped(old(table)) ==> Shaped(table)
    {
      hide Val, Together, SetTrue, AllTrue, AndGuard, Canonical, Shaped, AllJoinable, WithEqs, HasEq, AllFromAtoms;
      hide Acyclic, Arity, OneTerm, Gathered, AllMergeable, AllTerms, AtomOf, NoLoss, AllFromEqs, RoomLeft, WithinRoom, Trees;
      ghost var t1 := table;
      GatheredAt(t0, ids, table, out, sums, rest, exact, c);
      if exact { GuardedNoLoss(t0, ids, table, eqs); }
      if Shaped(t0) && AllJoinable(t0, ids) { AtomsAllJoinable(t0, ids, table, eqs); }
      out' := Merge(c, eqs, out, used);
      used' := used + Trees(t1, eqs);
      RoomStep(t0, ids, sums, rest, t1, out, used, c, table, out');
      GatherStep(t0, ids, t1, out, sums, rest, exact, c, table, out');
      PlacedMore(t1, others, out, table, out');
      FromAtomsStep(t0, ids, t1, out, eqs, table, out');
    }

    method GetLT(i: nat, value: u32) returns (r: nat)
      requires Valid() && i < |table|
      modifies this
      ensures Valid() && Grown(old(table), table) && r < |table|
      ensures Shaped(old(table)) && (value == 0 || OrderShaped(old(table), i, value)) ==>
        Shaped(table) && Joinable(table, r) && Firm(table, r)
      ensures Shaped(old(table)) && LtOnce(old(table), i, value) ==> Single(table[r].kind)
      ensures LtCovers(table, r, i, value)
      ensures LtGuard(old(table), i, value) ==> LtMeans(table, r, i, value) && SumFree(table, r)
      ensures value != 0 && old(table)[i].kind != Add ==> table[r] == Plain(Lt, value, [i])
      ensures value == 0 ==> table[r] == Plain(False, ALL_ONES, [])
      decreases i, 0
    {
      hide Val, LtMeans, LtCovers, RangeMeans, RangeCovers, Canonical, OneTerm;
      if value == 0 {
        r := GetFalse();
        AlwaysFalse(table, r, i);
      } else if table[i].kind == Add {
        var range := Below(value).Subtract(table[i].op0);
        var c := table[i].children[0];
        assert c in table[i].children;
        r := GetRange(c, range.Min(), range.Max());
        LtThroughRange(table, r, i, value, c);
      } else {
        r := GetNode(Plain(Lt, value, [i]));
        OrderNode(table, r, i, value);
      }
    }

    method GetGT(i: nat, value: u32) returns (r: nat)
      requires Valid() && i < |table|
      modifies this
      ensures Valid() && Grown(old(table), table) && r < |table|
      ensures Shaped(old(table)) && OrderShaped(old(table), i, value) && (value == 0 ==> old(table)[i].kind != Add) ==>
        Shaped(table) && Joinable(table, r) && Firm(table, r)
      ensures Shaped(old(table)) && GtOnce(old(table), i, value) ==> Single(table[r].kind)
      ensures GtCovers(table, r, i, value)
      ensures GtGuard(old(table), i, value) ==> GtMeans(table, r, i, value)
      ensures GtGuard(old(table), i, value) && SumFree(old(table), i) ==> SumFree(table, r)
      ensures value == 0 ==> r == i && table == old(table)
      ensures value != 0 && old(table)[i].kind != Add ==> table[r] == Plain(Gt, value, [i])
      decreases i, 0
    {
      hide Val, GtMeans, GtCovers, RangeMeans, RangeCovers, Canonical, OneTerm;
      if value == 0 {
        r := i;
        AboveZero(table, i);
      } else if table[i].kind == Add {
        var range := Above(value).Subtract(table[i].op0);
        var c := table[i].children[0];
        assert c in table[i].children;
        r := GetRange(c, range.Min(), range.Max());
        GtThroughRange(table, r, i, value, c);
      } else {
        r := GetNode(Plain(Gt, value, [i]));
        OrderNode(table, r, i, value);
      }
    }

    method GetRange(i: nat, lo: u32, hi: u32) returns (r: nat)
      requires Valid() && i < |table|
      modifies this
      ensures Valid() && Grown(old(table), table) && r < |table|
      ensures RangeCovers(table, r, i, lo, hi)
      ensures RangeGuard(old(table), i, lo, hi) ==> RangeMeans(table, r, i, lo, hi) && SumFree(table, r)
      ensures Shaped(old(table)) && CountKind(old(table)[i].kind) ==> Shaped(table) && Joinable(table, r) && Firm(table, r)
      ensures Shaped(old(table)) && CountKind(old(table)[i].kind) && (lo != 0 || hi != ALL_ONES) && !(lo == 1 && hi == ALL_ONES) ==>
        Single(table[r].kind)
      decreases i, 2
    {
      hide Canonical, Shaped, Joinable, AllJoinable, Joins, AndGuard, RangeGuard, AllSumFree, OneTerm, Firm, AllFirm;
      ghost var exact := RangeGuard(table, i, lo, hi);
      var nodes := RangeBounds(i, lo, hi);
      ghost var t2 := table;
      if nodes == [] {
        r := GetTrue();
        ConstantResult(table, r);
      } else {
        if exact { SumFreeGuard(t2, nodes) by { BoundsSumFree(t2, nodes, i, lo, hi); } }
        r := GetAnd(nodes);
      }
      RangeFromBounds(t2, nodes, i, lo, hi, exact, table, r);
    }

    // The bounds of a range that are not trivial.
    method RangeBounds(i: nat, lo: u32, hi: u32) returns (nodes: seq<nat>)
      requires Valid() && i < |table|
      modifies this
      ensures Valid() && Grown(old(table), table) && In(table, nodes)
      ensures Bounds(table, nodes, i, lo, hi, RangeGuard(old(table), i, lo, hi))
      ensures Shaped(old(table)) && CountKind(old(table)[i].kind) ==> Shaped(table) && AllJoinable(table, nodes) && AllFirm(table, nodes)
      ensures CountKind(old(table)[i].kind) && (lo != 0 || hi != ALL_ONES) && !(lo == 1 && hi == ALL_ONES) ==> Joins(table, nodes)
      decreases i, 1
    {
      hide Canonical, Shaped, Joinable, AllJoinable, Joins, OrderShaped, EqShaped, GtGuard, LtGuard, LtOnce;
      hide GtOnce, Val, OneTerm, Firm, AllFirm;
      ghost var t0, exact, shaped := table, RangeGuard(table, i, lo, hi), Shaped(table) && CountKind(table[i].kind);
      if shaped { CountOrder(table, i); }
      nodes := [];
      if lo != 0 {
        var n := GetGT(i, lo - 1);
        nodes := [n];
      }
      ghost var t1 := table;
      GuardsExtend(t0, t1, i);
      assert Bounds(t1, nodes, i, lo, ALL_ONES, exact);
      assert shaped ==> Shaped(t1) && AllJoinable(t1, nodes) && AllFirm(t1, nodes) by { if shaped { BoundJoinable(t1, nodes); } }
      if hi != ALL_ONES {
        if shaped { CountOrder(table, i); }
        var n := GetLT(i, hi + 1);
        BoundsExtend(t1, nodes, i, lo, exact, table, n, hi);
        if shaped { AllJoinableStep(t1, nodes, table, n); }
        nodes := nodes + [n];
      }
      hide Bounds;
      if CountKind(t0[i].kind) && (lo != 0 || hi != ALL_ONES) && !(lo == 1 && hi == ALL_ONES) { RangeJoins(table, nodes, i, lo, hi); }
    }

    // 'Not' is not a signature operation: push it down to the compares. None stands for the assertion
    // on a count, which has no negation.
    method GetNot(i: nat) returns (r: Option<nat>)
      requires Valid() && i < |table|
      modifies this
      ensures Valid() && Grown(old(table), table)
      ensures Shaped(old(table)) && old(table)[i].kind != Add && Firm(old(table), i) ==>
        Shaped(table) && (r.Some? ==> Joinable(table, r.value) && Firm(table, r.value))
      ensures ZeroCount(old(table), i) ==> r == Some(old(table)[i].children[0])
      ensures EqualityBounds(old(table), i) ==> r.Some? && r.value < |table| && SumFree(table, r.value)
      ensures EqualityBounds(old(table), i) ==> ValueDiffers(table, r.value, old(table)[i].children[0], old(table)[i].op0)
      ensures r.Some? <==> Negatable(old(table), i)
      ensures r.Some? ==> r.value < |table|
      ensures r.Some? && NotGuard(old(table), i) ==> Negates(table, r.value, i) && SumFree(table, r.value)
      ensures Deniable(old(table), i, 2) ==> r.Some? && DeniedWithin(old(table), i, table, r.value)
      decreases i, 1
    {
      hide Canonical, OneTerm, Val, NotGuard, Negates, ValueDiffers, SumFree, EqualityBounds, ZeroCount, EqFor, EqMeans;
      ghost var t0 := table;
      var n := table[i];
      DeniableOnce(t0, i, 2);
      assert Shaped(t0) ==> ShapedNode(t0, n);
      NegatableKinds(table, i);
      hide Shaped, ShapedNode, Firm, Joinable, Negatable, DeniedWithin;
      SettledKinds(t0, i);
      hide Deniable;
      if n.kind == SubSignature {
        if Shaped(t0) { CountEqual(t0, i); }
        var e := GetEQ(i, 0);
        CountDenied(table, i, e);
        CountDeniedWithin(t0, i, table, e);
        r := Some(e);
      } else if Connective(n.kind) {
        r := NotConnective(i);
      } else if n.kind == Eq {
        var e := NotEquality(i);
        r := Some(e);
      } else if n.kind == Gt || n.kind == Lt {
        var e := NotOrder(i);
        r := Some(e);
      } else if n.kind == Not {
        assert n.children[0] in n.children;
        r := Some(n.children[0]);
        DoubleDenied(table, i);
      } else if n.kind == True {
        var f := GetFalse();
        r := Some(f);
        ConstantDenied(table, i, f);
        ConstantDeniedWithin(t0, i, table, f);
        ConstantResult(table, f);
      } else if n.kind == False {
        var t := GetTrue();
        r := Some(t);
        ConstantDenied(table, i, t);
        ConstantDeniedWithin(t0, i, table, t);
        ConstantResult(table, t);
      } else {
        r := None;
      }
    }

    method NotConnective(i: nat) returns (r: Option<nat>)
      requires Valid() && i < |table| && Connective(table[i].kind)
      modifies this
      ensures Valid() && Grown(old(table), table)
      ensures Shaped(old(table)) && Firm(old(table), i) ==>
        Shaped(table) && (r.Some? ==> Joinable(table, r.value) && Firm(table, r.value))
      ensures r.Some? <==> Negatable(old(table), i)
      ensures r.Some? ==> r.value < |table|
      ensures r.Some? && NotGuard(old(table), i) ==> Negates(table, r.value, i) && SumFree(table, r.value)
      ensures r.Some? && Deniable(old(table), i, 2) ==> DeniedWithin(old(table), i, table, r.value)
      decreases i, 0
    {
      hide Val, Negates, NegatesAll, SumFree, AllSumFree, EqGuard, LtGuard, GtGuard, Shaped, ValueOnly, Joinable;
      hide FoldedAt, NotGuard, Negatable, OneTerm, Firm, AllFirm, AllJoinable, NoOffsets, ValueDiffers, EqualityBounds;
      hide Canonical, Acyclic, Arity, ZeroCount, DeniedWithin, AllDeniedWithin, Trees, AsDeniable, Negated;
      ghost var t0, exact, again := table, NotGuard(table, i), Deniable(table, i, 2);
      if again { ConnectiveDeniable(t0, i); }
      hide Deniable;
      var cs := table[i].children;
      ConnectiveParts(table, i);
      ConnectiveGuards(table, i);
      ghost var shaped := Shaped(table) && Firm(table, i);
      assert shaped ==> NoOffsets(table, cs) && AllFirm(table, cs) by { if shaped { ConnectiveShaped(table, i); } }
      var nodes: seq<nat> := [];
      var j := 0;
      assert cs[..0] == [];
      NegatedNone(table, shaped, exact, again);
      while j < |cs|
        invariant 0 <= j <= |cs| && |nodes| == j
        invariant Valid() && Grown(t0, table) && In(table, nodes) && In(table, cs[..j])
        invariant forall c :: c in cs[..j] ==> c < |t0| && Negatable(t0, c)
        invariant Negated(t0, cs[..j], table, nodes, shaped, exact, again)
      {
        assert cs[j] in cs && cs[..j + 1] == cs[..j] + [cs[j]];
        ghost var t1 := table;
        NotGuardExtends(t0, table, cs[j]);
        NegatedParts(t0, cs[..j], table, nodes, shaped, exact, again);
        if shaped { ChildFirm(t0, cs, table, cs[j]); }
        if again { DeniableExtends(t0, t1, cs[j], 2); }
        var e := GetNot(cs[j]);
        if e.None? { return None; }
        NegatedStep(t0, cs[..j], t1, nodes, cs[j], table, e.value, shaped, exact, again);
        nodes := nodes + [e.value];
        j := j + 1;
      }
      assert cs[..j] == cs;
      NegatedParts(t0, cs, table, nodes, shaped, exact, again);
      ghost var t2 := table;
      var e := JoinNegations(i, nodes, exact);
      r := Some(e);
      if again { NegationsWithin(t0, i, t2, nodes, table, e); }
    }

    method JoinNegations(i: nat, nodes: seq<nat>, ghost exact: bool) returns (r: nat)
      requires Valid() && i < |table| && Connective(table[i].kind) && nodes != [] && In(table, nodes)
      requires In(table, table[i].children)
      requires exact ==> NegatesAll(table, nodes, table[i].children) && AllSumFree(table, nodes)
      modifies this
      ensures Valid() && Grown(old(table), table) && r < |table|
      ensures Shaped(old(table)) && AllJoinable(old(table), nodes) && AllFirm(old(table), nodes) ==>
        Shaped(table) && Joinable(table, r) && Firm(table, r)
      ensures exact ==> Negates(table, r, i) && SumFree(table, r)
      ensures AsDeniable(old(table), nodes, table, r) && Tree(table, r) <= 1 + Trees(old(table), nodes)
    {
      hide Val, Canonical, Shaped, OneTerm, Firm, AllFirm, Joinable, AllJoinable, NoOffsets, AsDeniable, Trees;
      ghost var t0 := table;
      if AllJoinable(table, nodes) { JoinableOffsets(table, nodes); }
      if table[i].kind == And {
        r := GetOr(nodes);
        OrSumFree(t0, nodes, table, r, exact);
      } else {
        if exact { SumFreeGuard(table, nodes); }
        r := GetAnd(nodes);
      }
      NegatesAllExtends(t0, nodes, t0[i].children, table, exact);
      if exact { DeMorgan(table, i, nodes, r); }
    }

    // !(a == b) is a < b or a > b
    method NotEquality(i: nat) returns (r: nat)
      requires Valid() && i < |table| && table[i].kind == Eq
      modifies this
      ensures Valid() && Grown(old(table), table) && r < |table|
      ensures Shaped(old(table)) && Firm(old(table), i) ==> Shaped(table) && Joinable(table, r) && Firm(table, r)
      ensures ZeroCount(old(table), i) ==> r == old(table)[i].children[0]
      ensures EqualityBounds(old(table), i) ==> ValueDiffers(table, r, old(table)[i].children[0], old(table)[i].op0) && SumFree(table, r)
      ensures NotGuard(old(table), i) ==> Negates(table, r, i) && SumFree(table, r)
      ensures Deniable(old(table), i, 2) ==> DeniedWithin(old(table), i, table, r)
    {
      EqualityGuards(table, i);
      SettledKinds(table, i);
      hide Deniable, DeniedWithin, AsDeniable, Trees;
      hide Val, ValueOnly, Shaped, Joinable, AllJoinable, NoOffsets, Firm, AllFirm, OneTerm, Canonical, OnlyTerm;
      hide NotGuard, LtGuard, GtGuard, SumFree, AllSumFree, Disjoins, Negates, LtMeans, GtMeans, ValueDiffers;
      ghost var t0 := table;
      var a, b := Around(i);
      ghost var t1 := table;
      r := GetOr([a, b]);
      if Deniable(t0, i, 2) { SidesDenied(t0, i, t1, a, b, table, r); }
      if ZeroCount(t0, i) { assert b in [a, b] && OnlyTerm(t1, [a, b], b) by { ZeroSides(t0, i, t1, a, b); } }
      if EqualityBounds(t0, i) { UnequalValue(t0, t1, table, i, a, b, r); }
      if NotGuard(t0, i) { EqualityNegated(t0, t1, table, i, a, b, r); }
    }

    // Below and above the value of an equality.
    method Around(i: nat) returns (a: nat, b: nat)
      requires Valid() && i < |table| && table[i].kind == Eq && table[i].children[0] in table[i].children
      modifies this
      ensures Valid() && Grown(old(table), table) && a < |table| && b < |table|
      ensures var (c, v) := (table[i].children[0], table[i].op0);
        LtGuard(old(table), c, v) && GtGuard(old(table), c, v) && SumFree(old(table), c) ==>
          LtMeans(table, a, c, v) && GtMeans(table, b, c, v) && SumFree(table, a) && SumFree(table, b)
      ensures Shaped(old(table)) && Firm(old(table), i) ==>
        Shaped(table) && AllJoinable(table, [a, b]) && NoOffsets(table, [a, b]) && AllFirm(table, [a, b])
      ensures table[i].op0 == 0 ==> table[a].kind == False && b == table[i].children[0]
      ensures Settled(old(table), i) ==> SideDenied(old(table), i, table, a) && SideDenied(old(table), i, table, b)
    {
      hide Val, Shaped, Joinable, AllJoinable, NoOffsets, Firm, AllFirm, OrderShaped, EqShaped, OneTerm, Canonical;
      hide LtGuard, GtGuard, SumFree, LtMeans, GtMeans, LtCovers, GtCovers, SideDenied, Settled;
      ghost var t0 := table;
      var n := table[i];
      var c := n.children[0];
      if Settled(t0, i) { SettledOperand(t0, i); }
      ghost var shaped := Shaped(table) && Firm(table, i);
      if shaped { CompareOperand(table, i); }
      a := GetLT(c, n.op0);
      ghost var t1 := table;
      GuardsExtend(t0, t1, c);
      SumFreeExtends(t0, t1, c);
      if shaped { CompareOperand(table, i) by { FirmExtends(t0, t1, i); } }
      b := GetGT(c, n.op0);
      if Settled(t0, i) {
        SideBelow(t0, i, t1, a, table);
        SideAbove(t0, i, table, b);
      }
      SumFreeExtends(t1, table, a);
      CompareExtends(t1, a, c, n, table);
      if shaped { FirmPair(t1, a, table, b); }
    }

    // !(a > b) is a < b or a == b, and !(a < b) is a > b or a == b
    method NotOrder(i: nat) returns (r: nat)
      requires Valid() && i < |table| && (table[i].kind == Gt || table[i].kind == Lt)
      modifies this
      ensures Valid() && Grown(old(table), table) && r < |table|
      ensures Shaped(old(table)) && Firm(old(table), i) ==> Shaped(table) && Joinable(table, r) && Firm(table, r)
      ensures NotGuard(old(table), i) ==> Negates(table, r, i) && SumFree(table, r)
      ensures DeniedWithin(old(table), i, table, r)
    {
      ghost var t0 := table;
      OrderGuards(table, i);
      hide Deniable, DeniedWithin, AsDeniable, SideDenied, Trees;
      if Shaped(table) && Firm(table, i) { CompareOperand(table, i); }
      hide Val, EqMeans, LtMeans, GtMeans, Negates, Shaped, EqGuard, Canonical, NotGuard, SumFree, Disjoins;
      hide Acyclic, ValueOnly, Arity, FoldedAt, OneTerm;
      hide Joinable, NoOffsets, AllJoinable, OrderShaped, EqShaped, EqFirm, Firm, AllFirm;
      var n := table[i];
      var c := n.children[0];
      var a, b := OtherSides(n.kind, c, n.op0, i);
      ghost var t1 := table;
      r := GetEither(a, b);
      SidesDenied(t0, i, t1, a, b, table, r);
      OrJoinable(table, r);
      OrderNegated(t0, t1, table, i, a, b, r);
    }

    // The disjunction of two different compares.
    method GetEither(a: nat, b: nat) returns (r: nat)
      requires Valid() && a < |table| && b < |table| && (table[a].kind == Lt || table[a].kind == Gt) && table[b].kind == Eq
      modifies this
      ensures Valid() && Grown(old(table), table) && r < |table| && table[r].kind == Or && r !in [a, b]
      ensures Disjoins(table, r, [a, b])
      ensures Shaped(old(table)) ==> Shaped(table)
      ensures Firm(old(table), a) && Firm(old(table), b) ==> Firm(table, r)
      ensures AsDeniable(old(table), [a, b], table, r) && Tree(table, r) <= 1 + Trees(old(table), [a, b])
    {
      hide Val, Disjoins, Canonical, Shaped, AllJoinable, NoOffsets, OneTerm, Firm, OnlyTerm, AsDeniable, Trees;
      ghost var t0 := table;
      assert [a, b][0] == a && [a, b][1] == b;
      ComparePair(table, a, b);
      r := GetOr([a, b]);
      assert forall i :: i in [a, b] ==> table[i] == t0[i];
    }

    // The strict order the other way round, and equality.
    method OtherSides(k: Kind, c: nat, v: u32, ghost i: nat) returns (a: nat, b: nat)
      requires i < |table| && table[i].children == [c]
      requires Valid() && c < |table| && (k == Gt || k == Lt) && table[c].kind != Add && v != 0
      modifies this
      ensures Valid() && Grown(old(table), table) && a < |table| && b < |table|
      ensures Shaped(old(table)) && OrderShaped(old(table), c, v) && EqShaped(old(table), c, v) && EqFirm(old(table), c) ==>
        Shaped(table) && Firm(table, a) && Firm(table, b)
      ensures (table[a].kind == Lt || table[a].kind == Gt) && table[b].kind == Eq
      ensures if k == Lt then GtMeans(table, a, c, v) else LtMeans(table, a, c, v)
      ensures EqGuard(old(table), c, v) ==> EqMeans(table, b, c, v)
      ensures SideDenied(old(table), i, table, a) && SideDenied(old(table), i, table, b)
    {
      hide Val, EqMeans, LtMeans, GtMeans, Shaped, Canonical, OneTerm, Firm, OrderShaped, EqShaped, EqFirm, EqFor, SideDenied;
      ghost var t0 := table;
      if k == Gt { a := GetLT(c, v); } else { a := GetGT(c, v); }
      ghost var t1 := table;
      if EqShaped(t0, c, v) { EqShapedExtends(t0, t1, c, v); }
      if EqFirm(t0, c) { EqFirmExtends(t0, t1, c); }
      b := GetEQ(c, v);
      OtherSidesDenied(t0, i, c, v, t1, a, table, b);
      FirmExtends(t1, table, a);
      CompareExtends(t1, a, c, Plain(k, v, [c]), table);
    }

    method GetOffset(i: nat, off: u32) returns (r: nat)
      requires Valid() && i < |table|
      modifies this
      ensures Valid() && Grown(old(table), table) && r < |table| && table[r] == Plain(Add, off, [i])
      ensures Shaped(old(table)) && (CountKind(old(table)[i].kind) || old(table)[i].kind == AddUniq) ==> Shaped(table)
      ensures forall m: Counts :: Val(table, r, m) == Plus(Val(table, i, m), off)
    {
      hide Canonical, OneTerm, Val;
      r := GetNode(Plain(Add, off, [i]));
      forall m: Counts ensures Val(table, r, m) == Plus(Val(table, i, m), off) { OffsetVal(table, r, i, off, m); }
    }

    // Enters the sum of two terms that carry no offset, its children in order.
    method EnterSum(l: nat, r: nat, kind: Kind) returns (s: nat)
      requires Valid() && l < |table| && r < |table|
      requires (kind == table[l].kind == table[r].kind == AddUniq)
            || (kind == AddSum && table[l].kind != AddUniq && table[r].kind != AddUniq)
      modifies this
      ensures Valid() && old(table) <= table && s < |table| && Downward(old(table)) && Downward(table)
      ensures In(old(table), Terms(old(table), l) + Terms(old(table), r))
      ensures table[s] == Plain(kind, ALL_ONES, Sort(old(table), Terms(old(table), l) + Terms(old(table), r)))
      ensures Collects(table, s, kind, multiset(Terms(table, l)) + multiset(Terms(table, r)))
      ensures Adds(table, s, l, r, 0)
      ensures Shaped(old(table)) && old(table)[l].kind != Add && old(table)[r].kind != Add && kind == SumKind(old(table), l)
        && PlusShape(WordShape(old(table), l), WordShape(old(table), r)).Some?
        ==> Shaped(table) && WordShape(table, s) == PlusShape(WordShape(old(table), l), WordShape(old(table), r)).value
    {
      hide Val, Canonical, Shaped, Adds, SumOf, Terms, Sort, Collects, ShapedNode, OneTerm, Enterable;
      ghost var t0 := table;
      TermsIn(table, l, r);
      SumEnterable(table, l, r, kind);
      ghost var shape := PlusShape(WordShape(table, l), WordShape(table, r));
      ghost var shaped := Shaped(table) && table[l].kind != Add && table[r].kind != Add && kind == SumKind(table, l) && shape.Some?;
      if shaped { SumNodeShaped(table, l, r, kind); }
      hide WordShape, PlusShape, SumShape, OfConditions, Downward, SumKind;
      var children := Sort(table, Terms(table, l) + Terms(table, r));
      s := GetNode(Plain(kind, ALL_ONES, children));
      SumEntered(t0, table, l, r, s, kind);
      if shaped { SumWordShape(t0, table, s); }
    }

    method GetSum(l: nat, r: nat) returns (s: Addition)
      requires Valid() && l < |table| && r < |table|
      modifies this
      ensures Valid() && old(table) <= table && Downward(old(table)) && Downward(table)
      ensures s.Entered? ==> s.node < |table| && Adds(table, s.node, l, r, Drift(old(table), l, r))
      ensures s.Entered? ==> table[s.node].kind == Add || table[s.node].kind == AddSum || table[s.node].kind == AddUniq
      ensures table[l].kind != Add && table[r].kind != Add ==> if Addable(table, l, r)
        then s.Entered? && Collects(table, s.node, SumKind(table, l), multiset(Terms(table, l)) + multiset(Terms(table, r)))
        else s == Mismatch
      ensures Shaped(old(table)) && s.Entered? && PlusShape(WordShape(old(table), l), WordShape(old(table), r)).Some? ==>
        Shaped(table) && WordShape(table, s.node) == PlusShape(WordShape(old(table), l), WordShape(old(table), r)).value
      decreases l + r
    {
      hide Val, Canonical, Shaped, Terms, Collects, OneTerm;
      assert Downward(table);
      DriftFree(table, l, r);
      if table[l].kind == table[r].kind && (table[l].kind == AddUniq || table[l].kind == AddSum) {
        var n := EnterSum(l, r, table[l].kind);
        return Entered(n);
      }
      if table[l].kind == SubSignature && table[r].kind == SubSignature {
        var n := EnterSum(l, r, AddSum);
        return Entered(n);
      }
      if table[r].kind == SubSignature {
        s := GetSumSwapped(r, l);
        if s.Entered? {
          AddsCommutes(table, s.node, r, l);
          BagsCommute(table, r, l);
          PlusCommutes(WordShape(old(table), l), WordShape(old(table), r));
        }
      } else {
        s := GetSumSwapped(l, r);
      }
    }

    // The remaining additions, a plain count moved to the left.
    method GetSumSwapped(l: nat, r: nat) returns (s: Addition)
      requires Valid() && l < |table| && r < |table| && table[r].kind != SubSignature
      requires !(table[l].kind == table[r].kind && (table[l].kind == AddUniq || table[l].kind == AddSum))
      requires table[r].kind == AddSum ==> table[l].kind != AddSum
      requires Downward(table)
      modifies this
      ensures Valid() && old(table) <= table && Downward(table)
      ensures s.Entered? ==> s.node < |table| && Adds(table, s.node, l, r, Drift(old(table), l, r))
      ensures s.Entered? ==> table[s.node].kind == Add || table[s.node].kind == AddSum
      ensures table[l].kind != Add && table[r].kind != Add ==> if table[l].kind == SubSignature && table[r].kind == AddSum
        then s.Entered? && Collects(table, s.node, AddSum, multiset(Terms(table, l)) + multiset(Terms(table, r)))
        else s == Mismatch
      ensures Shaped(old(table)) && s.Entered? && PlusShape(WordShape(old(table), l), WordShape(old(table), r)).Some? ==>
        Shaped(table) && WordShape(table, s.node) == PlusShape(WordShape(old(table), l), WordShape(old(table), r)).value
      decreases l + r, 0
    {
      hide Val, Canonical, Shaped, Terms, Collects, WordShape, PlusShape, Adds, OneTerm;
      ghost var shaped := Shaped(table) && PlusShape(WordShape(table, l), WordShape(table, r)).Some?;
      if table[l].kind == SubSignature && table[r].kind == AddSum {
        var n := EnterSum(l, r, AddSum);
        return Entered(n);
      }
      if table[r].kind == Add && (table[l].kind == SubSignature || table[l].kind == Add) {
        var off := if table[l].kind == Add then table[l].op0 else 0;
        var c := table[r].children[0];
        assert c in table[r].children;
        ghost var drift := Drift(table, l, c);
        if shaped { UnderOffset(table, l, r); }
        var inner := GetSum(l, c);
        if !inner.Entered? { return NullOperand; }
        ghost var t1 := table;
        if shaped { AmountKind(t1, inner.node); }
        var n := GetOffset(inner.node, Plus(table[r].op0, off));
        if shaped { OffsetOfAmount(table, n, inner.node, Plus(table[r].op0, off)) by { WordShapeExtends(t1, table, inner.node); } }
        AddsExtends(t1, table, inner.node, l, c, drift);
        OffsetMeaning(table, l, r, inner.node, n, drift, off);
        return Entered(n);
      }
      s := Mismatch;
    }
  }
}

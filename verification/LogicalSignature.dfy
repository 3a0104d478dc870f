// From a function over match counts to the text of its logical signature.
module LogicalSignature {
  import opened Words
  import opened LogicalNodes
  import opened LogicalProgram
  import opened CompilerRules
  import opened CompilerProof
  import opened ShapedPrograms
  import opened DeniableNodes
  import opened NodeEstimates
  import opened TakenPrograms
  import opened ShapedTables
  import opened LogicalCompiler
  import opened SignatureText
  import opened SignaturePrinter
  import opened MergedTriggers

  // Unprintable is the printer's failed assertion.
  datatype Outcome = Accepted(text: string) | Refused | Unprintable

  const MAX_GROUPS: nat := 64

  // The text says, once read back, what the function returns, for all counts the sums behind it have room
  // for; and they have where the lists in the text have.
  ghost predicate Expresses(text: string, f: Func, t: Table, root: nat) {
    && Forward(f) && Read(text).Some? && Read(text).value.1 == "" && Acyclic(t) && Arity(t) && root < |t|
    && (forall m: Counts :: Fits(Read(text).value.0, m) ==> SumsFit(t, root, m))
    && forall input: Input :: SumsFit(t, root, input.counts) ==>
         (Holds(Read(text).value.0, input.counts) <==> Execute(f, input).value != 0)
  }

  // Some part of the expression has no printed form.
  ghost predicate HasUnprinted(t: Table, root: nat) {
    Acyclic(t) && root < |t| && exists j :: 0 <= j < |t| && Reaches(t, root, j) && Unprinted(t[j])
  }

  // The groups of a text: its opening parentheses but for one to each equality sign.
  ghost predicate FewGroups(text: string) { Chars(text, '(') <= Chars(text, '=') + MAX_GROUPS }

  // The expression is neither TRUE nor FALSE, has a printed form, and its text no more groups than allowed.
  ghost predicate Acceptable(t: Table, root: nat)
    requires WellFormed(t) && root < |t|
  {
    !Constant(t[root].kind) && Printable(t, root) && FewGroups(Print(Merged(t, root)))
  }

  // The function returns true of some input and false of another.
  ghost predicate Varies(f: Func)
    requires Forward(f)
  {
    exists a: Input, b: Input :: Execute(f, a).value != 0 && Execute(f, b).value == 0
  }

  // exact: every constructor was called where it is exact, and the result prints as it is meant. It is
  // so for every function whose values have a shape. The expression is entry root of table t.
  method CompileLogicalSignature(f: Func) returns (r: Outcome, groups: nat, ghost exact: bool, ghost t: Table,
      ghost root: nat)
    requires Closed(f) && f != []
    ensures r.Accepted? ==> groups <= MAX_GROUPS && WellFormed(t) && root < |t| && !HasUnprinted(t, root)
    ensures r.Accepted? ==> Printable(t, root) && r.text == Print(Merged(t, root))
    ensures r.Accepted? && Supported(f) && exact ==> Expresses(r.text, f, t, root)
    ensures r.Accepted? && ShapedFunc(f) ==> exact
    ensures Supported(f) && CountFunc(f) ==> !r.Unprintable? && (r.Accepted? ==> exact)
    ensures r.Accepted? && AddsNothing(f) ==> forall m: Counts :: SumsFit(t, root, m)
    ensures r.Unprintable? ==> HasUnprinted(t, root) && !ShapedFunc(f)
    ensures r.Accepted? ==> FewGroups(r.text)
    ensures TakenFunc(f) ==> WellFormed(t) && root < |t| && (r.Accepted? <==> Acceptable(t, root))
    ensures TakenFunc(f) ==> (r.Unprintable? <==> !Constant(t[root].kind) && !Printable(t, root))
    ensures TakenFunc(f) && Supported(f) && ShapedFunc(f) ==> Compiles(f, t, root)
    ensures TakenWithin(f, MAX_GROUPS) && Supported(f) && ShapedFunc(f) && Varies(f) ==> r.Accepted?
  {
    hide ShapedFunc, FuncShaped, Supported, CountFunc, AddsNothing, Val, Canonical, Shaped, Joinable, Expresses;
    hide Merged, Print, Groups, Chars, TakenFunc, TakenBy, TakenWithin, RoomBefore, Varies, Compiles, Printable;
    hide Legible, Reaches, Unprinted, Acyclic, Arity;
    groups, exact, t, root := 0, false, [], 0;
    ghost var shapes: Shapes := map[];
    ghost var shaped := ShapedFunc(f);
    if Supported(f) && CountFunc(f) { CountShaped(f); }
    if shaped { shapes := ShapesFit(f); }
    ghost var ests := BestEstimates(f);
    assert TakenWithin(f, MAX_GROUPS) && Supported(f) && ShapedFunc(f) ==> TakenBy(f, ests);
    var compiler := new Compiler(shapes, ests);
    EmptyShaped();
    var st, node := compiler.Compile(f);
    if st != Done { return Refused, groups, exact, t, root; }
    var table := compiler.store.table;
    t, root := table, node;
    if Supported(f) && shaped {
      FragmentOf(f, 0);
      if Varies(f) { VariesAtRoot(f, table, node); }
    }
    if table[node].kind == True || table[node].kind == False { return Refused, groups, exact, t, root; }
    if shaped { RootShaped(table, node); }
    PrintableExact(table, node);
    if !Printable(table, node) { return Unprintable, groups, exact, t, root; }
    var text;
    text, groups := Node2String(table, node, 0);
    GroupsWithin(table, node);
    if groups > MAX_GROUPS { return Refused, groups, exact, t, root; }
    r, exact := Accepted(text), compiler.guarded && Legible(table, node);
    if AddsNothing(f) {
      assert OneTerm([]);
      forall m: Counts ensures SumsFit(table, node, m) { OneTermFits(table, node, m); }
    }
    if Supported(f) && exact { TextExpresses(f, table, node, text); }
  }

  // The trigger that asks for x matches of y different signatures, or for z of the check: where the two
  // numbers may be merged, what is printed asks for just that.
  method CompileTrigger(x: u32, y: u32, z: u32) returns (r: Outcome, ghost t: Table, ghost root: nat)
    ensures Exactly(x, y) ==> r.Accepted?
    ensures r.Accepted? && Exactly(x, y) ==> Acyclic(t) && Arity(t) && root < |t| && Read(r.text).Some?
    ensures r.Accepted? && Exactly(x, y) ==> forall m: Counts ::
      SumsFit(t, root, m) ==> (Holds(Read(r.text).value.0, m) <==> Asks(m, x, y, z))
  {
    hide Supported, ShapedFunc, CheckedTrigger, Execute, Holds, Read, SumsFit, Asks, HasUnprinted, Printable, Print, Merged;
    hide CountFunc, AddsNothing, Canonical, Closed, TakenFunc, TakenWithin, Varies, Acceptable, FewGroups, Compiles;
    var f := CheckedTrigger(x, y, z);
    assert Closed(f) && f != [] by { CheckedTriggerRun(x, y, z, Input([], _ => 0)); ForwardCloses(f); }
    TriggerShaped(x, y, z);
    TriggerSupported(x, y, z);
    TriggerTaken(x, y, z, MAX_GROUPS);
    TriggerVaries(x, y, z);
    var groups;
    ghost var exact;
    r, groups, exact, t, root := CompileLogicalSignature(f);
    if r.Accepted? && Exactly(x, y) {
      forall m: Counts | SumsFit(t, root, m) ensures Holds(Read(r.text).value.0, m) <==> Asks(m, x, y, z) {
        var input := Input(m, _ => 0);
        CheckedTriggerRun(x, y, z, input);
        assert input.counts == m;
      }
    }
  }

  // Estimates under which the function is taken, with the smallest room where that matters.
  lemma {:induction false} BestEstimates(f: Func) returns (ests: Estimates)
    ensures TakenFunc(f) ==> TakenBy(f, ests)
    ensures TakenWithin(f, MAX_GROUPS) ==>
      TakenBy(f, ests) && RoomBefore(f, ests, |f|).Some? && RoomBefore(f, ests, |f|).value + 3 <= MAX_GROUPS
  {
    hide TakenBy, RoomBefore;
    ests := map[];
    if TakenWithin(f, MAX_GROUPS) {
      ests :| TakenBy(f, ests) && RoomBefore(f, ests, |f|).Some? && RoomBefore(f, ests, |f|).value + 3 <= MAX_GROUPS;
    } else if TakenFunc(f) {
      ests :| TakenBy(f, ests);
    }
  }

  lemma {:induction false} VariesAtRoot(f: Func, t: Table, root: nat)
    requires Forward(f) && Varies(f) && Acyclic(t) && Arity(t) && root < |t| && Compiles(f, t, root)
    ensures !Constant(t[root].kind)
  {
    hide Execute;
    var a: Input, b: Input :| Execute(f, a).value != 0 && Execute(f, b).value == 0;
    assert Truth(t, root, a.counts) && !Truth(t, root, b.counts);
  }

  lemma {:induction false} TriggerVaries(x: u32, y: u32, z: u32)
    ensures Forward(CheckedTrigger(x, y, z)) && Varies(CheckedTrigger(x, y, z))
  {
    var other: u32 := if z == 0 then 1 else 0;
    var first: u32 := if x == 0 && y == 0 then 1 else 0;
    var a, b := Input([0, 0, z], _ => 0), Input([first, 0, other], _ => 0);
    assert Asks(a.counts, x, y, z) && !Asks(b.counts, x, y, z);
    hide Execute, Asks, CheckedTrigger;
    CheckedTriggerRun(x, y, z, a);
    CheckedTriggerRun(x, y, z, b);
  }

  // The text has no more groups than the expression has entries, written out.
  lemma {:induction false} GroupsWithin(t: Table, i: nat)
    requires WellFormed(t) && i < |t| && Printable(t, i)
    ensures Groups(Merged(t, i)) <= Tree(t, i)
    decreases i, 1
  {
    TreeOf(t, i);
    var n := t[i];
    if n.kind == SubSignature {
    } else if Connective(n.kind) || (Additive(n.kind) && |n.children| != 1) {
      PartsWithin(t, i, |n.children|);
    } else {
      var c := n.children[0];
      assert c in n.children && n.children == [c];
      GroupsWithin(t, c);
      TreesOne(t, c);
    }
  }

  lemma {:induction false} PartsWithin(t: Table, i: nat, k: nat)
    requires WellFormed(t) && i < |t| && Printable(t, i) && t[i].kind != SubSignature && k <= |t[i].children|
    ensures In(t, t[i].children[..k]) && In(t, t[i].children)
    ensures GroupsOf(MergedAll(t, t[i].children, i)[..k]) <= Trees(t, t[i].children[..k])
    ensures t[i].children[..|t[i].children|] == t[i].children
    ensures MergedAll(t, t[i].children, i)[..|t[i].children|] == MergedAll(t, t[i].children, i)
    decreases i, 0, k
  {
    hide Merged, Groups, Trees;
    var cs, ps := t[i].children, MergedAll(t, t[i].children, i);
    if k == 0 {
      NoTrees(t);
      assert cs[..0] == [];
    } else {
      assert cs[..k] == cs[..k - 1] + [cs[k - 1]] && ps[..k] == ps[..k - 1] + [ps[k - 1]] && cs[k - 1] in cs;
      PartsWithin(t, i, k - 1);
      GroupsWithin(t, cs[k - 1]);
      TreesFewer(t, cs[..k - 1], cs[k - 1]);
      PrintPartsSnoc(ps[..k - 1], ps[k - 1], '|');
    }
  }

  lemma {:induction false} ForwardCloses(f: Func)
    requires Forward(f)
    ensures Closed(f) && f != []
  {
  }

  lemma {:induction false} ShapesFit(f: Func) returns (shapes: Shapes)
    requires ShapedFunc(f)
    ensures FuncShaped(f, shapes)
  {
    shapes :| FuncShaped(f, shapes);
  }

  lemma {:induction false} EmptyShaped()
    ensures Shaped([])
  {
  }

  lemma {:induction false} RootShaped(t: Table, root: nat)
    requires WellFormed(t) && Shaped(t) && Joinable(t, root) && !Constant(t[root].kind)
    ensures Printable(t, root) && Legible(t, root)
  {
    ShapedPrintable(t, root);
    ShapedLegible(t, root);
  }

  lemma {:induction false} TextExpresses(f: Func, t: Table, root: nat, text: string)
    requires WellFormed(t) && root < |t| && Printable(t, root) && Legible(t, root) && Compiles(f, t, root)
    requires text == Print(Merged(t, root))
    ensures Expresses(text, f, t, root)
  {
    hide Val, Execute, Holds, Fits, Merged, Read, Print, Canonical, SumsFit, Legible;
    MergedWellFormed(t, root);
    ReadPrinted(Merged(t, root), "");
    assert text + "" == text;
    forall m: Counts | Fits(Merged(t, root), m) ensures SumsFit(t, root, m) { FitsSums(t, root, m); }
    forall input: Input | SumsFit(t, root, input.counts)
      ensures Holds(Merged(t, root), input.counts) <==> Execute(f, input).value != 0
    {
      MergedMeaning(t, root, input.counts);
      assert Truth(t, root, input.counts) <==> Execute(f, input).value != 0;
    }
  }
}

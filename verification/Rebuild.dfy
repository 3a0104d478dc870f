// The rebuilder: a function is copied block by block, and an operand that has no copy yet makes the
// block that defines it be copied first.
module Rebuild {
  import opened Words
  import opened FlowProgram
  import opened Dominance
  import opened SsaRenaming

  // What stands in the copy of a block before it is visited.
  const BLANK := Return(Imm(0))

  // The value a switch gets for a successor that no case, or more than one, leads to; no selector equals it.
  const NO_VALUE := -1

  function Targeting(cases: seq<Case>, block: nat): seq<int> {
    if cases == [] then []
    else (if cases[0].block == block then [cases[0].value] else []) + Targeting(cases[1..], block)
  }

  // The value of the only case that leads to a block.
  function FindCaseDest(cases: seq<Case>, default: nat, block: nat): int {
    var found := Targeting(cases, block);
    if block == default || |found| != 1 then NO_VALUE else found[0]
  }

  // The cases of a rebuilt switch: the loop over its successors ends one short.
  function RebuiltCases(cases: seq<Case>, default: nat): seq<Case> {
    seq(if cases == [] then 0 else |cases| - 1,
        i requires 0 <= i < |cases| => Case(FindCaseDest(cases, default, cases[i].block), cases[i].block))
  }

  function RebuiltTerm(v: Renaming, t: Term): Term {
    if t.Switch? then Switch(OperandIn(v, t.sel), t.default, RebuiltCases(t.cases, t.default)) else TermIn(v, t)
  }

  // A block's copy before the operands of its phis are filled in.
  function OpenPhis(v: Renaming, phis: seq<Phi>): seq<Phi> {
    seq(|phis|, k requires 0 <= k < |phis| => Phi(NameIn(v, phis[k].x), []))
  }

  function Drafted(v: Renaming, b: Block): Block { Block(OpenPhis(v, b.phis), BodyIn(v, b.body), RebuiltTerm(v, b.term)) }

  function Rebuilt(v: Renaming, p: Program): Program {
    seq(|p|, b requires 0 <= b < |p| => Block(PhisIn(v, p[b].phis), BodyIn(v, p[b].body), RebuiltTerm(v, p[b].term)))
  }

  // An instruction with a new name and new operands.
  function Copy(i: Inst, x: nat, os: seq<Operand>): Inst
    requires |os| == |Uses(i)|
  {
    match i
    case Op(_, code, _) => Op(x, code, os)
    case Load(_, slot) => Load(x, slot)
    case Store(slot, _) => Store(slot, os[0])
    case Cast(_, from, to, _) => Cast(x, from, to, os[0])
  }

  // ---- the invariant ----

  ghost predicate CoversBody(v: Renaming, body: seq<Inst>) {
    && BodyNames(body) <= v.Keys
    && forall i, o :: i in body && o in Uses(i) ==> Covers(v, o)
  }

  // The copy of b is finished but for the operands of its phis.
  ghost predicate Done(v: Renaming, b: Block, copy: Block) {
    && PhiNames(b.phis) <= v.Keys && CoversBody(v, b.body) && Covers(v, TermUse(b.term))
    && copy == Drafted(v, b)
  }

  // The phis and the first k instructions of b have been copied.
  ghost predicate Upto(v: Renaming, b: Block, k: nat, copy: Block)
    requires k <= |b.body|
  {
    && PhiNames(b.phis) <= v.Keys && CoversBody(v, b.body[..k])
    && (forall j :: k <= j < |b.body| && !b.body[j].Store? ==> b.body[j].x !in v)
    && copy == Block(OpenPhis(v, b.phis), BodyIn(v, b.body[..k]), BLANK)
  }

  // Everything that has a copy is an argument or stands in a visited block.
  ghost predicate Placed(p: Program, args: seq<nat>, v: Renaming, visited: set<nat>) {
    forall x :: x in v ==> x in args || exists d :: d in visited && d < |p| && x in Names(p[d])
  }

  ghost predicate Inv(p: Program, args: seq<nat>, v: Renaming, visited: set<nat>, open: set<nat>, blocks: Program, next: nat) {
    && |blocks| == |p| && open <= visited && (forall b :: b in visited ==> b < |p|)
    && Placed(p, args, v, visited)
    && (forall x :: x in args ==> x in v)
    && Injective(v) && (forall x :: x in v ==> v[x] < next)
    && (forall b :: b in visited - open ==> Done(v, p[b], blocks[b]))
    && forall b :: 0 <= b < |p| && b !in visited ==> blocks[b] == Block([], [], BLANK)
  }

  // What a visit may do: copy further blocks, and only name values defined in them or in the blocks of its own.
  ghost predicate Grew(p: Program, own: set<nat>, v: Renaming, visited: set<nat>, blocks: Program,
                       v': Renaming, visited': set<nat>, blocks': Program)
  {
    && |blocks| == |blocks'| == |p| && visited <= visited' && Extends(v, v')
    && (forall e :: e in visited && e < |p| && e !in own ==> blocks'[e] == blocks[e])
    && forall x :: x in v' && x !in v ==> exists d :: d in visited' - visited + own && d < |p| && x in Names(p[d])
  }

  lemma {:induction false} GrewExtends(p: Program, v: Renaming, s: set<nat>, bs: Program, w: Renaming, visited: set<nat>, blocks: Program)
    requires Grew(p, {}, v, s, bs, w, visited, blocks)
    ensures Extends(v, w)
  {
  }

  lemma {:induction false} GrewTrans(p: Program, own: set<nat>, more: set<nat>, v0: Renaming, s0: set<nat>, b0: Program,
                  v1: Renaming, s1: set<nat>, b1: Program, v2: Renaming, s2: set<nat>, b2: Program)
    requires Grew(p, own, v0, s0, b0, v1, s1, b1) && Grew(p, more, v1, s1, b1, v2, s2, b2)
    requires more <= s1 - s0 + own
    ensures Grew(p, own, v0, s0, b0, v2, s2, b2)
  {
    hide Names;
    forall x | x in v2 && x !in v0 ensures exists d :: d in s2 - s0 + own && d < |p| && x in Names(p[d]) {
      if x in v1 {
        var d :| d in s1 - s0 + own && d < |p| && x in Names(p[d]);
        assert d in s2 - s0 + own;
      } else {
        var d :| d in s2 - s1 + more && d < |p| && x in Names(p[d]);
        assert d in s2 - s0 + own;
      }
    }
  }

  // Naming a value of a block in progress.
  lemma {:induction false} NameKeeps(p: Program, args: seq<nat>, v: Renaming, visited: set<nat>, open: set<nat>, blocks: Program, next: nat,
                  b: nat, x: nat)
    requires Inv(p, args, v, visited, open, blocks, next) && b in open && b < |p| && x in Names(p[b]) && x !in v
    ensures Inv(p, args, v[x := next], visited, open, blocks, next + 1) && Extends(v, v[x := next])
  {
    hide Names, Done;
    var w := v[x := next];
    forall d | d in visited - open ensures Done(w, p[d], blocks[d]) { DoneStable(v, w, p[d], blocks[d]); }
    forall y | y in w ensures y in args || exists d :: d in visited && d < |p| && y in Names(p[d]) {
      if y == x { assert b in visited; }
    }
  }

  // Writing into the copy of a block in progress.
  lemma {:induction false} DraftKeeps(p: Program, args: seq<nat>, v: Renaming, visited: set<nat>, open: set<nat>, blocks: Program, next: nat,
                   b: nat, copy: Block)
    requires Inv(p, args, v, visited, open, blocks, next) && b in open && b < |p|
    ensures Inv(p, args, v, visited, open, blocks[b := copy], next)
  {
    hide Names, Done;
  }

  // No value of an unvisited block has a copy.
  lemma {:induction false} Unnamed(p: Program, args: seq<nat>, v: Renaming, visited: set<nat>, b: nat)
    requires DefinedOnce(p, args) && Placed(p, args, v, visited) && b < |p| && b !in visited
    ensures forall x :: x in Names(p[b]) ==> x !in v
  {
    hide Names;
  }

  lemma {:induction false} UsesUsable(p: Program, args: seq<nat>, b: nat, k: nat, v: Renaming, copy: Block, o: Operand)
    requires b < |p| && k <= |p[b].body| && Available(p, args, b, k, o) && Upto(v, p[b], k, copy)
    requires forall x :: x in args ==> x in v
    ensures Usable(p, b, v, o)
  {
    hide FromAbove;
  }

  // The operand has a copy, or its definition stands in a strict dominator.
  ghost predicate Usable(p: Program, b: nat, v: Renaming, o: Operand) { Covers(v, o) || FromAbove(p, b, o.x) }

  // ---- stability of what is copied when more names get copies ----

  lemma {:induction false} OperandsSnoc(v: Renaming, os: seq<Operand>, k: nat)
    requires k < |os|
    ensures os[..k + 1] == os[..k] + [os[k]] && OperandsIn(v, os[..k + 1]) == OperandsIn(v, os[..k]) + [OperandIn(v, os[k])]
  {
  }

  lemma {:induction false} OperandsStable(v: Renaming, w: Renaming, os: seq<Operand>)
    requires Extends(v, w) && forall o :: o in os ==> Covers(v, o)
    ensures OperandsIn(v, os) == OperandsIn(w, os)
  {
    forall k | 0 <= k < |os| ensures OperandsIn(v, os)[k] == OperandsIn(w, os)[k] { assert os[k] in os; }
  }

  lemma {:induction false} InstStable(v: Renaming, w: Renaming, i: Inst)
    requires Extends(v, w) && (!i.Store? ==> i.x in v) && forall o :: o in Uses(i) ==> Covers(v, o)
    ensures InstIn(v, i) == InstIn(w, i)
  {
    match i
    case Op(x, code, args) => OperandsStable(v, w, args);
    case Load(x, slot) =>
    case Store(slot, o) => assert o in Uses(i);
    case Cast(x, from, to, o) => assert o in Uses(i);
  }

  lemma {:induction false} BodyStable(v: Renaming, w: Renaming, body: seq<Inst>)
    requires Extends(v, w) && CoversBody(v, body)
    ensures CoversBody(w, body) && BodyIn(v, body) == BodyIn(w, body)
  {
    forall k | 0 <= k < |body| ensures InstIn(v, body[k]) == InstIn(w, body[k]) {
      assert body[k] in body && (!body[k].Store? ==> body[k].x in BodyNames(body));
      InstStable(v, w, body[k]);
    }
    forall i, o | i in body && o in Uses(i) ensures Covers(w, o) { assert Covers(v, o); }
  }

  lemma {:induction false} PhisStable(v: Renaming, w: Renaming, phis: seq<Phi>)
    requires Extends(v, w) && PhiNames(phis) <= v.Keys
    ensures OpenPhis(v, phis) == OpenPhis(w, phis)
  {
    forall k | 0 <= k < |phis| ensures NameIn(v, phis[k].x) == NameIn(w, phis[k].x) { assert phis[k].x in PhiNames(phis); }
  }

  lemma {:induction false} DoneStable(v: Renaming, w: Renaming, b: Block, copy: Block)
    requires Extends(v, w) && Done(v, b, copy)
    ensures Done(w, b, copy)
  {
    BodyStable(v, w, b.body);
    PhisStable(v, w, b.phis);
  }

  lemma {:induction false} UptoStable(v: Renaming, w: Renaming, b: Block, k: nat, copy: Block)
    requires k <= |b.body| && Extends(v, w) && Upto(v, b, k, copy)
    requires forall x :: x in w && x !in v ==> x !in Names(b)
    ensures Upto(w, b, k, copy)
  {
    BodyStable(v, w, b.body[..k]);
    PhisStable(v, w, b.phis);
    forall j | k <= j < |b.body| && !b.body[j].Store? ensures b.body[j].x !in w {
      assert b.body[j] in b.body && b.body[j].x in BodyNames(b.body);
    }
  }

  // Appending the copy of instruction k.
  lemma {:induction false} UptoNext(v: Renaming, b: Block, k: nat, copy: Block, x: nat, os: seq<Operand>)
    requires BlockDefinesOnce(b) && k < |b.body| && Upto(v, b, k, copy)
    requires os == OperandsIn(v, Uses(b.body[k])) && forall o :: o in Uses(b.body[k]) ==> Covers(v, o)
    ensures var i := b.body[k];
      Upto(if i.Store? then v else v[i.x := x], b, k + 1, copy.(body := copy.body + [Copy(i, x, os)]))
  {
    var i := b.body[k];
    var w := if i.Store? then v else v[i.x := x];
    BodyStable(v, w, b.body[..k]);
    PhisStable(v, w, b.phis);
    OperandsStable(v, w, Uses(i));
    assert b.body[..k + 1] == b.body[..k] + [i];
    assert BodyIn(w, b.body[..k + 1]) == BodyIn(w, b.body[..k]) + [InstIn(w, i)];
    assert InstIn(w, i) == Copy(i, x, os) by {
      if i.Store? || i.Cast? { assert OperandsIn(w, Uses(i))[0] == OperandIn(w, i.v); }
    }
    forall j, o | j in b.body[..k + 1] && o in Uses(j) ensures Covers(w, o) {
      assert j in b.body[..k] || j == i;
    }
  }

  // ---- the rebuilder ----

  function Parent(p: Program, x: nat, b: nat): Option<nat>
    requires b <= |p|
    decreases |p| - b
  {
    if b == |p| then None else if x in Names(p[b]) then Some(b) else Parent(p, x, b + 1)
  }

  lemma {:induction false} ParentFound(p: Program, args: seq<nat>, x: nat, d: nat, b: nat)
    requires DefinedOnce(p, args) && b <= d < |p| && x in Names(p[d])
    ensures Parent(p, x, b) == Some(d)
    decreases |p| - b
  {
    if b < d { ParentFound(p, args, x, d, b + 1); }
  }

  // The block a missing operand leads to has fewer dominators than the block that needs it.
  lemma {:induction false} Definer(p: Program, args: seq<nat>, b: nat, x: nat) returns (d: nat)
    requires Ssa(p, args) && b < |p| && FromAbove(p, b, x)
    ensures d < |p| && x in Names(p[d]) && Parent(p, x, 0) == Some(d) && |Dominators(p, d)| < |Dominators(p, b)|
  {
    d :| 0 <= d < |p| && StrictlyDominates(p, d, b) && x in Names(p[d]);
    ParentFound(p, args, x, d, 0);
    StrictDominatorsShrink(p, d, b);
  }

  lemma {:induction false} NamesMapped(p: Program, args: seq<nat>, v: Renaming, visited: set<nat>, open: set<nat>, blocks: Program, next: nat,
                    d: nat, x: nat)
    requires Inv(p, args, v, visited, open, blocks, next) && d in visited && d !in open && d < |p| && x in Names(p[d])
    ensures x in v
  {
    assert Done(v, p[d], blocks[d]);
  }

  // Nested visits name nothing in a block that was already visited.
  lemma {:induction false} NewElsewhere(p: Program, args: seq<nat>, v: Renaming, seen: set<nat>, bs: Program,
                     w: Renaming, visited: set<nat>, blocks: Program, b: nat)
    requires Ssa(p, args) && Grew(p, {}, v, seen, bs, w, visited, blocks) && b < |p| && b in seen
    ensures forall x :: x in w && x !in v ==> x !in Names(p[b])
  {
    hide Names, Reachable, BlockUsesOk, BlockDefinesOnce;
  }

  // Appending the copy of instruction k to the copy of its block.
  lemma {:induction false} InstKeeps(p: Program, args: seq<nat>, v: Renaming, visited: set<nat>, open: set<nat>, blocks: Program, next: nat,
                  b: nat, k: nat, os: seq<Operand>)
    requires Inv(p, args, v, visited, open, blocks, next) && DefinedOnce(p, args) && b in open && b < |p|
    requires k < |p[b].body| && Upto(v, p[b], k, blocks[b])
    requires os == OperandsIn(v, Uses(p[b].body[k])) && forall o :: o in Uses(p[b].body[k]) ==> Covers(v, o)
    ensures var i := p[b].body[k];
      var w := if i.Store? then v else v[i.x := next];
      var copy := blocks[b].(body := blocks[b].body + [Copy(i, next, os)]);
      && Inv(p, args, w, visited, open, blocks[b := copy], next + 1)
      && Upto(w, p[b], k + 1, copy)
      && Grew(p, {b}, v, visited, blocks, w, visited, blocks[b := copy])
  {
    hide Done, CoversBody, BodyIn, OpenPhis;
    var i := p[b].body[k];
    var w := if i.Store? then v else v[i.x := next];
    UptoNext(v, p[b], k, blocks[b], next, os);
    assert !i.Store? ==> i.x in Names(p[b]) by { assert i in p[b].body; }
    if i.Store? { Skip(p, args, v, visited, open, blocks, next); } else { NameKeeps(p, args, v, visited, open, blocks, next, b, i.x); }
    DraftKeeps(p, args, w, visited, open, blocks, next + 1, b, blocks[b].(body := blocks[b].body + [Copy(i, next, os)]));
  }

  lemma {:induction false} SsaOnce(p: Program, args: seq<nat>)
    requires Ssa(p, args)
    ensures DefinedOnce(p, args)
  {
  }

  // Nothing was written to a block visited before, and no block of its own is needed.
  lemma {:induction false} GrewSame(p: Program, v: Renaming, seen: set<nat>, bs: Program, w: Renaming, visited: set<nat>, blocks: Program, b: nat)
    requires Grew(p, {}, v, seen, bs, w, visited, blocks) && b < |p| && b in seen
    ensures Extends(v, w) && |bs| == |blocks| == |p| && blocks[b] == bs[b] && Grew(p, {b}, v, seen, bs, w, visited, blocks)
  {
  }

  lemma {:induction false} Rewritten(p: Program, v: Renaming, visited: set<nat>, blocks: Program, b: nat, copy: Block)
    requires |blocks| == |p| && b < |p|
    ensures Grew(p, {b}, v, visited, blocks, v, visited, blocks[b := copy])
  {
  }

  lemma {:induction false} InvBounds(p: Program, args: seq<nat>, v: Renaming, visited: set<nat>, open: set<nat>, blocks: Program, next: nat)
    requires Inv(p, args, v, visited, open, blocks, next)
    ensures |blocks| == |p| && open <= visited && Grew(p, {}, v, visited, blocks, v, visited, blocks)
  {
  }

  // A visit that starts by marking its block writes to no block visited before.
  lemma {:induction false} GrewOpened(p: Program, v: Renaming, seen: set<nat>, bs: Program, w: Renaming, visited: set<nat>, blocks: Program, b: nat)
    requires Grew(p, {b}, v, seen + {b}, bs, w, visited, blocks) && b < |p| && b !in seen
    ensures Grew(p, {}, v, seen, bs, w, visited, blocks) && b in visited
  {
    hide Names;
    forall x | x in w && x !in v ensures exists d :: d in visited - seen + {} && d < |p| && x in Names(p[d]) {
      var d :| d in visited - (seen + {b}) + {b} && d < |p| && x in Names(p[d]);
      assert d in visited - seen + {};
    }
  }

  // Starting and ending a visit.
  lemma {:induction false} OpenKeeps(p: Program, args: seq<nat>, v: Renaming, visited: set<nat>, open: set<nat>, blocks: Program, next: nat, b: nat)
    requires Ssa(p, args) && Inv(p, args, v, visited, open, blocks, next) && b < |p| && b !in visited
    ensures Inv(p, args, v, visited + {b}, open + {b}, blocks, next)
    ensures blocks[b] == Block([], [], BLANK) && forall x :: x in Names(p[b]) ==> x !in v
  {
    hide Names, Done;
    Unnamed(p, args, v, visited, b);
    forall x | x in v ensures x in args || exists d :: d in visited + {b} && d < |p| && x in Names(p[d]) {
      if x !in args {
        var d :| d in visited && d < |p| && x in Names(p[d]);
        assert d in visited + {b};
      }
    }
  }

  lemma {:induction false} CloseKeeps(p: Program, args: seq<nat>, v: Renaming, visited: set<nat>, open: set<nat>, blocks: Program, next: nat, b: nat)
    requires Inv(p, args, v, visited, open, blocks, next) && b < |p| && Done(v, p[b], blocks[b])
    ensures Inv(p, args, v, visited, open - {b}, blocks, next)
  {
    hide Names, Done;
  }

  lemma {:induction false} Skip(p: Program, args: seq<nat>, v: Renaming, visited: set<nat>, open: set<nat>, blocks: Program, next: nat)
    requires Inv(p, args, v, visited, open, blocks, next)
    ensures Inv(p, args, v, visited, open, blocks, next + 1)
  {
    hide Done, Placed;
  }

  // What visiting the phis of a block leaves.
  lemma {:induction false} PhisVisited(p: Program, v: Renaming, w: Renaming, visited: set<nat>, bs: Program, b: nat, blocks: Program)
    requires |bs| == |p| && b < |p| && blocks == bs[b := Block(OpenPhis(w, p[b].phis), [], BLANK)]
    requires PhiNames(p[b].phis) <= w.Keys && Extends(v, w) && BlockDefinesOnce(p[b])
    requires (forall x :: x in w && x !in v ==> x in PhiNames(p[b].phis)) && forall x :: x in Names(p[b]) ==> x !in v
    ensures Upto(w, p[b], 0, blocks[b]) && Grew(p, {b}, v, visited, bs, w, visited, blocks)
  {
    assert p[b].body[..0] == [];
    forall j | 0 <= j < |p[b].body| && !p[b].body[j].Store? ensures p[b].body[j].x !in w {
      assert p[b].body[j] in p[b].body && p[b].body[j].x in BodyNames(p[b].body);
    }
  }

  class Rebuilder {
    const source: Program
    const args: seq<nat>
    // The copy of every value, of every block (at the same position), and the blocks visited so far.
    var vmap: Renaming
    var blocks: Program
    var visited: set<nat>
    // Block into which instructions are inserted, and the next unused value.
    var now: nat
    var next: nat
    // Blocks whose visit has not ended.
    ghost var open: set<nat>

    ghost predicate Valid()
      reads this
    {
      Inv(source, args, vmap, visited, open, blocks, next)
    }

    // Every visit in progress was started from a block that the current one dominates.
    ghost predicate Above(n: nat)
      reads this
    {
      forall e :: e in open ==> |Dominators(source, e)| >= n
    }

    constructor (p: Program, arguments: seq<nat>)
      requires Ssa(p, arguments)
      ensures source == p && args == arguments && Valid() && visited == {} && open == {}
    {
      source, args := p, arguments;
      blocks := seq(|p|, b => Block([], [], BLANK));
      visited, open, now := {}, {}, 0;
      vmap, next := map[], 0;
      new;
      var i := 0;
      while i < |args|
        invariant 0 <= i <= |args| && next == i && source == p && args == arguments
        invariant |blocks| == |p| && forall b :: 0 <= b < |p| ==> blocks[b] == Block([], [], BLANK)
        invariant forall x :: x in vmap <==> x in args[..i]
        invariant Injective(vmap) && forall x :: x in vmap ==> vmap[x] < next
        invariant visited == {} && open == {}
      {
        assert args[..i + 1] == args[..i] + [args[i]];
        vmap, next := vmap[args[i] := next], next + 1;
        i := i + 1;
      }
      assert args[..i] == args;
    }

    // The copy of an operand; a missing one makes its defining block be visited now.
    method MapValue(o: Operand) returns (r: Operand)
      requires Valid() && Ssa(source, args)
      requires now < |source| && now in open && Above(|Dominators(source, now)|) && Usable(source, now, vmap, o)
      modifies this
      ensures Valid() && now == old(now) && open == old(open)
      ensures Grew(source, {}, old(vmap), old(visited), old(blocks), vmap, visited, blocks)
      ensures Covers(vmap, o) && r == OperandIn(vmap, o)
      decreases |Dominators(source, now)|, 0
    {
      hide Inv, Ssa, Names, Dominators, Dominates, Reachable, Done;
      InvBounds(source, args, vmap, visited, open, blocks, next);
      if o.Imm? { return o; }
      var x := o.x;
      if x !in vmap {
        ghost var d := Definer(source, args, now, x);
        var block, here := Parent(source, x, 0).value, now;
        RunOnBasicBlock(block);
        now := here;
        NamesMapped(source, args, vmap, visited, open, blocks, next, d, x);
      }
      assert x in vmap;
      r := Use(vmap[x]);
    }

    method MapValues(os: seq<Operand>) returns (rs: seq<Operand>)
      requires Valid() && Ssa(source, args)
      requires now < |source| && now in open && Above(|Dominators(source, now)|)
      requires forall o :: o in os ==> Usable(source, now, vmap, o)
      modifies this
      ensures Valid() && now == old(now) && open == old(open)
      ensures Grew(source, {}, old(vmap), old(visited), old(blocks), vmap, visited, blocks)
      ensures (forall o :: o in os ==> Covers(vmap, o)) && rs == OperandsIn(vmap, os)
      decreases |Dominators(source, now)|, 1
    {
      hide Inv, Ssa, FromAbove, Names, Grew, Dominators, Dominates;
      InvBounds(source, args, vmap, visited, open, blocks, next);
      rs := [];
      var k := 0;
      assert OperandsIn(vmap, os[..0]) == [];
      while k < |os|
        invariant 0 <= k <= |os| && Valid() && now == old(now) && open == old(open)
        invariant Grew(source, {}, old(vmap), old(visited), old(blocks), vmap, visited, blocks)
        invariant Extends(old(vmap), vmap) && forall o :: o in os[..k] ==> Covers(vmap, o)
        invariant rs == OperandsIn(vmap, os[..k])
      {
        ghost var v, s, bs := vmap, visited, blocks;
        assert os[k] in os;
        var r := MapValue(os[k]);
        GrewTrans(source, {}, {}, old(vmap), old(visited), old(blocks), v, s, bs, vmap, visited, blocks);
        GrewExtends(source, v, s, bs, vmap, visited, blocks);
        OperandsStable(v, vmap, os[..k]);
        OperandsSnoc(vmap, os, k);
        rs := rs + [r];
        k := k + 1;
      }
      assert os[..k] == os;
    }

    method VisitInst(b: nat, k: nat)
      requires Valid() && Ssa(source, args)
      requires now == b < |source| && b in open && Above(|Dominators(source, b)|)
      requires k < |source[b].body| && Upto(vmap, source[b], k, blocks[b])
      modifies this
      ensures Valid() && now == old(now) && open == old(open)
      ensures Grew(source, {b}, old(vmap), old(visited), old(blocks), vmap, visited, blocks)
      ensures Upto(vmap, source[b], k + 1, blocks[b])
      decreases |Dominators(source, b)|, 2
    {
      hide Inv, Ssa, Names, Upto, FromAbove, Reachable, BlockDefinesOnce, Grew, Done;
      InvBounds(source, args, vmap, visited, open, blocks, next);
      var i := source[b].body[k];
      InstUsable(b, k);
      var os := MapValues(Uses(i));
      NewElsewhere(source, args, old(vmap), old(visited), old(blocks), vmap, visited, blocks, b);
      GrewSame(source, old(vmap), old(visited), old(blocks), vmap, visited, blocks, b);
      UptoStable(old(vmap), vmap, source[b], k, blocks[b]);
      SsaOnce(source, args);
      InstKeeps(source, args, vmap, visited, open, blocks, next, b, k, os);
      ghost var v, s, bs := vmap, visited, blocks;
      var copy := Copy(i, next, os);
      if !i.Store? {
        vmap := vmap[i.x := next];
      }
      next := next + 1;
      blocks := blocks[b := blocks[b].(body := blocks[b].body + [copy])];
      GrewTrans(source, {b}, {b}, old(vmap), old(visited), old(blocks), v, s, bs, vmap, visited, blocks);
    }

    lemma {:induction false} InstUsable(b: nat, k: nat)
      requires Valid() && Ssa(source, args) && b < |source|
      requires k < |source[b].body| && Upto(vmap, source[b], k, blocks[b])
      ensures forall o :: o in Uses(source[b].body[k]) ==> Usable(source, b, vmap, o)
    {
      forall o | o in Uses(source[b].body[k]) ensures Usable(source, b, vmap, o) {
        assert BlockUsesOk(source, args, b);
        UsesUsable(source, args, b, k, vmap, blocks[b], o);
      }
    }

    // The phis of a block get copies without operands.
    method VisitPHIs(b: nat)
      requires Valid() && Ssa(source, args) && b < |source| && b in open
      requires blocks[b] == Block([], [], BLANK) && forall x :: x in Names(source[b]) ==> x !in vmap
      modifies this
      ensures Valid() && now == old(now) && open == old(open) && visited == old(visited)
      ensures Grew(source, {b}, old(vmap), old(visited), old(blocks), vmap, visited, blocks)
      ensures Upto(vmap, source[b], 0, blocks[b])
    {
      hide Inv, Dominators, Done, BodyNames, BlockUsesOk, Upto, Grew, Reachable;
      var phis := source[b].phis;
      var k := 0;
      InvBounds(source, args, vmap, visited, open, blocks, next);
      assert OpenPhis(vmap, phis[..0]) == [];
      while k < |phis|
        invariant 0 <= k <= |phis| && Valid() && now == old(now) && open == old(open) && visited == old(visited)
        invariant blocks == old(blocks)[b := Block(OpenPhis(vmap, phis[..k]), [], BLANK)]
        invariant PhiNames(phis[..k]) <= vmap.Keys && Extends(old(vmap), vmap)
        invariant forall x :: x in vmap && x !in old(vmap) ==> x in PhiNames(phis[..k])
      {
        var x, v := phis[k].x, vmap;
        assert phis[k] in phis && x in Names(source[b]);
        assert BlockDefinesOnce(source[b]);
        assert x !in vmap;
        NameKeeps(source, args, vmap, visited, open, blocks, next, b, x);
        vmap, next := vmap[x := next], next + 1;
        PhisStable(v, vmap, phis[..k]);
        assert phis[..k + 1] == phis[..k] + [phis[k]];
        assert OpenPhis(vmap, phis[..k + 1]) == OpenPhis(v, phis[..k]) + [Phi(vmap[x], [])];
        var copy := blocks[b].(phis := blocks[b].phis + [Phi(vmap[x], [])]);
        DraftKeeps(source, args, vmap, visited, open, blocks, next, b, copy);
        blocks := blocks[b := copy];
        k := k + 1;
      }
      assert phis[..k] == phis;
      PhisVisited(source, old(vmap), vmap, visited, old(blocks), b, blocks);
    }

    method RunOnBasicBlock(b: nat)
      requires Valid() && Ssa(source, args) && b < |source|
      requires forall e :: e in open ==> |Dominators(source, e)| > |Dominators(source, b)|
      modifies this
      ensures Valid() && open == old(open) && b in visited
      ensures Grew(source, {}, old(vmap), old(visited), old(blocks), vmap, visited, blocks)
      decreases |Dominators(source, b)|, 3
    {
      hide Inv, Ssa, Names, Dominators, Upto, Grew, Done;
      InvBounds(source, args, vmap, visited, open, blocks, next);
      if b in visited { return; }
      OpenKeeps(source, args, vmap, visited, open, blocks, next, b);
      now := b;
      visited, open := visited + {b}, open + {b};
      ghost var v, s, bs := vmap, visited, blocks;
      VisitPHIs(b);
      InvBounds(source, args, vmap, visited, open, blocks, next);
      var k := 0;
      while k < |source[b].body|
        invariant 0 <= k <= |source[b].body| && Valid() && now == b && open == old(open) + {b} && |blocks| == |source|
        invariant Grew(source, {b}, v, s, bs, vmap, visited, blocks)
        invariant Upto(vmap, source[b], k, blocks[b])
      {
        ghost var v1, s1, bs1 := vmap, visited, blocks;
        VisitInst(b, k);
        InvBounds(source, args, vmap, visited, open, blocks, next);
        GrewTrans(source, {b}, {b}, v, s, bs, v1, s1, bs1, vmap, visited, blocks);
        k := k + 1;
      }
      ghost var v1, s1, bs1 := vmap, visited, blocks;
      VisitTerm(b);
      InvBounds(source, args, vmap, visited, open, blocks, next);
      GrewTrans(source, {b}, {b}, v, s, bs, v1, s1, bs1, vmap, visited, blocks);
      CloseKeeps(source, args, vmap, visited, open, blocks, next, b);
      open := open - {b};
      GrewOpened(source, v, old(visited), bs, vmap, visited, blocks, b);
    }

    // The terminator closes the copy.
    method VisitTerm(b: nat)
      requires Valid() && Ssa(source, args)
      requires now == b < |source| && b in open && Above(|Dominators(source, b)|)
      requires Upto(vmap, source[b], |source[b].body|, blocks[b])
      modifies this
      ensures Valid() && now == old(now) && open == old(open)
      ensures Grew(source, {b}, old(vmap), old(visited), old(blocks), vmap, visited, blocks)
      ensures Done(vmap, source[b], blocks[b])
      decreases |Dominators(source, b)|, 2
    {
      hide Inv, Ssa, Names, FromAbove, Reachable, BlockDefinesOnce, Grew, CoversBody;
      InvBounds(source, args, vmap, visited, open, blocks, next);
      var t, n := source[b].term, |source[b].body|;
      TermUsable(b);
      var o := MapValue(TermUse(t));
      NewElsewhere(source, args, old(vmap), old(visited), old(blocks), vmap, visited, blocks, b);
      GrewSame(source, old(vmap), old(visited), old(blocks), vmap, visited, blocks, b);
      UptoStable(old(vmap), vmap, source[b], n, blocks[b]);
      assert source[b].body[..n] == source[b].body;
      var end := match t
        case Goto(_, succs) => Goto(o, succs)
        case Switch(_, default, cases) => Switch(o, default, RebuiltCases(cases, default))
        case Return(_) => Return(o);
      DraftKeeps(source, args, vmap, visited, open, blocks, next, b, blocks[b].(term := end));
      ghost var bs := blocks;
      blocks := blocks[b := blocks[b].(term := end)];
      Rewritten(source, vmap, visited, bs, b, blocks[b]);
      GrewTrans(source, {b}, {b}, old(vmap), old(visited), old(blocks), vmap, visited, bs, vmap, visited, blocks);
    }

    lemma {:induction false} TermUsable(b: nat)
      requires Valid() && Ssa(source, args) && b < |source| && Upto(vmap, source[b], |source[b].body|, blocks[b])
      ensures Usable(source, b, vmap, TermUse(source[b].term))
    {
      assert BlockUsesOk(source, args, b);
      UsesUsable(source, args, b, |source[b].body|, vmap, blocks[b], TermUse(source[b].term));
    }

    // The copy of a phi's operand; everything has been visited, so none is missing.
    method MapPHIValue(o: Operand) returns (r: Operand)
      requires Covers(vmap, o)
      ensures r == OperandIn(vmap, o)
    {
      r := if o.Imm? then o else Use(vmap[o.x]);
    }

    // Fills in the operands of phi j of block b.
    method MapPHI(b: nat, j: nat)
      requires b < |source| == |blocks| && j < |source[b].phis| == |blocks[b].phis|
      requires source[b].phis[j].ins != [] && source[b].phis[j].x in vmap
      requires forall k :: 0 <= k < |source[b].phis[j].ins| ==> Covers(vmap, source[b].phis[j].ins[k].v)
      requires blocks[b].phis[j] == Phi(vmap[source[b].phis[j].x], [])
      modifies this`blocks
      ensures blocks == old(blocks)[b := old(blocks)[b].(phis := old(blocks)[b].phis[j :=
        Phi(vmap[source[b].phis[j].x], InsIn(vmap, source[b].phis[j].ins))])]
    {
      var phi, phis := source[b].phis[j], blocks[b].phis;
      var k := 0;
      assert InsIn(vmap, phi.ins[..0]) == [] && phis[j := phis[j]] == phis;
      assert blocks == blocks[b := blocks[b].(phis := phis)];
      while k < |phi.ins|
        invariant 0 <= k <= |phi.ins|
        invariant blocks == old(blocks)[b := old(blocks)[b].(phis := phis[j := Phi(vmap[phi.x], InsIn(vmap, phi.ins[..k]))])]
      {
        var o := MapPHIValue(phi.ins[k].v);
        var copy := blocks[b].phis[j];
        assert copy.x == vmap[phi.x];
        assert InsIn(vmap, phi.ins[..k + 1]) == InsIn(vmap, phi.ins[..k]) + [Incoming(o, phi.ins[k].block)];
        ghost var before := copy;
        copy := copy.(ins := copy.ins + [Incoming(o, phi.ins[k].block)]);
        assert copy == Phi(vmap[phi.x], InsIn(vmap, phi.ins[..k + 1]));
        assert phis[j := before][j := copy] == phis[j := copy];
        blocks := blocks[b := blocks[b].(phis := blocks[b].phis[j := copy])];
        k := k + 1;
      }
      assert phi.ins[..k] == phi.ins;
      assert |blocks[b].phis[j].ins| > 0;
    }

    // Phase 1: every block is visited once, in order or when its values are needed.
    method VisitAll()
      requires Valid() && Ssa(source, args) && visited == {} && open == {}
      modifies this
      ensures |blocks| == |source| && forall b :: 0 <= b < |source| ==> blocks[b] == Drafted(vmap, source[b])
      ensures Injective(vmap) && forall b :: 0 <= b < |source| ==> CoversBlock(vmap, source[b])
      ensures Placed(source, args, vmap, visited) && (forall x :: x in args ==> x in vmap) && forall d :: d in visited ==> d < |source|
    {
      var b := 0;
      while b < |source|
        invariant 0 <= b <= |source| && Valid() && open == {}
        invariant forall c :: 0 <= c < b ==> c in visited
      {
        RunOnBasicBlock(b);
        b := b + 1;
      }
      forall c | 0 <= c < |source| ensures blocks[c] == Drafted(vmap, source[c]) && CoversBlock(vmap, source[c]) {
        assert Done(vmap, source[c], blocks[c]);
        AllCovered(source, args, vmap, visited, blocks, next, c);
      }
    }

    // Phase 2 for one block.
    method MapPHIs(b: nat)
      requires b < |source| == |blocks| && blocks[b] == Drafted(vmap, source[b]) && CoversBlock(vmap, source[b])
      requires forall q :: q in source[b].phis ==> q.ins != []
      modifies this`blocks
      ensures blocks == old(blocks)[b := Rebuilt(vmap, source)[b]]
    {
      hide InsIn, OperandIn, BodyIn, RebuiltTerm, BodyNames, Covers;
      var phis := source[b].phis;
      var j := 0;
      assert blocks[b].phis == PhisIn(vmap, phis[..0]) + OpenPhis(vmap, phis);
      assert blocks == blocks[b := blocks[b].(phis := blocks[b].phis)];
      while j < |phis|
        invariant 0 <= j <= |phis|
        invariant blocks == old(blocks)[b := old(blocks)[b].(phis := PhisIn(vmap, phis)[..j] + OpenPhis(vmap, phis)[j..])]
      {
        assert phis[j] in phis && phis[j].x in PhiNames(phis);
        MapPHI(b, j);
        ReplaceAt(PhisIn(vmap, phis), OpenPhis(vmap, phis), j);
        j := j + 1;
      }
      assert PhisIn(vmap, phis)[..j] + OpenPhis(vmap, phis)[j..] == PhisIn(vmap, phis);
    }

    // Copies every block, then fills in the phis.
    method RunOnFunction()
      requires Valid() && Ssa(source, args) && visited == {} && open == {}
      modifies this
      ensures blocks == Rebuilt(vmap, source)
      ensures Injective(vmap) && forall b :: 0 <= b < |source| ==> CoversBlock(vmap, source[b])
      ensures forall x :: x in vmap ==> x in args || exists d :: 0 <= d < |source| && x in Names(source[d])
      ensures forall x :: x in args ==> x in vmap
    {
      VisitAll();
      ghost var v := vmap;
      var b := 0;
      while b < |source|
        invariant 0 <= b <= |source| == |blocks| && vmap == v
        invariant forall c :: 0 <= c < b ==> blocks[c] == Rebuilt(vmap, source)[c]
        invariant forall c :: b <= c < |source| ==> blocks[c] == Drafted(vmap, source[c])
      {
        assert BlockUsesOk(source, args, b);
        MapPHIs(b);
        b := b + 1;
      }
    }
  }

  lemma {:induction false} ReplaceAt<T>(a: seq<T>, b: seq<T>, j: nat)
    requires |a| == |b| && j < |a|
    ensures (a[..j] + b[j..])[j := a[j]] == a[..j + 1] + b[j + 1..]
  {
  }

  // Once every block has been visited, every operand has a copy, those of the phis included.
  lemma {:induction false} AllCovered(p: Program, args: seq<nat>, v: Renaming, visited: set<nat>, blocks: Program, next: nat, b: nat)
    requires Ssa(p, args) && Inv(p, args, v, visited, {}, blocks, next) && b < |p| && forall c :: 0 <= c < |p| ==> c in visited
    ensures CoversBlock(v, p[b])
  {
    assert Done(v, p[b], blocks[b]);
    forall q, k | q in p[b].phis && 0 <= k < |q.ins| ensures Covers(v, q.ins[k].v) {
      var o := q.ins[k].v;
      assert BlockUsesOk(p, args, b) && Known(p, args, o);
      if o.Use? && o.x !in args {
        var d :| 0 <= d < |p| && o.x in Names(p[d]);
        NamesMapped(p, args, v, visited, {}, blocks, next, d, o.x);
      }
    }
  }

  // ---- what the copy means ----

  // The copy is the original with its values renamed exactly when no switch has a case.
  lemma {:induction false} RebuiltRenamed(v: Renaming, p: Program)
    ensures Rebuilt(v, p) == Renamed(v, p)
       <==> forall b :: 0 <= b < |p| && p[b].term.Switch? ==> p[b].term.cases == []
  {
    if forall b :: 0 <= b < |p| && p[b].term.Switch? ==> p[b].term.cases == [] {
      forall b | 0 <= b < |p| ensures Rebuilt(v, p)[b] == Renamed(v, p)[b] {
        if p[b].term.Switch? { assert RebuiltCases(p[b].term.cases, p[b].term.default) == []; }
      }
    } else {
      var b :| 0 <= b < |p| && p[b].term.Switch? && p[b].term.cases != [];
      assert |Rebuilt(v, p)[b].term.cases| < |Renamed(v, p)[b].term.cases|;
    }
  }

  // ---- when a rebuilt switch still selects as it did ----

  // Different values, as read from a switch's unsigned constants.
  ghost predicate CasesOk(cases: seq<Case>) {
    && (forall i :: 0 <= i < |cases| ==> cases[i].value >= 0)
    && forall i, j :: 0 <= i < j < |cases| ==> cases[i].value != cases[j].value
  }

  // The last case goes where the default goes, and every other case too or to a block of its own.
  predicate Kept(cases: seq<Case>, default: nat) {
    cases != [] ==>
      && cases[|cases| - 1].block == default
      && forall i :: 0 <= i < |cases| ==> cases[i].block == default || |Targeting(cases, cases[i].block)| == 1
  }

  ghost predicate SelectsAlike(cases: seq<Case>, default: nat) {
    forall x: int :: CaseFor(RebuiltCases(cases, default), x, default) == CaseFor(cases, x, default)
  }

  lemma {:induction false} TargetingListed(cases: seq<Case>, i: nat, block: nat)
    requires i < |cases| && cases[i].block == block
    ensures cases[i].value in Targeting(cases, block)
  {
    if i > 0 { TargetingListed(cases[1..], i - 1, block); }
  }

  lemma {:induction false} OnlyDefault(cases: seq<Case>, x: int, default: nat)
    requires forall i :: 0 <= i < |cases| && cases[i].value == x ==> cases[i].block == default
    ensures CaseFor(cases, x, default) == default
  {
    if cases != [] { OnlyDefault(cases[1..], x, default); }
  }

  lemma {:induction false} CaseAt(cases: seq<Case>, i: nat, default: nat)
    requires i < |cases| && forall j :: 0 <= j < i ==> cases[j].value != cases[i].value
    ensures CaseFor(cases, cases[i].value, default) == cases[i].block
  {
    if i > 0 { CaseAt(cases[1..], i - 1, default); }
  }

  // The value of a kept case is its own or none.
  lemma {:induction false} KeptValue(cases: seq<Case>, i: nat, default: nat)
    requires i < |cases|
    ensures FindCaseDest(cases, default, cases[i].block)
         == if cases[i].block != default && |Targeting(cases, cases[i].block)| == 1 then cases[i].value else NO_VALUE
  {
    TargetingListed(cases, i, cases[i].block);
  }

  // A selector equal to the last case leads to that case's block in the original and to the default in
  // the copy; so does one equal to a case that shares its block with another.
  lemma {:induction false} CaseLost(cases: seq<Case>, i: nat, default: nat)
    requires CasesOk(cases) && i < |cases|
    requires i == |cases| - 1 || cases[i].block == default || |Targeting(cases, cases[i].block)| != 1
    ensures CaseFor(cases, cases[i].value, default) == cases[i].block
    ensures CaseFor(RebuiltCases(cases, default), cases[i].value, default) == default
  {
    var x, kept := cases[i].value, RebuiltCases(cases, default);
    CaseAt(cases, i, default);
    forall k | 0 <= k < |kept| ensures kept[k].value != x { KeptValue(cases, k, default); }
    OnlyDefault(kept, x, default);
  }

  lemma {:induction false} KeptSelects(cases: seq<Case>, default: nat, x: int)
    requires CasesOk(cases) && Kept(cases, default)
    ensures CaseFor(RebuiltCases(cases, default), x, default) == CaseFor(cases, x, default)
  {
    var kept := RebuiltCases(cases, default);
    if i :| 0 <= i < |cases| && cases[i].value == x {
      CaseAt(cases, i, default);
      if cases[i].block == default {
        CaseLost(cases, i, default);
      } else {
        assert i < |kept|;
        forall k | 0 <= k <= i ensures kept[k].value == x <==> k == i { KeptValue(cases, k, default); }
        CaseAt(kept, i, default);
      }
    } else {
      OnlyDefault(cases, x, default);
      forall k | 0 <= k < |kept| && kept[k].value == x ensures kept[k].block == default { KeptValue(cases, k, default); }
      OnlyDefault(kept, x, default);
    }
  }

  // The copy of a switch selects as the original exactly when no case is lost that goes anywhere else.
  lemma {:induction false} SwitchKept(cases: seq<Case>, default: nat)
    requires CasesOk(cases)
    ensures SelectsAlike(cases, default) <==> Kept(cases, default)
  {
    if Kept(cases, default) {
      forall x: int ensures CaseFor(RebuiltCases(cases, default), x, default) == CaseFor(cases, x, default) {
        KeptSelects(cases, default, x);
      }
    } else {
      var i := |cases| - 1;
      if cases[i].block == default {
        i :| 0 <= i < |cases| && cases[i].block != default && |Targeting(cases, cases[i].block)| != 1;
      }
      CaseLost(cases, i, default);
      var x: int := cases[i].value;
      assert CaseFor(RebuiltCases(cases, default), x, default) != CaseFor(cases, x, default);
    }
  }

  ghost predicate SwitchesOk(p: Program) {
    forall b :: 0 <= b < |p| && p[b].term.Switch? ==> CasesOk(p[b].term.cases)
  }

  lemma {:induction false} StepsAlike(v: Renaming, p: Program, s: State, mach: Machine)
    requires SwitchesOk(p) && forall b :: 0 <= b < |p| && p[b].term.Switch? ==> Kept(p[b].term.cases, p[b].term.default)
    ensures Step(Rebuilt(v, p), s, mach) == Step(Renamed(v, p), s, mach)
  {
    if s.At? && s.block < |p| && p[s.block].term.Switch? {
      var t := p[s.block].term;
      SwitchKept(t.cases, t.default);
    }
  }

  // If so for every switch, the copy runs like the original, however long.
  lemma {:induction false} RebuiltRunsAlike(v: Renaming, p: Program, env: Env, env': Env, world: int, n: nat, mach: Machine)
    requires Injective(v) && Agree(v, env, env') && forall b :: 0 <= b < |p| ==> CoversBlock(v, p[b])
    requires SwitchesOk(p) && forall b :: 0 <= b < |p| && p[b].term.Switch? ==> Kept(p[b].term.cases, p[b].term.default)
    ensures AgreeState(v, Run(p, Start(env, world), n, mach), Run(Rebuilt(v, p), Start(env', world), n, mach))
  {
    RenamedRunsAlike(v, p, env, env', world, n, mach);
    SameRuns(v, p, Start(env', world), n, mach);
  }

  lemma {:induction false} SameRuns(v: Renaming, p: Program, s: State, n: nat, mach: Machine)
    requires SwitchesOk(p) && forall b :: 0 <= b < |p| && p[b].term.Switch? ==> Kept(p[b].term.cases, p[b].term.default)
    ensures Run(Rebuilt(v, p), s, n, mach) == Run(Renamed(v, p), s, n, mach)
  {
    if n > 0 {
      SameRuns(v, p, s, n - 1, mach);
      StepsAlike(v, p, Run(Renamed(v, p), s, n - 1, mach), mach);
    }
  }

  // A function that switches on an argument at once runs like its copy on every argument exactly when
  // the switch is kept.
  lemma {:induction false} SwitchRuns(v: Renaming, p: Program, x: nat, mach: Machine)
    requires Injective(v) && x in v && p != [] && p[0].phis == [] && p[0].body == []
    requires p[0].term.Switch? && p[0].term.sel == Use(x) && CasesOk(p[0].term.cases)
    ensures Kept(p[0].term.cases, p[0].term.default) <==>
      forall a: int :: AgreeState(v, Run(p, Start(map[x := a], 0), 1, mach), Run(Rebuilt(v, p), Start(map[v[x] := a], 0), 1, mach))
  {
    var t := p[0].term;
    forall a: int
      ensures AgreeState(v, Run(p, Start(map[x := a], 0), 1, mach), Run(Rebuilt(v, p), Start(map[v[x] := a], 0), 1, mach))
         <==> CaseFor(RebuiltCases(t.cases, t.default), a, t.default) == CaseFor(t.cases, a, t.default)
    {
      SwitchRun(v, p, x, a, mach);
    }
    SwitchKept(t.cases, t.default);
  }

  lemma {:induction false} SwitchRun(v: Renaming, p: Program, x: nat, a: int, mach: Machine)
    requires Injective(v) && x in v && p != [] && p[0].phis == [] && p[0].body == []
    requires p[0].term.Switch? && p[0].term.sel == Use(x)
    ensures AgreeState(v, Run(p, Start(map[x := a], 0), 1, mach), Run(Rebuilt(v, p), Start(map[v[x] := a], 0), 1, mach))
       <==> CaseFor(RebuiltCases(p[0].term.cases, p[0].term.default), a, p[0].term.default) == CaseFor(p[0].term.cases, a, p[0].term.default)
  {
    var s, s' := Start(map[x := a], 0), Start(map[v[x] := a], 0);
    assert Run(p, s, 1, mach) == Step(p, Run(p, s, 0, mach), mach) == Step(p, s, mach);
    assert Run(Rebuilt(v, p), s', 1, mach) == Step(Rebuilt(v, p), Run(Rebuilt(v, p), s', 0, mach), mach) == Step(Rebuilt(v, p), s', mach);
    assert Rebuilt(v, p)[0].phis == [] && Rebuilt(v, p)[0].body == [];
    assert Step(p, s, mach) == At(CaseFor(p[0].term.cases, a, p[0].term.default), Some(0), s.mem);
    assert Step(Rebuilt(v, p), s', mach)
        == At(CaseFor(RebuiltCases(p[0].term.cases, p[0].term.default), a, p[0].term.default), Some(0), s'.mem);
  }
}

// What can be told of an instruction's node from the code alone: what it is, how often it can be negated,
// and how large it is at most.
module NodeEstimates {
  import opened Words
  import opened LogicalNodes
  import opened LogicalProgram
  import opened SumModifiers
  import opened NodeRules
  import opened NodeOrder
  import opened NodeSums
  import opened ShapedTables
  import opened DeniableNodes
  import opened CompilerRules
  import opened ShapedPrograms

  // A match count, or one compared with a constant.
  datatype Piece = Match(sig: u32) | Versus(kind: Kind, v: u32, sig: u32)

  // Anything; anything but an offset; just this piece; the sum of different match counts; the number of
  // different pieces that hold.
  datatype Makeup = Loose | Whole | Only(p: Piece) | Totals(ps: set<Piece>) | Tallies(ps: set<Piece>)

  // How often the node can be negated (two stands for ever), and its size when written out.
  datatype Estimate = Estimate(form: Makeup, times: nat, room: Option<nat>)

  const NOTHING := Estimate(Loose, 0, None)

  ghost predicate IsPiece(t: Table, n: nat, p: Piece) {
    n < |t| &&
    match p
    case Match(sig) => t[n] == Plain(SubSignature, sig, [])
    case Versus(kind, v, sig) =>
      && (kind == Eq || kind == Gt || kind == Lt) && OneChild(t, t[n]) && t[n] == Plain(kind, v, t[n].children)
      && t[t[n].children[0]] == Plain(SubSignature, sig, [])
  }

  ghost predicate SomePiece(t: Table, n: nat, ps: set<Piece>) { exists p :: p in ps && IsPiece(t, n, p) }

  // Different entries, each one of the pieces.
  ghost predicate OfPieces(t: Table, ids: seq<nat>, ps: set<Piece>) { Unique(ids) && forall c :: c in ids ==> SomePiece(t, c, ps) }

  ghost predicate FormFits(t: Table, n: nat, form: Makeup)
    requires n < |t|
  {
    match form
    case Loose => true
    case Whole => t[n].kind != Add
    case Only(p) => IsPiece(t, n, p)
    case Totals(ps) => (t[n].kind == SubSignature || t[n].kind == AddSum) && OfPieces(t, Terms(t, n), ps)
    case Tallies(ps) => t[n].kind == AddUniq && OfPieces(t, Terms(t, n), ps)
  }

  ghost predicate Estimated(t: Table, n: nat, e: Estimate)
    requires Acyclic(t)
  {
    n < |t| && FormFits(t, n, e.form) && Deniable(t, n, e.times) && (e.room.Some? ==> Tree(t, n) <= e.room.value)
  }

  // An estimate that asks for less.
  predicate Covers(e: Estimate, less: Estimate) {
    && (less.form == e.form || less.form.Loose? || (less.form.Whole? && !e.form.Loose?))
    && less.times <= e.times && (less.room.Some? ==> e.room.Some? && e.room.value <= less.room.value)
  }

  lemma {:induction false} CoversEstimated(t: Table, n: nat, e: Estimate, less: Estimate)
    requires Acyclic(t) && Estimated(t, n, e) && Covers(e, less)
    ensures Estimated(t, n, less)
  {
    DeniableFewer(t, n, e.times, less.times);
  }

  lemma {:induction false} PieceExtends(t: Table, t': Table, n: nat, p: Piece)
    requires Acyclic(t) && t <= t' && IsPiece(t, n, p)
    ensures IsPiece(t', n, p)
  {
  }

  lemma {:induction false} PiecesExtend(t: Table, t': Table, ids: seq<nat>, ps: set<Piece>)
    requires Acyclic(t) && t <= t' && OfPieces(t, ids, ps)
    ensures OfPieces(t', ids, ps)
  {
    hide IsPiece;
    forall c | c in ids ensures SomePiece(t', c, ps) {
      assert SomePiece(t, c, ps);
      var p :| p in ps && IsPiece(t, c, p);
      PieceExtends(t, t', c, p);
    }
  }

  lemma {:induction false} EstimatedExtends(t: Table, t': Table, n: nat, e: Estimate)
    requires Acyclic(t) && Acyclic(t') && t <= t' && Estimated(t, n, e)
    ensures Estimated(t', n, e)
  {
    DeniableExtends(t, t', n, e.times);
    TreeExtends(t, t', n);
    hide OfPieces, Deniable;
    if e.form.Totals? || e.form.Tallies? { PiecesExtend(t, t', Terms(t, n), e.form.ps); }
  }

  // Different pieces are different entries.
  lemma {:induction false} PieceOnce(t: Table, n: nat, p: Piece, q: Piece)
    requires IsPiece(t, n, p) && IsPiece(t, n, q)
    ensures p == q
  {
  }

  lemma {:induction false} PiecesApart(t: Table, a: seq<nat>, b: seq<nat>, ps: set<Piece>, qs: set<Piece>)
    requires OfPieces(t, a, ps) && OfPieces(t, b, qs) && ps !! qs
    ensures OfPieces(t, a + b, ps + qs)
  {
    hide IsPiece;
    forall c | c in a + b ensures SomePiece(t, c, ps + qs) {
      if c in a {
        assert SomePiece(t, c, ps);
        var p :| p in ps && IsPiece(t, c, p);
        assert p in ps + qs;
      } else {
        assert SomePiece(t, c, qs);
        var p :| p in qs && IsPiece(t, c, p);
        assert p in ps + qs;
      }
    }
    forall i, j | 0 <= i < |a| && 0 <= j < |b| ensures a[i] != b[j] {
      assert a[i] in a && b[j] in b && SomePiece(t, a[i], ps) && SomePiece(t, b[j], qs);
      if a[i] == b[j] {
        var p :| p in ps && IsPiece(t, a[i], p);
        var q :| q in qs && IsPiece(t, a[i], q);
        PieceOnce(t, a[i], p, q);
      }
    }
  }

  lemma {:induction false} PiecesPermuted(t: Table, a: seq<nat>, b: seq<nat>, ps: set<Piece>)
    requires OfPieces(t, a, ps) && multiset(a) == multiset(b)
    ensures OfPieces(t, b, ps)
  {
    SameUnique(a, b);
    forall c | c in b ensures SomePiece(t, c, ps) { assert c in multiset(a); }
  }

  // What can be negated carries no offset.
  lemma {:induction false} DeniableWhole(t: Table, n: nat, times: nat)
    requires Acyclic(t) && n < |t| && Deniable(t, n, times) && times > 0
    ensures FormFits(t, n, Whole)
  {
  }

  // ---- rooms ----

  function Enlarged(a: Option<nat>, times: nat, more: nat): Option<nat> { if a.Some? then Some(times * a.value + more) else None }

  function BothRooms(a: Option<nat>, b: Option<nat>, more: nat): Option<nat> {
    if a.Some? && b.Some? then Some(a.value + b.value + more) else None
  }

  function Least(a: nat, b: nat): nat { if a < b then a else b }

  // ---- compares ----

  function CompareEstimate(e: Estimate, p: Predicate, v: u32): Estimate
    requires Unsigned(p) && !Trivial(p, v)
  {
    var whole, seen := !e.form.Loose?, e.form.Only? && e.form.p.Match?;
    if p == EQ then EqualEstimate(e, v)
    else if p == NE then
      (if seen && v == 0 then Estimate(e.form, 2, e.room)
       else if seen || (whole && v != 0) then Estimate(Whole, 2, Enlarged(e.room, 3, 3)) else NOTHING)
    else if Over(p) then (if Bound(p, v) == 0 then e else OrderEstimate(e, Gt, Bound(p, v)))
    else if Bound(p, v) == 0 then Estimate(Whole, 2, Some(1))
    else OrderEstimate(e, Lt, Bound(p, v))
  }

  function EqualEstimate(e: Estimate, v: u32): Estimate {
    if e.form.Only? && e.form.p.Match? then Estimate(Only(Versus(Eq, v, e.form.p.sig)), 2, Enlarged(e.room, 1, 1))
    else Estimate(Whole, if !e.form.Loose? && v != 0 then 2 else 1, Enlarged(e.room, 1, 1))
  }

  function OrderEstimate(e: Estimate, kind: Kind, b: u32): Estimate {
    if e.form.Only? && e.form.p.Match? then Estimate(Only(Versus(kind, b, e.form.p.sig)), 2, Enlarged(e.room, 1, 1))
    else if e.form.Loose? then NOTHING else Estimate(Whole, 2, Enlarged(e.room, 1, 1))
  }

  // What a compare makes of entry n.
  ghost predicate ComparedTo(t0: Table, n: nat, p: Predicate, v: u32, t: Table, r: nat)
    requires Acyclic(t0) && Acyclic(t) && Unsigned(p) && !Trivial(p, v)
  {
    n < |t0| && r < |t| &&
    if p == EQ then EqualTo(t0, n, v, t, r)
    else if p == NE then UnequalTo(t0, n, v, t, r)
    else if Over(p) then OverBound(t0, n, Bound(p, v), t, r) else UnderBound(t0, n, Bound(p, v), t, r)
  }

  ghost predicate EqualTo(t0: Table, n: nat, v: u32, t: Table, r: nat)
    requires n < |t0|
  {
    EqFor(t, n, v, r) && (t0[n].kind == SubSignature ==> t[r] == Node(Eq, v, ALL_ONES, [n]))
  }

  ghost predicate UnequalTo(t0: Table, n: nat, v: u32, t: Table, r: nat)
    requires Acyclic(t0) && Acyclic(t) && n < |t0| && r < |t|
  {
    && (t0[n].kind == SubSignature && v == 0 ==> r == n)
    && (t0[n].kind != Add && (v != 0 || t0[n].kind == SubSignature) ==> Deniable(t, r, 2) && Tree(t, r) <= 3 * Tree(t0, n) + 3)
  }

  ghost predicate OverBound(t0: Table, n: nat, b: u32, t: Table, r: nat)
    requires n < |t0| && r < |t|
  {
    if b == 0 then r == n && t == t0 else t0[n].kind != Add ==> t[r] == Plain(Gt, b, [n])
  }

  ghost predicate UnderBound(t0: Table, n: nat, b: u32, t: Table, r: nat)
    requires n < |t0| && r < |t|
  {
    if b == 0 then t[r] == Plain(False, ALL_ONES, []) else t0[n].kind != Add ==> t[r] == Plain(Lt, b, [n])
  }

  lemma {:induction false} EqualEstimated(t0: Table, n: nat, e: Estimate, v: u32, t: Table, r: nat)
    requires Acyclic(t0) && Acyclic(t) && Arity(t) && t0 <= t && Estimated(t0, n, e) && EqualTo(t0, n, v, t, r)
    ensures Estimated(t, r, EqualEstimate(e, v))
  {
    EqTree(t, n, v, r);
    EqDeniable(t, n, v, r);
    TreeExtends(t0, t, n);
    assert t[r].kind == Eq;
    hide OfPieces, Tree;
  }

  lemma {:induction false} OrderEstimated(t0: Table, n: nat, e: Estimate, kind: Kind, b: u32, t: Table, r: nat)
    requires Acyclic(t0) && Acyclic(t) && t0 <= t && Estimated(t0, n, e) && (kind == Gt || kind == Lt) && r < |t|
    requires t0[n].kind != Add ==> t[r] == Plain(kind, b, [n])
    ensures Estimated(t, r, OrderEstimate(e, kind, b))
  {
    if !e.form.Loose? {
      assert t0[n].kind != Add;
      OrderTree(t, r, kind, b, n);
      TreeExtends(t0, t, n);
    }
    hide OfPieces, Tree;
  }

  lemma {:induction false} CompareEstimated(t0: Table, n: nat, e: Estimate, p: Predicate, v: u32, t: Table, r: nat)
    requires Acyclic(t0) && Acyclic(t) && Arity(t) && t0 <= t && Estimated(t0, n, e) && Unsigned(p) && !Trivial(p, v)
    requires ComparedTo(t0, n, p, v, t, r)
    ensures Estimated(t, r, CompareEstimate(e, p, v))
  {
    hide EqualEstimate, OrderEstimate, OfPieces, EqualTo, Deniable, Tree;
    if p == EQ {
      EqualEstimated(t0, n, e, v, t, r);
    } else if p == NE {
      UnequalEstimated(t0, n, e, v, t, r);
    } else if Bound(p, v) == 0 {
      if Under(p) { LeafTree(t, r); }
    } else {
      OrderEstimated(t0, n, e, if Over(p) then Gt else Lt, Bound(p, v), t, r);
    }
  }

  lemma {:induction false} UnequalEstimated(t0: Table, n: nat, e: Estimate, v: u32, t: Table, r: nat)
    requires Acyclic(t0) && Acyclic(t) && t0 <= t && Estimated(t0, n, e) && r < |t| && UnequalTo(t0, n, v, t, r)
    ensures Estimated(t, r, CompareEstimate(e, NE, v))
  {
    var whole, seen := !e.form.Loose?, e.form.Only? && e.form.p.Match?;
    assert whole ==> t0[n].kind != Add;
    assert seen ==> t0[n].kind == SubSignature;
    if seen && v == 0 {
      TreeExtends(t0, t, n);
      LeafTree(t, n);
    } else if seen || (whole && v != 0) {
      DeniableWhole(t, r, 2);
    }
    hide OfPieces, Tree, Deniable;
  }

  // ---- sums ----

  // The different match counts a form adds up.
  function AddedUp(form: Makeup): Option<set<Piece>> {
    if form.Only? && form.p.Match? then Some({form.p}) else if form.Totals? then Some(form.ps) else None
  }

  // No piece is in both.
  predicate AddsApart(a: Makeup, b: Makeup) {
    || (AddedUp(a).Some? && AddedUp(b).Some? && AddedUp(a).value !! AddedUp(b).value)
    || (a.Tallies? && b.Tallies? && a.ps !! b.ps)
  }

  function SumEstimate(a: Estimate, b: Estimate): Estimate {
    var room := BothRooms(a.room, b.room, 1);
    if AddedUp(a.form).Some? && AddedUp(b.form).Some? && AddsApart(a.form, b.form) then
      Estimate(Totals(AddedUp(a.form).value + AddedUp(b.form).value), 0, room)
    else if a.form.Tallies? && b.form.Tallies? && AddsApart(a.form, b.form) then Estimate(Tallies(a.form.ps + b.form.ps), 0, room)
    else if !a.form.Loose? && !b.form.Loose? then Estimate(Whole, 0, room)
    else NOTHING
  }

  // Two entries without offset have been added.
  ghost predicate AddsTerms(t0: Table, l: nat, r: nat, t: Table, s: nat) {
    l < |t0| && r < |t0| && t0[l].kind != Add && t0[r].kind != Add ==>
      s < |t| && t[s].kind == SumKind(t0, l) && multiset(t[s].children) == multiset(Terms(t0, l) + Terms(t0, r))
  }

  lemma {:induction false} AddedUpFits(t: Table, n: nat, form: Makeup)
    requires n < |t| && FormFits(t, n, form) && AddedUp(form).Some?
    ensures (t[n].kind == SubSignature || t[n].kind == AddSum) && OfPieces(t, Terms(t, n), AddedUp(form).value)
  {
    if form.Only? { assert SomePiece(t, n, {form.p}); }
  }

  // Sums without a common piece can be added.
  lemma {:induction false} ApartAdds(t: Table, l: nat, r: nat, a: Makeup, b: Makeup)
    requires l < |t| && r < |t| && FormFits(t, l, a) && FormFits(t, r, b) && AddsApart(a, b)
    ensures Addable(t, l, r) && Unique(Terms(t, l) + Terms(t, r)) && t[l].kind != Add && t[r].kind != Add
  {
    hide OfPieces;
    if AddedUp(a).Some? && AddedUp(b).Some? {
      AddedUpFits(t, l, a);
      AddedUpFits(t, r, b);
      PiecesApart(t, Terms(t, l), Terms(t, r), AddedUp(a).value, AddedUp(b).value);
    } else {
      PiecesApart(t, Terms(t, l), Terms(t, r), a.ps, b.ps);
    }
    assert Unique(Terms(t, l) + Terms(t, r)) by { UniquePieces(t, Terms(t, l) + Terms(t, r)); }
  }

  lemma {:induction false} UniquePieces(t: Table, ids: seq<nat>)
    ensures (exists ps :: OfPieces(t, ids, ps)) ==> Unique(ids)
  {
  }

  lemma {:induction false} TermsTree(t: Table, n: nat)
    requires Acyclic(t) && n < |t|
    ensures In(t, Terms(t, n)) && Trees(t, Terms(t, n)) <= Tree(t, n)
  {
    TreeOf(t, n);
    TreesOne(t, n);
  }

  lemma {:induction false} SumTree(t0: Table, l: nat, r: nat, t: Table, s: nat)
    requires Acyclic(t0) && Acyclic(t) && t0 <= t && l < |t0| && r < |t0| && s < |t|
    requires multiset(t[s].children) == multiset(Terms(t0, l) + Terms(t0, r))
    ensures Tree(t, s) <= Tree(t0, l) + Tree(t0, r) + 1
  {
    TermsTree(t0, l);
    TermsTree(t0, r);
    TreesAppend(t0, Terms(t0, l), Terms(t0, r));
    AllTreesExtend(t0, t, Terms(t0, l) + Terms(t0, r));
    TreeOf(t, s);
    TreesAmong(t, t[s].children, Terms(t0, l) + Terms(t0, r));
  }

  lemma {:induction false} SumEstimated(t0: Table, l: nat, r: nat, a: Estimate, b: Estimate, t: Table, s: nat)
    requires Acyclic(t0) && Acyclic(t) && t0 <= t && Estimated(t0, l, a) && Estimated(t0, r, b) && s < |t| && AddsTerms(t0, l, r, t, s)
    ensures Estimated(t, s, SumEstimate(a, b))
  {
    hide OfPieces, Deniable, Tree;
    if !a.form.Loose? && !b.form.Loose? {
      SumTree(t0, l, r, t, s);
      if AddsApart(a.form, b.form) { SumPieces(t0, l, r, a.form, b.form, t, s); }
    }
    assert Deniable(t, s, 0) by { NeverDenied(t, s); }
  }

  lemma {:induction false} NeverDenied(t: Table, s: nat)
    requires Acyclic(t) && s < |t|
    ensures Deniable(t, s, 0)
  {
  }

  lemma {:induction false} SumPieces(t0: Table, l: nat, r: nat, a: Makeup, b: Makeup, t: Table, s: nat)
    requires Acyclic(t0) && t0 <= t && l < |t0| && r < |t0| && s < |t| && FormFits(t0, l, a) && FormFits(t0, r, b) && AddsApart(a, b)
    requires t[s].kind == SumKind(t0, l) && multiset(t[s].children) == multiset(Terms(t0, l) + Terms(t0, r))
    ensures AddedUp(a).Some? && AddedUp(b).Some? ==> FormFits(t, s, Totals(AddedUp(a).value + AddedUp(b).value))
    ensures a.Tallies? && b.Tallies? ==> FormFits(t, s, Tallies(a.ps + b.ps))
  {
    hide OfPieces;
    var xs := Terms(t0, l) + Terms(t0, r);
    if AddedUp(a).Some? && AddedUp(b).Some? {
      AddedUpFits(t0, l, a);
      AddedUpFits(t0, r, b);
      PiecesApart(t0, Terms(t0, l), Terms(t0, r), AddedUp(a).value, AddedUp(b).value);
      PiecesExtend(t0, t, xs, AddedUp(a).value + AddedUp(b).value);
      PiecesPermuted(t, xs, t[s].children, AddedUp(a).value + AddedUp(b).value);
    } else {
      PiecesApart(t0, Terms(t0, l), Terms(t0, r), a.ps, b.ps);
      PiecesExtend(t0, t, xs, a.ps + b.ps);
      PiecesPermuted(t, xs, t[s].children, a.ps + b.ps);
    }
  }

  lemma {:induction false} OffsetEstimated(t0: Table, n: nat, e: Estimate, off: u32, t: Table, r: nat)
    requires Acyclic(t0) && Acyclic(t) && t0 <= t && Estimated(t0, n, e) && r < |t| && t[r] == Plain(Add, off, [n])
    ensures Estimated(t, r, Estimate(Loose, 0, Enlarged(e.room, 1, 1)))
  {
    OrderTree(t, r, Add, off, n);
    TreeExtends(t0, t, n);
    NeverDenied(t, r);
  }

  lemma {:induction false} CountEstimated(t0: Table, n: nat, e: Estimate, t: Table, r: nat)
    requires Acyclic(t0) && Acyclic(t) && t0 <= t && Estimated(t0, n, e) && r < |t| && t[r] == Plain(AddUniq, ALL_ONES, [n])
    ensures Estimated(t, r, CountEstimate(e))
  {
    OrderTree(t, r, AddUniq, ALL_ONES, n);
    TreeExtends(t0, t, n);
    NeverDenied(t, r);
    if e.form.Only? {
      PieceExtends(t0, t, n, e.form.p);
      assert SomePiece(t, n, {e.form.p});
    }
  }

  function CountEstimate(e: Estimate): Estimate {
    Estimate(if e.form.Only? then Tallies({e.form.p}) else Whole, 0, Enlarged(e.room, 1, 1))
  }

  // ---- connectives and negations ----

  // A condition joined from others.
  function JoinEstimate(a: Estimate, b: Estimate): Estimate {
    var times := Least(a.times, b.times);
    Estimate(if times > 0 then Whole else Loose, times, BothRooms(a.room, b.room, 1))
  }

  function DenyEstimate(e: Estimate): Estimate { if e.times >= 2 then Estimate(Whole, 2, Enlarged(e.room, 3, 0)) else NOTHING }

  // Entry r joins two others.
  ghost predicate JoinsTwo(t0: Table, a: nat, b: nat, t: Table, r: nat)
    requires Acyclic(t0) && Acyclic(t) && a < |t0| && b < |t0| && r < |t|
  {
    AsDeniable(t0, [a, b], t, r) && Tree(t, r) <= Tree(t0, a) + Tree(t0, b) + 1
  }

  lemma {:induction false} TwoJoined(t0: Table, a: nat, b: nat, t: Table, r: nat)
    requires Acyclic(t0) && Acyclic(t) && a < |t0| && b < |t0| && r < |t|
    requires AsDeniable(t0, [a, b], t, r) && In(t0, [a, b]) && Tree(t, r) <= 1 + Trees(t0, [a, b])
    ensures JoinsTwo(t0, a, b, t, r)
  {
    TreesTwo(t0, a, b);
  }

  lemma {:induction false} JoinEstimated(t0: Table, a: nat, b: nat, ea: Estimate, eb: Estimate, t: Table, r: nat)
    requires Acyclic(t0) && Acyclic(t) && t0 <= t && Estimated(t0, a, ea) && Estimated(t0, b, eb) && r < |t| && JoinsTwo(t0, a, b, t, r)
    ensures Estimated(t, r, JoinEstimate(ea, eb))
  {
    var times := Least(ea.times, eb.times);
    DeniableFewer(t0, a, ea.times, times);
    DeniableFewer(t0, b, eb.times, times);
    hide Deniable, Tree;
    assert AllDeniable(t0, [a, b], times);
    if times > 0 { DeniableWhole(t, r, times); }
  }

  lemma {:induction false} DenyEstimated(t0: Table, a: nat, e: Estimate, t: Table, r: nat)
    requires Acyclic(t0) && Acyclic(t) && t0 <= t && Estimated(t0, a, e) && r < |t|
    requires Deniable(t0, a, 2) ==> DeniedWithin(t0, a, t, r)
    ensures Estimated(t, r, DenyEstimate(e))
  {
    if e.times >= 2 {
      DeniableFewer(t0, a, e.times, 2);
      DeniableWhole(t, r, 2);
    } else {
      NeverDenied(t, r);
    }
  }

  // The negation of an equality.
  lemma {:induction false} UnequalSized(t0: Table, n: nat, v: u32, t1: Table, e: nat, t: Table, r: nat)
    requires Acyclic(t0) && Acyclic(t1) && Arity(t1) && Acyclic(t) && t0 <= t1 <= t && n < |t0| && r < |t| && EqFor(t1, n, v, e)
    requires Deniable(t1, e, 2) ==> DeniedWithin(t1, e, t, r)
    requires ZeroCount(t1, e) ==> r == t1[e].children[0]
    requires t0[n].kind == SubSignature ==> t1[e] == Node(Eq, v, ALL_ONES, [n])
    ensures UnequalTo(t0, n, v, t, r)
  {
    EqTree(t1, n, v, e);
    EqDeniable(t1, n, v, e);
    TreeExtends(t0, t1, n);
    hide Deniable, Tree;
  }

  lemma {:induction false} CollectedTermsOf(t0: Table, l: nat, r: nat, t: Table, s: nat)
    requires Downward(t) && t0 <= t && l < |t0| && r < |t0|
    requires Collects(t, s, SumKind(t, l), multiset(Terms(t, l)) + multiset(Terms(t, r)))
    ensures AddsTerms(t0, l, r, t, s)
  {
    var xs: seq<nat> :| In(t, xs) && multiset(xs) == multiset(Terms(t, l)) + multiset(Terms(t, r))
      && t[s] == Plain(SumKind(t, l), ALL_ONES, Sort(t, xs));
    assert multiset(t[s].children) == multiset(Terms(t0, l) + Terms(t0, r));
  }

  // ---- choices ----

  // One side: the guard alone, or joined with the operand.
  ghost predicate SideJoined(t0: Table, c: nat, id: Option<nat>, t: Table, n: Option<nat>)
    requires Acyclic(t0) && Acyclic(t)
  {
    n.Some? ==>
      c < |t0| && n.value < |t| && if id.Some? then id.value < |t0| && JoinsTwo(t0, c, id.value, t, n.value) else n.value == c
  }

  ghost predicate EitherJoined(t0: Table, n: Option<nat>, n2: Option<nat>, t: Table, r: nat)
    requires Acyclic(t0) && Acyclic(t)
  {
    r < |t| &&
    if n.Some? && n2.Some? then n.value < |t0| && n2.value < |t0| && JoinsTwo(t0, n.value, n2.value, t, r)
    else (n.Some? && r == n.value) || (n2.Some? && r == n2.value)
  }

  // The sides of a choice can be negated so often.
  ghost predicate SidesDeniable(t: Table, c: nat, yes: Option<nat>, no: Option<nat>, times: nat)
    requires Acyclic(t)
  {
    && c < |t| && Deniable(t, c, times) && (yes.Some? ==> yes.value < |t| && Deniable(t, yes.value, times))
    && (no.Some? ==> no.value < |t| && Deniable(t, no.value, times))
  }

  ghost function SideTree(t: Table, id: Option<nat>): nat
    requires Acyclic(t) && (id.Some? ==> id.value < |t|)
  {
    if id.Some? then Tree(t, id.value) else 0
  }

  // Entry r is one side where the condition holds and the other where it does not.
  ghost predicate Chooses(t0: Table, c: nat, yes: Option<nat>, no: Option<nat>, t: Table, r: nat)
    requires Acyclic(t0) && Acyclic(t)
  {
    c < |t0| && r < |t| && (yes.Some? ==> yes.value < |t0|) && (no.Some? ==> no.value < |t0|) &&
    (Deniable(t0, c, 2) ==>
      && (forall times: nat :: times <= 2 && SidesDeniable(t0, c, yes, no, times) ==> Deniable(t, r, times))
      && Tree(t, r) <= 4 * Tree(t0, c) + SideTree(t0, yes) + SideTree(t0, no) + 3)
  }

  lemma {:induction false} SideSized(t0: Table, c: nat, id: Option<nat>, t: Table, n: nat, times: nat)
    requires Acyclic(t0) && Acyclic(t) && t0 <= t && c < |t0| && (id.Some? ==> id.value < |t0|) && SideJoined(t0, c, id, t, Some(n))
    ensures n < |t| && Tree(t, n) <= Tree(t0, c) + SideTree(t0, id) + 1
    ensures Deniable(t0, c, times) && (id.Some? ==> Deniable(t0, id.value, times)) ==> Deniable(t, n, times)
  {
    TreeExtends(t0, t, c);
    DeniableExtends(t0, t, c, times);
    hide Deniable, Tree;
    if id.Some? && Deniable(t0, c, times) && Deniable(t0, id.value, times) { assert AllDeniable(t0, [c, id.value], times); }
  }

  lemma {:induction false} ChoiceSized(t0: Table, c: nat, yes: Option<nat>, n: Option<nat>, t1: Table, t2: Table, not: nat,
      no: Option<nat>, n2: Option<nat>, t3: Table, t: Table, r: nat)
    requires Acyclic(t0) && Acyclic(t1) && Acyclic(t2) && Acyclic(t3) && Acyclic(t) && t0 <= t1 <= t2 <= t3 <= t
    requires c < |t0| && (yes.Some? ==> yes.value < |t0|) && (no.Some? ==> no.value < |t0|) && not < |t2|
    requires SideJoined(t0, c, yes, t1, n) && SideJoined(t2, not, no, t3, n2) && EitherJoined(t3, n, n2, t, r)
    requires Deniable(t1, c, 2) ==> DeniedWithin(t1, c, t2, not)
    ensures Chooses(t0, c, yes, no, t, r)
  {
    TreeExtends(t0, t1, c);
    DeniableExtends(t0, t1, c, 2);
    hide Deniable, Tree, SideJoined, EitherJoined, SidesDeniable;
    if Deniable(t0, c, 2) {
      ChoiceTimes(t0, c, yes, n, t1, t2, not, no, n2, t3, t, r, 0);
      forall times: nat | times <= 2 && SidesDeniable(t0, c, yes, no, times) ensures Deniable(t, r, times) {
        ChoiceTimes(t0, c, yes, n, t1, t2, not, no, n2, t3, t, r, times);
      }
    }
  }

  lemma {:induction false} ChoiceTimes(t0: Table, c: nat, yes: Option<nat>, n: Option<nat>, t1: Table, t2: Table, not: nat,
      no: Option<nat>, n2: Option<nat>, t3: Table, t: Table, r: nat, times: nat)
    requires Acyclic(t0) && Acyclic(t1) && Acyclic(t2) && Acyclic(t3) && Acyclic(t) && t0 <= t1 <= t2 <= t3 <= t && times <= 2
    requires c < |t0| && (yes.Some? ==> yes.value < |t0|) && (no.Some? ==> no.value < |t0|) && not < |t2|
    requires SideJoined(t0, c, yes, t1, n) && SideJoined(t2, not, no, t3, n2) && EitherJoined(t3, n, n2, t, r)
    requires Deniable(t2, not, 2) && Tree(t2, not) <= 3 * Tree(t0, c)
    ensures Tree(t, r) <= 4 * Tree(t0, c) + SideTree(t0, yes) + SideTree(t0, no) + 3
    ensures SidesDeniable(t0, c, yes, no, times) ==> Deniable(t, r, times)
  {
    DeniableFewer(t2, not, 2, times);
    if no.Some? {
      TreeExtends(t0, t2, no.value);
      DeniableExtends(t0, t2, no.value, times);
    }
    if n.Some? {
      SideSized(t0, c, yes, t1, n.value, times);
      TreeExtends(t1, t, n.value);
      TreeExtends(t1, t3, n.value);
      DeniableExtends(t1, t, n.value, times);
      DeniableExtends(t1, t3, n.value, times);
    }
    if n2.Some? {
      SideSized(t2, not, no, t3, n2.value, times);
      TreeExtends(t3, t, n2.value);
      DeniableExtends(t3, t, n2.value, times);
    }
    hide Deniable, Tree;
    if n.Some? && n2.Some? && Deniable(t3, n.value, times) && Deniable(t3, n2.value, times) {
      assert AllDeniable(t3, [n.value, n2.value], times);
    }
  }
}

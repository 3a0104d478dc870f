// Printing a logical node, and what the printed signature means.
module SignaturePrinter {
  import opened Words
  import opened LogicalNodes
  import opened SumModifiers
  import opened NodeRules
  import opened NodeOrder
  import opened ShapedTables
  import opened SignatureText

  // The kinds the printer has a case for, all the way down.
  predicate Printable(t: Table, i: nat)
    requires Acyclic(t) && i < |t|
  {
    && t[i].kind != Not && t[i].kind != Add && !Constant(t[i].kind)
    && (t[i].kind == SubSignature || t[i].children != [])
    && forall c :: c in t[i].children ==> Printable(t, c)
  }

  // The expression that is printed: sums become disjunctions, and a sum of one term is the term.
  ghost function Merged(t: Table, i: nat): (s: Sig)
    requires Acyclic(t) && Arity(t) && i < |t| && Printable(t, i)
    decreases i, 1
  {
    var n := t[i];
    if n.kind == SubSignature then Num(n.op0)
    else if n.kind == And then All(MergedAll(t, n.children, i))
    else if n.kind == Or then Any(MergedAll(t, n.children, i))
    else if Additive(n.kind) then
      (if |n.children| == 1 then assert n.children[0] in n.children; Merged(t, n.children[0])
       else Any(MergedAll(t, n.children, i)))
    else
      assert n.children[0] in n.children;
      var part := Merged(t, n.children[0]);
      if n.kind == Gt then Cmp(Over, part, n.op0, None)
      else if n.kind == Lt then Cmp(Under, part, n.op0, None)
      else Cmp(Is, part, n.op0, if n.op1 == ALL_ONES then None else Some(n.op1))
  }

  ghost function MergedAll(t: Table, ids: seq<nat>, bound: nat): (ps: seq<Sig>)
    requires Acyclic(t) && Arity(t) && bound <= |t| && forall c :: c in ids ==> c < bound && Printable(t, c)
    ensures |ps| == |ids| && forall k :: 0 <= k < |ids| ==> ids[k] in ids && ps[k] == Merged(t, ids[k])
    decreases bound, 0
  {
    seq(|ids|, k requires 0 <= k < |ids| => assert ids[k] in ids; Merged(t, ids[k]))
  }

  lemma {:induction false} MergedWellFormed(t: Table, i: nat)
    requires WellFormed(t) && i < |t| && Printable(t, i)
    ensures WellFormedSig(Merged(t, i))
  {
    var n := t[i];
    forall c | c in n.children ensures WellFormedSig(Merged(t, c)) { MergedWellFormed(t, c); }
    if Connective(n.kind) || Additive(n.kind) {
      assert FlatAt(t, i);
      var ps := MergedAll(t, n.children, i);
      forall p | p in ps ensures WellFormedSig(p) { var k :| 0 <= k < |ps| && ps[k] == p; }
    } else if Unary(n.kind) {
      assert n.children[0] in n.children;
    }
  }

  // Appends one more part to a printed list.
  lemma {:induction false} PrintPartsSnoc(ps: seq<Sig>, p: Sig, sep: char)
    ensures PrintParts(ps + [p], sep) == PrintParts(ps, sep) + (if ps == [] then "" else [sep]) + Print(p)
    ensures GroupsOf(ps + [p]) == GroupsOf(ps) + Groups(p)
  {
    hide Print, Groups;
    if ps == [] {
      assert [] + [p] == [p] && [p][1..] == [];
    } else {
      assert (ps + [p])[0] == ps[0] && (ps + [p])[1..] == ps[1..] + [p];
      PrintPartsSnoc(ps[1..], p, sep);
      if |ps| == 1 {
        assert ps[1..] == [];
      } else {
        var a, b := Print(ps[0]), PrintParts(ps[1..], sep);
        assert a + [sep] + (b + [sep] + Print(p)) == (a + [sep] + b) + [sep] + Print(p);
      }
    }
  }

  method Node2String(t: Table, i: nat, groups0: nat) returns (s: string, groups: nat)
    requires WellFormed(t) && i < |t| && Printable(t, i)
    ensures s == Print(Merged(t, i)) && groups == groups0 + Groups(Merged(t, i))
    ensures groups + Chars(s, '=') == groups0 + Chars(s, '(')
    decreases i, 1
  {
    GroupsWritten(Merged(t, i));
    groups := groups0;
    var n := t[i];
    if n.kind == SubSignature {
      s := Digits(n.op0);
    } else if n.kind == And || n.kind == Or {
      groups := groups + 1;
      s, groups := JoinParts(t, i, if n.kind == And then '&' else '|', groups);
    } else if Additive(n.kind) {
      if |n.children| == 1 {
        assert n.children[0] in n.children;
        s, groups := Node2String(t, n.children[0], groups);
      } else {
        groups := groups + 1;
        s, groups := JoinParts(t, i, '|', groups);
      }
    } else {
      assert n.children[0] in n.children;
      if n.kind != Eq { groups := groups + 1; }
      var part;
      part, groups := Node2String(t, n.children[0], groups);
      var op := if n.kind == Eq then "=" else if n.kind == Gt then ">" else "<";
      s := "(" + part + op + Digits(n.op0)
         + (if n.kind == Eq && n.op1 != ALL_ONES then "," + Digits(n.op1) else "") + ")";
    }
  }

  lemma {:induction false} NoParts(ps: seq<Sig>, sep: char)
    ensures PrintParts(ps[..0], sep) == "" && GroupsOf(ps[..0]) == 0
  {
  }

  method JoinParts(t: Table, i: nat, sep: char, groups0: nat) returns (s: string, groups: nat)
    requires WellFormed(t) && i < |t| && Printable(t, i) && t[i].children != []
    ensures s == "(" + PrintParts(MergedAll(t, t[i].children, i), sep) + ")"
    ensures groups == groups0 + GroupsOf(MergedAll(t, t[i].children, i))
    decreases i, 0
  {
    hide Merged, Print, Groups, PrintParts, GroupsOf, Canonical;
    var cs := t[i].children;
    ghost var ps := MergedAll(t, cs, i);
    s, groups := "(", groups0;
    var k := 0;
    NoParts(ps, sep);
    while k < |cs|
      invariant 0 <= k <= |cs|
      invariant s == "(" + PrintParts(ps[..k], sep) + (if 0 < k < |cs| then [sep] else "")
      invariant groups == groups0 + GroupsOf(ps[..k])
    {
      assert cs[k] in cs;
      var part;
      part, groups := Node2String(t, cs[k], groups);
      assert ps[..k + 1] == ps[..k] + [ps[k]];
      PrintPartsSnoc(ps[..k], ps[k], sep);
      ghost var done := PrintParts(ps[..k], sep);
      assert s + part == "(" + (done + (if k == 0 then "" else [sep]) + part);
      s := s + part;
      k := k + 1;
      if k != |cs| { s := s + [sep]; }
    }
    assert ps[..k] == ps;
    s := s + ")";
  }

  // ---- what a printed signature means ----

  // The number of matches of a part, and whether it matched.
  function Matches(s: Sig, m: Counts): nat
    decreases s, 1
  {
    match s
    case Num(n) => if n < |m| then m[n] else 0
    case Any(parts) => MatchesOf(parts, m)
    case All(_) => Bit(Holds(s, m))
    case Cmp(_, _, _, _) => Bit(Holds(s, m))
  }

  function MatchesOf(parts: seq<Sig>, m: Counts): nat
    decreases parts, 2
  {
    if parts == [] then 0 else Matches(parts[0], m) + MatchesOf(parts[1..], m)
  }

  predicate Holds(s: Sig, m: Counts)
    decreases s, 0
  {
    match s
    case Num(n) => n < |m| && m[n] > 0
    case All(parts) => forall p :: p in parts ==> Holds(p, m)
    case Any(parts) => exists p :: p in parts && Holds(p, m)
    // =Y,Y constrains only the number of different parts, =X,Y both
    case Cmp(op, part, n, uniq) =>
      if uniq.Some? then Distinct(part, m) == uniq.value && (n != uniq.value ==> Matches(part, m) == n)
      else match op case Is => Matches(part, m) == n case Over => Matches(part, m) > n case Under => Matches(part, m) < n
  }

  // The number of different parts of a sum that matched.
  function Distinct(s: Sig, m: Counts): nat
    decreases s, 1
  {
    if s.Any? then DistinctOf(s.parts, m) else Bit(Holds(s, m))
  }

  function DistinctOf(parts: seq<Sig>, m: Counts): nat
    decreases parts, 2
  {
    if parts == [] then 0 else Bit(Holds(parts[0], m)) + DistinctOf(parts[1..], m)
  }

  // No list written in the signature reaches 2^32 matches.
  predicate Fits(s: Sig, m: Counts) {
    match s
    case Num(_) => true
    case All(parts) => forall p :: p in parts ==> Fits(p, m)
    case Any(parts) => (forall p :: p in parts ==> Fits(p, m)) && MatchesOf(parts, m) < TWO32
    case Cmp(_, part, _, _) => Fits(part, m)
  }

  // No sum whose total matters reaches 2^32: =Y,Y looks at its terms one by one.
  ghost predicate SumsFit(t: Table, i: nat, m: Counts)
    requires Acyclic(t) && Arity(t) && i < |t|
    decreases i
  {
    if t[i].kind == SubSignature then true
    else if TermsOnly(t, i) then
      forall d :: d in t[t[i].children[0]].children ==> t[i].children[0] in t[i].children && SumsFit(t, d, m)
    else
      && (forall c :: c in t[i].children ==> SumsFit(t, c, m))
      && (t[i].kind == AddSum || t[i].kind == AddBoth ==> In(t, t[i].children) && Total(t, t[i].children, m) < TWO32)
  }

  predicate TermsOnly(t: Table, i: nat)
    requires i < |t|
  {
    SumEq(t, i) && t[i].op0 == t[i].op1 != ALL_ONES
  }

  lemma {:induction false} WrapFits(n: nat)
    requires n < TWO32
    ensures Wrap(n) == n
  {
  }

  lemma {:induction false} MatchesTotal(t: Table, ids: seq<nat>, m: Counts)
    requires WellFormed(t) && In(t, ids) && forall c :: c in ids ==> Printable(t, c) && t[c].kind == SubSignature
    ensures MatchesOf(seq(|ids|, k requires 0 <= k < |ids| => assert ids[k] in ids; Merged(t, ids[k])), m) == Total(t, ids, m)
  {
    var ps := seq(|ids|, k requires 0 <= k < |ids| => assert ids[k] in ids; Merged(t, ids[k]));
    if ids != [] {
      TailIn(ids);
      MatchesTotal(t, ids[1..], m);
      assert ps[1..] == seq(|ids[1..]|, k requires 0 <= k < |ids[1..]| => assert ids[1..][k] in ids[1..]; Merged(t, ids[1..][k]));
      assert Matches(ps[0], m) == Val(t, ids[0], m);
    }
  }

  // A match count, or a sum of match counts.
  predicate Countable(t: Table, i: nat) {
    i < |t| && (t[i].kind == SubSignature
      || ((t[i].kind == AddSum || t[i].kind == AddBoth) && forall c :: c in t[i].children ==> c < |t| && t[c].kind == SubSignature))
  }

  // A sum no term of which matches more than once, where it has room.
  ghost predicate OnceEach(t: Table, c: nat)
    requires Acyclic(t) && Arity(t) && c < |t|
  {
    forall d, m: Counts :: d in t[c].children && Printable(t, d) && SumsFit(t, c, m) ==> Matches(Merged(t, d), m) <= 1
  }

  lemma {:induction false} SingleOnce(t: Table, c: nat)
    requires Acyclic(t) && Arity(t) && c < |t| && forall d :: d in t[c].children ==> d < |t| && Single(t[d].kind)
    ensures OnceEach(t, c)
  {
    forall d, m: Counts | d in t[c].children && Printable(t, d) && SumsFit(t, c, m) ensures Matches(Merged(t, d), m) <= 1 {
      assert Merged(t, d).All? || Merged(t, d).Cmp?;
    }
  }

  // What prints as it is meant. A bound is on match counts, their sums, or a sum of conditions that match
  // at most once, for a sum of conditions prints like a total; and a single term whose matches are not
  // added up is not itself a list.
  ghost predicate Legible(t: Table, i: nat)
    requires Acyclic(t) && Arity(t) && i < |t|
    decreases i, 1
  {
    var n := t[i];
    && (n.kind == AddUniq ==> |n.children| < TWO32)
    && (Connective(n.kind) || n.kind == AddUniq ==> forall c :: c in n.children ==> Legible(t, c))
    && (n.kind == AddSum || n.kind == AddBoth ==> Countable(t, i) || Tally(t, i))
    && (n.kind == Gt || n.kind == Lt || (n.kind == Eq && n.op1 == ALL_ONES) ==>
          n.children[0] in n.children && (Countable(t, n.children[0]) || Tally(t, n.children[0])))
    && (n.kind == Eq && n.op1 != ALL_ONES ==>
          && n.children[0] in n.children && LegibleTerms(t, n.children[0])
          && (n.op0 != n.op1 ==> Countable(t, n.children[0]) || Tally(t, n.children[0])))
  }

  ghost predicate LegibleTerms(t: Table, c: nat)
    requires Acyclic(t) && Arity(t) && c < |t|
    decreases c, 0
  {
    && t[c].kind == AddBoth && |t[c].children| < TWO32
    && (forall d :: d in t[c].children ==> Legible(t, d))
    && (|t[c].children| == 1 ==> t[c].children[0] in t[c].children && t[t[c].children[0]].kind != Or && !Additive(t[t[c].children[0]].kind))
  }

  // A count of conditions that reads as one.
  ghost predicate Tally(t: Table, c: nat)
    requires Acyclic(t) && Arity(t) && c < |t|
    decreases c, 0
  {
    && (t[c].kind == AddUniq || (t[c].kind == AddBoth && Conditions(t, c))) && |t[c].children| < TWO32
    && OnceEach(t, c) && forall d :: d in t[c].children ==> Legible(t, d)
  }

  // A count prints as something with as many matches.
  lemma {:induction false} CountMatches(t: Table, i: nat, m: Counts)
    requires WellFormed(t) && i < |t| && Countable(t, i) && Printable(t, i) && SumsFit(t, i, m)
    ensures Matches(Merged(t, i), m) == Val(t, i, m)
  {
    if t[i].kind != SubSignature {
      CountTotal(t, i, m);
      TotalsOfVals(t, t[i].children, i, m);
      WrapFits(Total(t, t[i].children, m));
    }
  }

  lemma {:induction false} CountTotal(t: Table, i: nat, m: Counts)
    requires WellFormed(t) && i < |t| && Additive(t[i].kind) && Printable(t, i)
    requires forall c :: c in t[i].children ==> c < i && t[c].kind == SubSignature
    ensures Matches(Merged(t, i), m) == Total(t, t[i].children, m)
  {
    var cs := t[i].children;
    SumForm(t, i);
    if |cs| == 1 {
      assert cs[0] in cs && Total(t, cs, m) == Val(t, cs[0], m) + Total(t, cs[1..], m);
    } else {
      MatchesTotal(t, cs, m);
      assert MergedAll(t, cs, i) == seq(|cs|, k requires 0 <= k < |cs| => assert cs[k] in cs; Merged(t, cs[k]));
    }
  }

  // What matches matched, and the other way round.
  lemma {:induction false} MatchesHolds(s: Sig, m: Counts)
    ensures Matches(s, m) > 0 <==> Holds(s, m)
    decreases s, 1
  {
    if s.Any? {
      SomeMatch(s.parts, m);
      HoldsGroup(s.parts, m);
    }
  }

  lemma {:induction false} SomeMatch(parts: seq<Sig>, m: Counts)
    ensures MatchesOf(parts, m) > 0 <==> exists p :: p in parts && Holds(p, m)
    decreases parts, 0
  {
    if parts != [] {
      TailIn(parts);
      MatchesHolds(parts[0], m);
      SomeMatch(parts[1..], m);
    }
  }

  // Different parts are no more than matches, and as many just when no part matches twice.
  lemma {:induction false} DistinctParts(parts: seq<Sig>, m: Counts)
    ensures DistinctOf(parts, m) <= MatchesOf(parts, m)
    ensures DistinctOf(parts, m) == MatchesOf(parts, m) <==> forall p :: p in parts ==> Matches(p, m) <= 1
  {
    if parts != [] {
      TailIn(parts);
      MatchesHolds(parts[0], m);
      DistinctParts(parts[1..], m);
    }
  }

  lemma {:induction false} MatchedBounds(t: Table, ids: seq<nat>, m: Counts)
    requires Acyclic(t) && Arity(t) && In(t, ids)
    ensures Matched(t, ids, m) <= |ids| && (Matched(t, ids, m) > 0 <==> AnyTrue(t, ids, m))
  {
    if ids != [] {
      TailIn(ids);
      MatchedBounds(t, ids[1..], m);
    }
  }

  lemma {:induction false} DistinctMatched(t: Table, ids: seq<nat>, ps: seq<Sig>, m: Counts)
    requires Acyclic(t) && Arity(t) && In(t, ids) && |ps| == |ids|
    requires forall k :: 0 <= k < |ids| ==> ids[k] in ids && (Holds(ps[k], m) <==> Truth(t, ids[k], m))
    ensures DistinctOf(ps, m) == Matched(t, ids, m)
  {
    if ids != [] {
      TailIn(ids);
      assert forall k :: 0 <= k < |ids[1..]| ==> ids[1..][k] == ids[k + 1] && ps[1..][k] == ps[k + 1];
      DistinctMatched(t, ids[1..], ps[1..], m);
    }
  }

  // The matches of a sum, and whether they are the number of its terms that matched.
  lemma {:induction false} SumMatches(t: Table, c: nat, m: Counts)
    requires WellFormed(t) && c < |t| && Additive(t[c].kind) && Printable(t, c)
    requires forall d :: d in t[c].children ==> (Holds(Merged(t, d), m) <==> Truth(t, d, m))
    ensures In(t, t[c].children) && Matched(t, t[c].children, m) <= Matches(Merged(t, c), m)
    ensures Matched(t, t[c].children, m) == Matches(Merged(t, c), m)
       <==> forall d :: d in t[c].children ==> Matches(Merged(t, d), m) <= 1
  {
    hide Val, Canonical, Truth;
    var cs := t[c].children;
    SumForm(t, c);
    PartsListed(t, c);
    if |cs| == 1 {
      assert cs[0] in cs && cs[1..] == [] && Matched(t, cs, m) == Bit(Truth(t, cs[0], m)) + Matched(t, cs[1..], m);
      MatchesHolds(Merged(t, cs[0]), m);
      assert forall d :: d in cs ==> d == cs[0];
    } else {
      var ps := MergedAll(t, cs, c);
      DistinctMatched(t, cs, ps, m);
      DistinctParts(ps, m);
      hide Merged, MergedAll;
      assert (forall p :: p in ps ==> Matches(p, m) <= 1) <==> (forall d :: d in cs ==> Matches(Merged(t, d), m) <= 1);
    }
  }

  // The value of a sum of conditions is the number of them that hold.
  lemma {:induction false} UniqValue(t: Table, c: nat, m: Counts)
    requires WellFormed(t) && c < |t| && (t[c].kind == AddUniq || (t[c].kind == AddBoth && Conditions(t, c)))
    requires |t[c].children| < TWO32
    ensures In(t, t[c].children) && Val(t, c, m) == Matched(t, t[c].children, m) <= |t[c].children|
  {
    MatchedBounds(t, t[c].children, m);
    TotalsOfVals(t, t[c].children, c, m);
    WrapFits(Matched(t, t[c].children, m));
    if t[c].kind == AddBoth { ConditionsAgree(t, c, m); }
  }

  lemma {:induction false} TermsFit(t: Table, c: nat, m: Counts)
    requires WellFormed(t) && c < |t| && Additive(t[c].kind) && SumsFit(t, c, m)
    ensures forall d :: d in t[c].children ==> SumsFit(t, d, m)
  {
  }

  lemma {:induction false} TallyMatches(t: Table, c: nat, m: Counts)
    requires WellFormed(t) && c < |t| && Tally(t, c) && Printable(t, c) && SumsFit(t, c, m)
    requires forall d :: d in t[c].children ==> (Holds(Merged(t, d), m) <==> Truth(t, d, m))
    ensures Matches(Merged(t, c), m) == Val(t, c, m)
  {
    hide Merged, MergedAll, Matches, Holds, Legible, SumsFit, Truth, Canonical;
    SumMatches(t, c, m);
    UniqValue(t, c, m);
  }

  // Merging sums into disjunctions keeps the meaning: a sum is above zero just when a term is.
  lemma {:induction false} MergedMeaning(t: Table, i: nat, m: Counts)
    requires WellFormed(t) && i < |t| && Legible(t, i) && Printable(t, i) && SumsFit(t, i, m)
    ensures Holds(Merged(t, i), m) <==> Truth(t, i, m)
    decreases i, 2
  {
    var n := t[i];
    if Connective(n.kind) {
      PartsListed(t, i);
      TermsMeaning(t, i, m);
      PartsMeaning(t, i, m);
    } else if n.kind == AddUniq {
      TermsMeaning(t, i, m);
      UniqMeaning(t, i, m);
    } else if Additive(n.kind) {
      MatchesMeaning(t, i, m);
      MatchesHolds(Merged(t, i), m);
    } else if Unary(n.kind) {
      var c := n.children[0];
      assert c in n.children;
      if n.kind == Eq && n.op1 != ALL_ONES {
        TermsMeaning(t, c, m);
        if n.op0 != n.op1 { MatchesMeaning(t, c, m); }
        ModifierMeaning(t, i, c, m);
      } else {
        MatchesMeaning(t, c, m);
      }
    }
  }

  lemma {:induction false} TermsMeaning(t: Table, c: nat, m: Counts)
    requires WellFormed(t) && c < |t| && Printable(t, c) && forall d :: d in t[c].children ==> Legible(t, d) && SumsFit(t, d, m)
    ensures forall d :: d in t[c].children ==> (Holds(Merged(t, d), m) <==> Truth(t, d, m))
    decreases c, 0
  {
    forall d | d in t[c].children ensures Holds(Merged(t, d), m) <==> Truth(t, d, m) { MergedMeaning(t, d, m); }
  }

  // What a bound is compared with.
  lemma {:induction false} MatchesMeaning(t: Table, c: nat, m: Counts)
    requires WellFormed(t) && c < |t| && (Countable(t, c) || Tally(t, c)) && Printable(t, c) && SumsFit(t, c, m)
    ensures Matches(Merged(t, c), m) == Val(t, c, m)
    decreases c, 1
  {
    if Countable(t, c) {
      CountMatches(t, c, m);
    } else {
      TermsMeaning(t, c, m);
      TallyMatches(t, c, m);
    }
  }

  lemma {:induction false} SumForm(t: Table, i: nat)
    requires WellFormed(t) && i < |t| && Additive(t[i].kind) && Printable(t, i)
    ensures t[i].children != []
    ensures Merged(t, i) == if |t[i].children| == 1 then (assert t[i].children[0] in t[i].children; Merged(t, t[i].children[0]))
                            else Any(MergedAll(t, t[i].children, i))
  {
  }

  lemma {:induction false} UniqTruth(t: Table, i: nat, m: Counts)
    requires WellFormed(t) && i < |t| && t[i].kind == AddUniq && |t[i].children| < TWO32
    ensures In(t, t[i].children) && (Truth(t, i, m) <==> AnyTrue(t, t[i].children, m))
  {
    TotalsOfVals(t, t[i].children, i, m);
    MatchedBounds(t, t[i].children, m);
    WrapFits(Matched(t, t[i].children, m));
  }

  lemma {:induction false} UniqMeaning(t: Table, i: nat, m: Counts)
    requires WellFormed(t) && i < |t| && t[i].kind == AddUniq && |t[i].children| < TWO32 && Printable(t, i)
    requires forall c :: c in t[i].children ==> (Holds(Merged(t, c), m) <==> Truth(t, c, m))
    ensures Holds(Merged(t, i), m) <==> Truth(t, i, m)
  {
    var cs := t[i].children;
    UniqTruth(t, i, m);
    SumForm(t, i);
    PartsListed(t, i);
    hide Merged, MergedAll, Printable, Canonical, Truth, Holds;
    if |cs| == 1 {
      assert cs[0] in cs && forall c :: c in cs ==> c == cs[0];
    } else {
      HoldsGroup(MergedAll(t, cs, i), m);
    }
  }

  lemma {:induction false} ModifierMeaning(t: Table, i: nat, c: nat, m: Counts)
    requires WellFormed(t) && i < |t| && t[i].kind == Eq && t[i].op1 != ALL_ONES && Legible(t, i) && Printable(t, i)
    requires c == t[i].children[0] && c in t[i].children && Printable(t, c)
    requires forall d :: d in t[c].children ==> (Holds(Merged(t, d), m) <==> Truth(t, d, m))
    requires t[i].op0 != t[i].op1 ==> Matches(Merged(t, c), m) == Val(t, c, m)
    ensures Holds(Merged(t, i), m) <==> Truth(t, i, m)
  {
    var cs := t[c].children;
    SumEqTruth(t, i, m);
    TotalsOfVals(t, cs, c, m);
    MatchedBounds(t, cs, m);
    WrapFits(Matched(t, cs, m));
    DistinctPart(t, c, m);
  }

  lemma {:induction false} DistinctPart(t: Table, c: nat, m: Counts)
    requires WellFormed(t) && c < |t| && LegibleTerms(t, c) && Printable(t, c)
    requires forall d :: d in t[c].children ==> (Holds(Merged(t, d), m) <==> Truth(t, d, m))
    ensures Distinct(Merged(t, c), m) == Matched(t, t[c].children, m)
  {
    var cs := t[c].children;
    if |cs| == 1 {
      assert cs[0] in cs && Matched(t, cs, m) == Bit(Truth(t, cs[0], m)) + Matched(t, cs[1..], m);
    } else {
      DistinctMatched(t, cs, MergedAll(t, cs, c), m);
    }
  }

  // ---- which bounds on a sum of conditions read right ----

  // The printed compare of a sum with n holds exactly when the number of its terms that hold is above,
  // or below, n.
  ghost predicate ReadsOver(t: Table, c: nat, n: u32)
    requires Acyclic(t) && Arity(t) && c < |t| && Printable(t, c)
  {
    forall m: Counts :: SumsFit(t, c, m) ==> (Holds(Cmp(Over, Merged(t, c), n, None), m) <==> Val(t, c, m) > n)
  }

  ghost predicate ReadsUnder(t: Table, c: nat, n: u32)
    requires Acyclic(t) && Arity(t) && c < |t| && Printable(t, c)
  {
    forall m: Counts :: SumsFit(t, c, m) ==> (Holds(Cmp(Under, Merged(t, c), n, None), m) <==> Val(t, c, m) < n)
  }

  // Every bound on a sum of conditions reads right exactly when no term ever matches more than once.
  lemma {:induction false} TallyExact(t: Table, c: nat)
    requires WellFormed(t) && c < |t| && t[c].kind == AddUniq && Printable(t, c) && |t[c].children| < TWO32 - 1
    requires forall d :: d in t[c].children ==> Legible(t, d)
    ensures OnceEach(t, c) <==> forall n: u32 :: ReadsOver(t, c, n)
    ensures OnceEach(t, c) <==> forall n: u32 :: ReadsUnder(t, c, n)
  {
    if OnceEach(t, c) {
      forall n: u32 ensures ReadsOver(t, c, n) && ReadsUnder(t, c, n) { OnceReads(t, c, n); }
    } else {
      var d, m: Counts :| d in t[c].children && Printable(t, d) && SumsFit(t, c, m) && Matches(Merged(t, d), m) > 1;
      TwiceMisreads(t, c, d, m);
    }
  }

  lemma {:induction false} OnceReads(t: Table, c: nat, n: u32)
    requires WellFormed(t) && c < |t| && t[c].kind == AddUniq && Printable(t, c) && |t[c].children| < TWO32 - 1
    requires (forall d :: d in t[c].children ==> Legible(t, d)) && OnceEach(t, c)
    ensures ReadsOver(t, c, n) && ReadsUnder(t, c, n)
  {
    forall m: Counts | SumsFit(t, c, m) ensures Val(t, c, m) == Matches(Merged(t, c), m) {
      assert forall d :: d in t[c].children ==> Printable(t, d) && Matches(Merged(t, d), m) <= 1;
      hide Merged, Matches, Holds, Legible, SumsFit, Canonical, Val, Printable;
      TallyMatch(t, c, m);
    }
    hide Merged, Legible, SumsFit, Canonical, Val, Printable;
  }

  lemma {:induction false} TwiceMisreads(t: Table, c: nat, d: nat, m: Counts)
    requires WellFormed(t) && c < |t| && t[c].kind == AddUniq && Printable(t, c) && |t[c].children| < TWO32 - 1
    requires (forall d :: d in t[c].children ==> Legible(t, d)) && SumsFit(t, c, m)
    requires d in t[c].children && Printable(t, d) && Matches(Merged(t, d), m) > 1
    ensures exists n: u32 :: !ReadsOver(t, c, n)
    ensures exists n: u32 :: !ReadsUnder(t, c, n)
  {
    TallyMatch(t, c, m);
    hide Merged, Legible, SumsFit, Canonical, Val, Printable;
    var v := Val(t, c, m);
    assert Matches(Merged(t, c), m) > v;
    assert !ReadsOver(t, c, v);
    assert !ReadsUnder(t, c, v + 1);
  }

  lemma {:induction false} TallyMatch(t: Table, c: nat, m: Counts)
    requires WellFormed(t) && c < |t| && t[c].kind == AddUniq && Printable(t, c) && |t[c].children| < TWO32 - 1
    requires (forall d :: d in t[c].children ==> Legible(t, d)) && SumsFit(t, c, m)
    ensures Val(t, c, m) <= Matches(Merged(t, c), m) && Val(t, c, m) < ALL_ONES
    ensures Val(t, c, m) == Matches(Merged(t, c), m) <==> forall d :: d in t[c].children ==> Matches(Merged(t, d), m) <= 1
  {
    TermsFit(t, c, m);
    hide Merged, MergedAll, Matches, Holds, Legible, SumsFit, Truth, Canonical, Val;
    TermsMeaning(t, c, m);
    SumMatches(t, c, m);
    UniqValue(t, c, m);
  }

  // Counting match counts that are above zero, only the trivial bounds read right.
  lemma {:induction false} PlainBounds(t: Table, c: nat, n: u32)
    requires WellFormed(t) && c < |t| && t[c].kind == AddUniq && PlainCounts(t, c)
    ensures Printable(t, c)
    ensures ReadsOver(t, c, n) <==> n == 0 || (n == ALL_ONES && |t[c].children| == 1)
    ensures ReadsUnder(t, c, n) <==> n <= 1
  {
    PlainPrints(t, c);
    PlainReads(t, c, n);
    hide Merged, Legible, SumsFit, Canonical, Val, Printable, PlainCounts, ReadsOver, ReadsUnder;
    var k := |t[c].children|;
    assert k > 0 by { SomeTerms(t, c); }
    if n > 1 { PlainMisread(t, c, n, n, 1); }
    if 0 < n < ALL_ONES { PlainMisread(t, c, n, n + 1, 1); }
    if n == ALL_ONES && k > 1 { PlainMisread(t, c, n, n, 2); }
  }

  lemma {:induction false} PlainReads(t: Table, c: nat, n: u32)
    requires WellFormed(t) && c < |t| && t[c].kind == AddUniq && PlainCounts(t, c) && Printable(t, c)
    ensures n == 0 || (n == ALL_ONES && |t[c].children| == 1) ==> ReadsOver(t, c, n)
    ensures n <= 1 ==> ReadsUnder(t, c, n)
  {
    hide Merged, MergedAll, Legible, SumsFit, Canonical, Val, Printable, PlainCounts;
    forall m: Counts
      ensures Val(t, c, m) <= Matches(Merged(t, c), m) && (Matches(Merged(t, c), m) > 0 ==> Val(t, c, m) > 0)
      ensures |t[c].children| == 1 ==> Matches(Merged(t, c), m) <= ALL_ONES
    {
      PlainMatches(t, c, m);
    }
  }

  lemma {:induction false} PlainPrints(t: Table, c: nat)
    requires WellFormed(t) && c < |t| && PlainCounts(t, c) && t[c].kind == AddUniq
    ensures Printable(t, c)
  {
    forall d | d in t[c].children ensures Printable(t, d) {}
  }

  lemma {:induction false} PlainMatches(t: Table, c: nat, m: Counts)
    requires WellFormed(t) && c < |t| && t[c].kind == AddUniq && PlainCounts(t, c) && Printable(t, c)
    ensures SumsFit(t, c, m)
    ensures var vs := Vals(t, t[c].children, c, m); Matches(Merged(t, c), m) == Sum(vs) && Val(t, c, m) == Nonzero(vs) <= Sum(vs)
    ensures Matches(Merged(t, c), m) > 0 ==> Val(t, c, m) > 0
    ensures |t[c].children| == 1 ==> Matches(Merged(t, c), m) <= ALL_ONES
  {
    assert SumsFit(t, c, m) by {
      forall d | d in t[c].children ensures SumsFit(t, d, m) {}
    }
    hide SumsFit;
    var vs := Vals(t, t[c].children, c, m);
    CountTotal(t, c, m);
    TotalsOfVals(t, t[c].children, c, m);
    NonzeroBelow(vs);
    WrapFits(Nonzero(vs));
    if |vs| == 1 { assert Sum(vs) == vs[0] + Sum(vs[1..]) && vs[1..] == []; }
  }

  lemma {:induction false} NonzeroBelow(vs: seq<nat>)
    ensures Nonzero(vs) <= Sum(vs) && Nonzero(vs) <= |vs| && (Nonzero(vs) == 0 ==> Sum(vs) == 0)
  {
    if vs != [] { NonzeroBelow(vs[1..]); }
  }

  // Matches all from one signature, or all but one, are not as many different ones.
  lemma {:induction false} PlainMisread(t: Table, c: nat, n: u32, first: u32, y: nat)
    requires WellFormed(t) && c < |t| && t[c].kind == AddUniq && PlainCounts(t, c) && Printable(t, c)
    requires 1 <= y <= |t[c].children| && first > 0
    ensures y <= n < first + y - 1 ==> !ReadsOver(t, c, n)
    ensures y < n <= first + y - 1 ==> !ReadsUnder(t, c, n)
  {
    hide Merged, MergedAll, Legible, SumsFit, Canonical, Val, Printable, PlainCounts;
    var vs := Ones(first, y, |t[c].children|);
    var m := CountsFor(t, c, vs);
    CountsListed(t, c, vs);
    PlainMatches(t, c, m);
    OnesTotal(vs[1..], y - 1);
    assert Matches(Merged(t, c), m) == first + y - 1 && Val(t, c, m) == y;
  }

  lemma {:induction false} PartsMeaning(t: Table, i: nat, m: Counts)
    requires WellFormed(t) && i < |t| && Printable(t, i) && Connective(t[i].kind)
    requires forall c :: c in t[i].children ==> (Holds(Merged(t, c), m) <==> Truth(t, c, m))
    ensures Holds(Merged(t, i), m) <==> Truth(t, i, m)
  {
    var cs := t[i].children;
    var ps := MergedAll(t, cs, i);
    ConnectiveTruth(t, i, m);
    PartsListed(t, i);
    assert Merged(t, i) == (if t[i].kind == And then All(ps) else Any(ps));
    hide Merged, MergedAll, Val, Holds;
    assert (forall p :: p in ps ==> Holds(p, m)) <==> (forall c :: c in cs ==> Truth(t, c, m));
    assert (exists p :: p in ps && Holds(p, m)) <==> (exists c :: c in cs && Truth(t, c, m));
    HoldsGroup(ps, m);
  }

  lemma {:induction false} HoldsGroup(ps: seq<Sig>, m: Counts)
    ensures Holds(All(ps), m) <==> forall p :: p in ps ==> Holds(p, m)
    ensures Holds(Any(ps), m) <==> exists p :: p in ps && Holds(p, m)
  {
  }

  lemma {:induction false} PartsListed(t: Table, i: nat)
    requires WellFormed(t) && i < |t| && Printable(t, i)
    ensures forall c :: c in t[i].children ==> Merged(t, c) in MergedAll(t, t[i].children, i)
    ensures forall p :: p in MergedAll(t, t[i].children, i) ==> exists c :: c in t[i].children && p == Merged(t, c)
  {
    hide Merged;
    var cs := t[i].children;
    var ps := MergedAll(t, cs, i);
    forall c | c in cs ensures Merged(t, c) in ps { var k :| 0 <= k < |cs| && cs[k] == c; assert ps[k] == Merged(t, c); }
    forall p | p in ps ensures exists c :: c in cs && p == Merged(t, c) {
      var k :| 0 <= k < |ps| && ps[k] == p;
      assert cs[k] in cs;
    }
  }

  // ---- room for the sums ----

  // Without a sum of several terms there is always room.
  lemma {:induction false} OneTermFits(t: Table, i: nat, m: Counts)
    requires Acyclic(t) && Arity(t) && OneTerm(t) && i < |t|
    ensures SumsFit(t, i, m)
    decreases i
  {
    forall c | c in t[i].children ensures SumsFit(t, c, m) { OneTermFits(t, c, m); }
    if t[i].kind != SubSignature && !TermsOnly(t, i) && (t[i].kind == AddSum || t[i].kind == AddBoth) {
      var cs := t[i].children;
      if cs != [] { assert cs[0] in cs; assert cs[1..] == [] && Total(t, cs, m) == Val(t, cs[0], m) + Total(t, cs[1..], m); }
    } else if TermsOnly(t, i) {
      var c := t[i].children[0];
      assert c in t[i].children;
      forall d | d in t[c].children ensures SumsFit(t, d, m) { OneTermFits(t, d, m); }
    }
  }

  lemma {:induction false} PartsFit(t: Table, i: nat, m: Counts)
    requires WellFormed(t) && i < |t| && (Additive(t[i].kind) || Connective(t[i].kind)) && Printable(t, i) && Fits(Merged(t, i), m)
    ensures forall c :: c in t[i].children ==> Fits(Merged(t, c), m)
  {
    var cs := t[i].children;
    PartsListed(t, i);
    var ps := MergedAll(t, cs, i);
    if Additive(t[i].kind) { SumForm(t, i); }
    assert Merged(t, i) == if t[i].kind == And then All(ps) else if Additive(t[i].kind) && |cs| == 1 then ps[0] else Any(ps);
    hide Merged, MergedAll, Printable, Canonical;
    forall c | c in cs ensures Fits(Merged(t, c), m) {
      assert Merged(t, c) in ps;
      if |cs| == 1 && Additive(t[i].kind) { assert c == cs[0]; }
    }
  }

  lemma {:induction false} TotalFits(t: Table, c: nat, m: Counts)
    requires WellFormed(t) && c < |t| && (t[c].kind == AddSum || t[c].kind == AddBoth) && (Countable(t, c) || Tally(t, c))
    requires Printable(t, c) && Fits(Merged(t, c), m)
    ensures Total(t, t[c].children, m) < TWO32
  {
    var cs := t[c].children;
    if Countable(t, c) {
      CountTotal(t, c, m);
      SumForm(t, c);
      if |cs| == 1 { assert cs[0] in cs; }
    } else {
      MatchedBounds(t, cs, m);
      TotalsOfVals(t, cs, c, m);
      ConditionTotal(t, c, m);
    }
  }

  // A bound is on something legible.
  lemma {:induction false} BoundLegible(t: Table, c: nat)
    requires WellFormed(t) && c < |t| && (Countable(t, c) || Tally(t, c))
    ensures Legible(t, c)
  {
  }

  // A signature whose lists have room has room for all its sums.
  lemma {:induction false} FitsSums(t: Table, i: nat, m: Counts)
    requires WellFormed(t) && i < |t| && Legible(t, i) && Printable(t, i) && Fits(Merged(t, i), m)
    ensures SumsFit(t, i, m)
    decreases i
  {
    var n := t[i];
    if Connective(n.kind) || Additive(n.kind) {
      assert forall c :: c in n.children ==> Legible(t, c);
      if n.kind == AddSum || n.kind == AddBoth { TotalFits(t, i, m); }
      PartsFit(t, i, m);
      hide Merged, Legible, Canonical, Countable, Tally;
      forall c | c in n.children ensures SumsFit(t, c, m) { FitsSums(t, c, m); }
    } else if Unary(n.kind) {
      var c := n.children[0];
      assert c in n.children && n.children == [c];
      assert Fits(Merged(t, c), m);
      if TermsOnly(t, i) {
        assert LegibleTerms(t, c);
        PartsFit(t, c, m);
        hide Merged, Canonical, Countable, Tally;
        forall d | d in t[c].children ensures SumsFit(t, d, m) { FitsSums(t, d, m); }
      } else {
        assert Countable(t, c) || Tally(t, c);
        BoundLegible(t, c);
        hide Merged, Legible, Canonical, Countable, Tally;
        FitsSums(t, c, m);
      }
    }
  }

  // ---- what tables in shape print as ----

  lemma {:induction false} ShapedMeasure(t: Table, c: nat)
    requires WellFormed(t) && Shaped(t) && Measure(t, c) && forall d :: d in t[c].children ==> Legible(t, d)
    ensures Countable(t, c) || Tally(t, c)
  {
    assert ShapedNode(t, t[c]);
    if Tallied(t, c) { SingleOnce(t, c); }
  }

  // =Y,Y reads its terms one by one, and =X,Y besides the total of match counts.
  lemma {:induction false} ShapedTerms(t: Table, c: nat)
    requires WellFormed(t) && Shaped(t) && c < |t| && t[c].kind == AddBoth && OfTerms(t, t[c].children)
    requires forall d :: d in t[c].children ==> Legible(t, d)
    ensures LegibleTerms(t, c) && (OfCounts(t, t[c].children) ==> Countable(t, c))
  {
    assert t[c].children[0] in t[c].children;
  }

  lemma {:induction false} ShapedLegible(t: Table, i: nat)
    requires WellFormed(t) && Shaped(t) && Usable(t, i)
    ensures Legible(t, i)
  {
    assert ShapedNode(t, t[i]);
    if t[i].kind == Eq || t[i].kind == Gt || t[i].kind == Lt {
      var c := t[i].children[0];
      assert c in t[i].children && ShapedNode(t, t[c]);
      forall d | d in t[c].children ensures Legible(t, d) { ShapedLegible(t, d); }
      if t[i].op1 == ALL_ONES { ShapedMeasure(t, c); } else { ShapedTerms(t, c); }
    } else if Connective(t[i].kind) || Additive(t[i].kind) {
      forall c | c in t[i].children ensures Legible(t, c) { ShapedLegible(t, c); }
      if t[i].kind == AddSum || t[i].kind == AddBoth { ShapedMeasure(t, i); }
    }
  }

  // Only the constants, and offsets that are taken for conditions, reach the printer's failing case.
  lemma {:induction false} ShapedPrintable(t: Table, i: nat)
    requires WellFormed(t) && Shaped(t) && i < |t| && t[i].kind != Add && !Constant(t[i].kind)
    ensures Printable(t, i)
  {
    assert ShapedNode(t, t[i]) && FlatAt(t, i);
    forall c | c in t[i].children ensures Printable(t, c) { ShapedPrintable(t, c); }
  }

  // ---- when the printer's failing case is reached ----

  // Entry j is part of the expression i.
  ghost predicate Reaches(t: Table, i: nat, j: nat)
    requires Acyclic(t) && i < |t|
    decreases i
  {
    j == i || exists c :: c in t[i].children && Reaches(t, c, j)
  }

  // Kinds without a printed form, and lists without an element.
  predicate Unprinted(n: Node) {
    n.kind == Not || n.kind == Add || Constant(n.kind) || (n.kind != SubSignature && n.children == [])
  }

  lemma {:induction false} PrintableExact(t: Table, i: nat)
    requires Acyclic(t) && i < |t|
    ensures Printable(t, i) <==> !exists j :: 0 <= j < |t| && Reaches(t, i, j) && Unprinted(t[j])
  {
    forall c | c in t[i].children
      ensures Printable(t, c) <==> !exists j :: 0 <= j < |t| && Reaches(t, c, j) && Unprinted(t[j])
    {
      PrintableExact(t, c);
    }
    if Printable(t, i) {
      forall j | 0 <= j < |t| && Reaches(t, i, j) ensures !Unprinted(t[j]) {
        if j != i {
          var c :| c in t[i].children && Reaches(t, c, j);
          assert Printable(t, c);
        }
      }
    } else if !Unprinted(t[i]) {
      var c :| c in t[i].children && !Printable(t, c);
      var j :| 0 <= j < |t| && Reaches(t, c, j) && Unprinted(t[j]);
      assert Reaches(t, i, j);
    } else {
      assert Reaches(t, i, i);
    }
  }
}

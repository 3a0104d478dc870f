// The part of LLVM's 32-bit ConstantRange that ordered compares of "count + offset" go through.
module WrappedRanges {
  import opened Words

  // Values from lower up to but excluding upper, going round through zero.
  // (0, 0) is the empty range and (~0, ~0) the full one.
  datatype Range = Range(lower: u32, upper: u32) {
    function Subtract(c: u32): Range {
      if lower == upper then this else Range(Minus(lower, c), Minus(upper, c))
    }

    predicate Full() { lower == upper == ALL_ONES }

    function Min(): u32 {
      if Full() || (lower > upper && upper != 0) then 0 else lower
    }

    function Max(): u32 {
      if Full() || lower > upper then ALL_ONES else Minus(upper, 1)
    }

    // Membership in the interval the fold keeps: [Min, Max].
    predicate Kept(a: u32) { Min() <= a <= Max() }
  }

  // makeSatisfyingICmpRegion for "unsigned below" and "unsigned above" a single value
  function Below(b: u32): Range { Range(0, b) }

  function Above(b: u32): Range { if b == ALL_ONES then Range(0, 0) else Range(b + 1, 0) }

  // The offset can be moved across the compare without going round through zero.
  predicate LtFolds(c: u32, b: u32) { c == 0 || c >= b }

  predicate GtFolds(c: u32, b: u32) { b != ALL_ONES && c <= b + 1 }

  // a + c < b folded to an interval for a: never loses a value, exact in one case only.
  lemma {:induction false} LtFoldExact(c: u32, b: u32)
    requires b != 0
    ensures forall a: u32 :: Plus(a, c) < b ==> Below(b).Subtract(c).Kept(a)
    ensures (forall a: u32 :: Below(b).Subtract(c).Kept(a) ==> Plus(a, c) < b) <==> LtFolds(c, b)
    ensures !LtFolds(c, b) ==> Below(b).Subtract(c).Min() == 0 && Below(b).Subtract(c).Max() == ALL_ONES
  {
    if !LtFolds(c, b) {
      var out: u32 := b - c;
      assert Below(b).Subtract(c).Kept(out) && Plus(out, c) == b;
    }
  }

  // a + c > b likewise.
  lemma {:induction false} GtFoldExact(c: u32, b: u32)
    requires b != 0
    ensures forall a: u32 :: Plus(a, c) > b ==> Above(b).Subtract(c).Kept(a)
    ensures (forall a: u32 :: Above(b).Subtract(c).Kept(a) ==> Plus(a, c) > b) <==> GtFolds(c, b)
    ensures !GtFolds(c, b) ==> Above(b).Subtract(c).Min() == 0 && Above(b).Subtract(c).Max() == ALL_ONES
  {
    if !GtFolds(c, b) {
      var out: u32 := Minus(0, c);
      assert Above(b).Subtract(c).Kept(out) && Plus(out, c) == 0;
    }
  }
}

// Machine words, optional results and the few sequence facts every other module leans on.
module Words {
  const TWO32: nat := 0x1_0000_0000

  type u32 = x: int | 0 <= x < 0x1_0000_0000

  // ~0u, the default operand of a logical node.
  const ALL_ONES: u32 := 0xFFFF_FFFF

  datatype Option<+T> = None | Some(value: T)

  // 32-bit addition and subtraction wrap round.
  function Plus(a: u32, b: u32): u32 {
    if a + b < TWO32 then a + b else a + b - TWO32
  }

  function Minus(a: u32, b: u32): (r: u32)
    ensures Plus(r, b) == a
  {
    if a >= b then a - b else a - b + TWO32
  }

  // An unbounded total kept in 32 bits.
  function Wrap(n: nat): u32 {
    if n < TWO32 then n else Wrap(n - TWO32)
  }

  lemma {:induction false} WrapPlus(a: nat, b: nat)
    ensures Wrap(a + b) == Plus(Wrap(a), Wrap(b))
    decreases a + b
  {
    if a >= TWO32 {
      WrapPlus(a - TWO32, b);
    } else if b >= TWO32 {
      WrapPlus(a, b - TWO32);
    }
  }

  function Bit(b: bool): u32 { if b then 1 else 0 }

  function Sum(xs: seq<nat>): nat {
    if xs == [] then 0 else xs[0] + Sum(xs[1..])
  }

  // The number of nonzero entries.
  function Nonzero(xs: seq<nat>): nat {
    if xs == [] then 0 else (if xs[0] != 0 then 1 else 0) + Nonzero(xs[1..])
  }

  lemma {:induction false} TailIn<T>(xs: seq<T>)
    requires xs != []
    ensures xs[0] in xs && forall x :: x in xs[1..] ==> x in xs
    ensures xs == [xs[0]] + xs[1..] && multiset(xs) == multiset{xs[0]} + multiset(xs[1..])
  {
    assert xs == [xs[0]] + xs[1..];
  }

  ghost predicate Unique<T>(xs: seq<T>) {
    forall i, j :: 0 <= i < j < |xs| ==> xs[i] != xs[j]
  }

  // A set written out in some order, without repetition.
  method Enumerate(s: set<nat>) returns (xs: seq<nat>)
    ensures |xs| == |s|
    ensures Unique(xs)
    ensures forall x :: x in xs <==> x in s
  {
    xs := [];
    var rest := s;
    while rest != {}
      invariant rest <= s
      invariant |xs| + |rest| == |s|
      invariant forall x :: x in xs <==> x in s && x !in rest
      invariant Unique(xs)
      decreases |rest|
    {
      var x :| x in rest;
      rest := rest - {x};
      xs := xs + [x];
    }
  }

  // Distinct numbers below a bound are no more than the bound.
  lemma {:induction false} UniqueBounded(xs: seq<nat>, n: nat)
    requires Unique(xs) && forall x :: x in xs ==> x < n
    ensures |xs| <= n
    decreases n
  {
    if xs == [] {
      return;
    }
    assert xs[0] in xs;
    if k :| 0 <= k < |xs| && xs[k] == n - 1 {
      var rest := xs[..k] + xs[k + 1..];
      forall x | x in rest ensures x < n - 1 {
        var j :| 0 <= j < |rest| && rest[j] == x;
        var j' := if j < k then j else j + 1;
        assert x == xs[j'] && xs[j'] in xs && xs[j'] != xs[k];
      }
      UniqueBounded(rest, n - 1);
    } else {
      UniqueBounded(xs, n - 1);
    }
  }

  // The numbers below n.
  ghost function Numbers(n: nat): (s: set<nat>)
    ensures |s| == n
    ensures forall d: nat :: d in s <==> d < n
  {
    if n == 0 then {}
    else
      var rest := Numbers(n - 1);
      assert n - 1 !in rest;
      rest + {n - 1}
  }

  lemma {:induction false} SubsetSize<T>(a: set<T>, b: set<T>)
    requires a <= b
    ensures |a| <= |b| && (a != b ==> |a| < |b|)
  {
    if a != {} {
      var x :| x in a;
      SubsetSize(a - {x}, b - {x});
    }
  }

  lemma {:induction false} Regroup<T>(a: seq<T>, b: seq<T>, c: seq<T>)
    ensures a + (b + c) == a + b + c
  {
  }

  // ---- products and remainders ----

  lemma {:induction false} Scale(x: int, k: int)
    requires x >= 0 && k >= 1
    ensures x * k >= x
  {
  }

  lemma {:induction false} Multiple(d: int, m: int)
    requires m > 0 && d != 0
    ensures d * m >= m || d * m <= -m
  {
    if d >= 1 { Scale(m, d); } else { Scale(m, -d); }
  }

  // A remainder is recognised by being in range and a multiple away.
  lemma {:induction false} ModShift(x: int, k: int, m: int, v: int)
    requires 0 <= v < m && x == v + k * m
    ensures x % m == v
  {
    var q, r := x / m, x % m;
    assert (q - k) * m == q * m - k * m;
    if q != k { Multiple(q - k, m); }
  }
}

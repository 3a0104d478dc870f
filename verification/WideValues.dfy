// What an integer goes through in a 64-bit phi.
module WideValues {
  import opened Words
  import opened FlowProgram

  const WIDE: nat := 64

  // A constant is read as unsigned and capped.
  function Limited(v: int): int { if v >= Pow2(WIDE) then Pow2(WIDE) - 1 else v }

  lemma {:induction false} Pow2Sum(a: nat, b: nat)
    ensures Pow2(a + b) == Pow2(a) * Pow2(b)
  {
    if a > 0 {
      Pow2Sum(a - 1, b);
      assert Pow2(a + b) == 2 * Pow2(a - 1 + b);
    }
  }

  lemma {:induction false} Pow2Order(a: nat, b: nat)
    requires a < b
    ensures 2 * Pow2(a) <= Pow2(b)
  {
    Pow2Sum(a + 1, b - a - 1);
    Scale(Pow2(a + 1), Pow2(b - a - 1));
  }

  lemma {:induction false} NarrowBack(v: int, a: int, m: int, k: int)
    requires 0 <= v < a && m == k * a
    ensures v % a == v && (v + m - a) % a == v
  {
    ModShift(v, 0, a, v);
    assert (k - 1) * a == m - a;
    ModShift(v + m - a, k - 1, a, v);
  }

  lemma {:induction false} BroadBack(v: int, a: int, m: int, h: int, k: int)
    requires 0 <= v < a && m == 2 * h && a == k * m && a >= 2 * m && h > 0
    ensures var u := v % m; (if u < h then u else u + a - m) == v <==> v < h || v >= a - h
  {
    assert (k - 1) * m == a - m;
    if v < h {
      ModShift(v, 0, m, v);
    } else if v >= a - h {
      ModShift(v, k - 1, m, v - a + m);
    }
  }

  // Sign-extending to 64 bits and truncating back gives the value, and so does keeping a constant.
  lemma {:induction false} NarrowRoundTrip(v: int, w: nat)
    requires 0 < w < WIDE && 0 <= v < Pow2(w)
    ensures Resize(Resize(v, w, WIDE), WIDE, w) == v && Resize(Limited(v), WIDE, w) == v
  {
    hide Pow2;
    Pow2Order(w, WIDE);
    Pow2Sum(WIDE - w, w);
    NarrowBack(v, Pow2(w), Pow2(WIDE), Pow2(WIDE - w));
  }

  // Beyond 64 bits a value survives exactly when its upper bits repeat its 64-bit sign.
  lemma {:induction false} BroadRoundTrip(v: int, w: nat)
    requires w > WIDE && 0 <= v < Pow2(w)
    ensures Resize(Resize(v, w, WIDE), WIDE, w) == v
       <==> v < Pow2(WIDE - 1) || v >= Pow2(w) - Pow2(WIDE - 1)
  {
    hide Pow2;
    Pow2Order(WIDE, w);
    Pow2Sum(w - WIDE, WIDE);
    Pow2Sum(1, WIDE - 1);
    assert Pow2(1) == 2 by { Pow2One(); }
    BroadBack(v, Pow2(w), Pow2(WIDE), Pow2(WIDE - 1), Pow2(w - WIDE));
  }

  lemma {:induction false} Pow2One()
    ensures Pow2(1) == 2
  {
  }

  // A constant survives exactly when it is below the 64-bit sign or has all bits set.
  lemma {:induction false} BroadConstant(v: int, w: nat)
    requires w > WIDE && 0 <= v < Pow2(w)
    ensures Resize(Limited(v), WIDE, w) == v <==> v < Pow2(WIDE - 1) || v == Pow2(w) - 1
  {
    Pow2Order(WIDE - 1, WIDE);
    Pow2Order(WIDE, w);
    assert Pow2(WIDE) == 2 * Pow2(WIDE - 1);
    hide Pow2;
  }
}

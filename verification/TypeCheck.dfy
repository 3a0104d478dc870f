// The check that an interface type is laid out alike on every target.
module TypeCheck {
  import opened Words
  import opened TypeLayout

  // Every nested type still has a size when sizes are kept in 32 bits.
  ghost predicate Counted(t: Type)
    decreases t
  {
    && PackedSize(t) % TWO32 != 0
    && (t.Array? ==> Counted(t.element))
    && (t.Struct? ==> forall k :: 0 <= k < |t.fields| ==> Counted(t.fields[k]))
  }

  // What the check stands for.
  ghost predicate Acceptable(t: Type) { Plain(t) && NoPadding(NATURAL, t) && Counted(t) }

  // x & (m - 1), for m a power of two.
  function LowBits(x: nat, m: nat): nat
    requires m > 0
  {
    x % m
  }

  lemma {:induction false} LowBitsWrapped(x: nat, m: nat)
    requires Power(m)
    ensures LowBits(x % TWO32, m) == x % m
  {
    var c := Quotient(m, 8);
    Recombine(x, m, c * 0x2000_0000);
  }

  lemma {:induction false} Recombine(x: nat, m: nat, c: nat)
    requires m > 0 && c > 0
    ensures (x % (c * m)) % m == x % m
  {
    var q, rest := x / (c * m), x % (c * m);
    assert x == q * (c * m) + rest == (q * c) * m + rest;
    assert rest == (rest / m) * m + rest % m;
    assert (q * c) * m + (rest / m) * m == (q * c + rest / m) * m;
    ModShift(x, q * c + rest / m, m, rest % m);
  }

  lemma {:induction false} WrapProduct(n: nat, x: nat)
    ensures (n * (x % TWO32)) % TWO32 == (n * x) % TWO32
  {
    var q, e := x / TWO32, x % TWO32;
    var r := (n * e) % TWO32;
    assert n * x == (n * q) * TWO32 + n * e;
    ModShift(n * x, n * q + (n * e) / TWO32, TWO32, r);
  }

  // The fields before k are acceptable and each stands at a multiple of its alignment.
  ghost predicate FieldsOk(fields: seq<Type>, packed: bool, k: nat)
    requires k <= |fields|
  {
    && (forall i :: 0 <= i < k ==> Acceptable(fields[i]))
    && (packed || forall i :: 0 <= i < k ==> FieldAligned(fields, i))
  }

  ghost predicate FieldAligned(fields: seq<Type>, i: nat)
    requires i < |fields| && Plain(fields[i])
  {
    PackedEnd(fields, i) % AlignOf(NATURAL, fields[i]) == 0
  }

  // The largest alignment seen, as the check keeps it.
  ghost function Seen(fields: seq<Type>, packed: bool, k: nat): (r: nat)
    requires k <= |fields| && FieldsOk(fields, packed, k)
    ensures Power(r)
  {
    if k == 0 || packed then 1 else Max(Seen(fields, packed, k - 1), AlignOf(NATURAL, fields[k - 1]))
  }

  lemma {:induction false} SeenAligns(fields: seq<Type>, packed: bool, k: nat)
    requires k <= |fields| && FieldsOk(fields, packed, |fields|)
    ensures Seen(fields, packed, k) == if packed then 1 else FieldsAlign(NATURAL, fields, k)
  {
    hide AlignOf, SizeOf, NoPadding, Counted, PackedEnd, PackedSize;
    if k > 0 { SeenAligns(fields, packed, k - 1); }
  }

  lemma {:induction false} FieldsPlain(fields: seq<Type>, packed: bool)
    requires FieldsOk(fields, packed, |fields|)
    ensures forall i :: 0 <= i < |fields| ==> Plain(fields[i]) && NoPadding(NATURAL, fields[i])
  {
    hide AlignOf, SizeOf, NoPadding, PackedEnd, Plain;
    forall i | 0 <= i < |fields| ensures Plain(fields[i]) && NoPadding(NATURAL, fields[i]) { assert Acceptable(fields[i]); }
  }

  lemma {:induction false} EndUnfolds(fields: seq<Type>, packed: bool, k: nat)
    requires k <= |fields| && forall i :: 0 <= i < |fields| ==> Plain(fields[i])
    ensures EndOf(NATURAL, fields, packed, k)
         == if k == 0 then 0 else FieldOffset(NATURAL, fields, packed, k - 1) + SizeOf(NATURAL, fields[k - 1])
    ensures PackedEnd(fields, k) == if k == 0 then 0 else PackedEnd(fields, k - 1) + PackedSize(fields[k - 1])
  {
    hide FieldOffset, SizeOf, PackedSize;
  }

  lemma {:induction false} FieldsEnd(fields: seq<Type>, packed: bool, k: nat)
    requires k <= |fields| && FieldsOk(fields, packed, |fields|)
    ensures EndOf(NATURAL, fields, packed, k) == PackedEnd(fields, k)
    decreases k
  {
    FieldsPlain(fields, packed);
    EndUnfolds(fields, packed, k);
    hide FieldsOk, AlignOf, SizeOf, NoPadding, PackedSize, EndOf, FieldOffset, PackedEnd, Plain;
    if k > 0 {
      FieldsEnd(fields, packed, k - 1);
      FieldStarts(fields, packed, k - 1);
      UnpaddedSize(NATURAL, fields[k - 1]);
    }
  }

  lemma {:induction false} FieldStarts(fields: seq<Type>, packed: bool, k: nat)
    requires k < |fields| && FieldsOk(fields, packed, |fields|) && EndOf(NATURAL, fields, packed, k) == PackedEnd(fields, k)
    ensures FieldOffset(NATURAL, fields, packed, k) == PackedEnd(fields, k)
  {
    hide AlignOf, SizeOf, NoPadding, Counted, EndOf, PackedEnd;
    assert packed || FieldAligned(fields, k);
  }

  // What the loop over the fields and the check after it establish.
  lemma {:induction false} StructAcceptable(fields: seq<Type>, packed: bool)
    ensures Acceptable(Struct(fields, packed))
       <==> FieldsOk(fields, packed, |fields|) && PackedEnd(fields, |fields|) % Seen(fields, packed, |fields|) == 0
              && PackedEnd(fields, |fields|) % TWO32 != 0
  {
    hide AlignOf, SizeOf, NoPadding, PackedSize, Counted;
    if FieldsOk(fields, packed, |fields|) {
      StructHolds(fields, packed);
    } else if Acceptable(Struct(fields, packed)) {
      StructFails(fields, packed);
    }
  }

  lemma {:induction false} StructFails(fields: seq<Type>, packed: bool)
    requires Acceptable(Struct(fields, packed))
    ensures FieldsOk(fields, packed, |fields|)
  {
    var t := Struct(fields, packed);
    forall k | 0 <= k < |fields| ensures Acceptable(fields[k]) && (packed || FieldAligned(fields, k)) {
      assert Counted(fields[k]) && NoPadding(NATURAL, fields[k]);
      assert FieldOffset(NATURAL, fields, packed, k) == EndOf(NATURAL, fields, packed, k);
      UnpaddedEnd(NATURAL, t, k);
    }
  }

  lemma {:induction false} StructHolds(fields: seq<Type>, packed: bool)
    requires FieldsOk(fields, packed, |fields|)
    ensures Acceptable(Struct(fields, packed))
       <==> PackedEnd(fields, |fields|) % Seen(fields, packed, |fields|) == 0 && PackedEnd(fields, |fields|) % TWO32 != 0
  {
    SeenAligns(fields, packed, |fields|);
    forall k | 0 <= k < |fields|
      ensures FieldOffset(NATURAL, fields, packed, k) == EndOf(NATURAL, fields, packed, k)
    {
      FieldsEnd(fields, packed, k);
      FieldStarts(fields, packed, k);
    }
    FieldsEnd(fields, packed, |fields|);
    StructTight(fields, packed);
  }

  lemma {:induction false} RoundUpExact(x: nat, a: nat)
    requires a > 0
    ensures RoundUp(x, a) == x <==> x % a == 0
  {
  }

  lemma {:induction false} StructTight(fields: seq<Type>, packed: bool)
    requires FieldsOk(fields, packed, |fields|) && EndOf(NATURAL, fields, packed, |fields|) == PackedEnd(fields, |fields|)
    requires forall k :: 0 <= k < |fields| ==> FieldOffset(NATURAL, fields, packed, k) == EndOf(NATURAL, fields, packed, k)
    ensures var t := Struct(fields, packed);
      Acceptable(t) <==> PackedEnd(fields, |fields|) % AlignOf(NATURAL, t) == 0 && PackedEnd(fields, |fields|) % TWO32 != 0
  {
    hide AlignOf, EndOf, FieldOffset, PackedEnd, RoundUp;
    RoundUpExact(PackedEnd(fields, |fields|), AlignOf(NATURAL, Struct(fields, packed)));
    assert forall k :: 0 <= k < |fields| ==> Acceptable(fields[k]);
  }

  // Size in bytes and largest alignment, or size 0 for a type that is not accepted.
  method CheckTypeSize(t: Type) returns (size: u32, maxAlign: nat)
    ensures size != 0 <==> Acceptable(t)
    ensures size != 0 ==> size == PackedSize(t) % TWO32 && maxAlign == AlignOf(NATURAL, t)
    ensures maxAlign > 0
    decreases t
  {
    maxAlign := 1;
    match t {
      case Int(bits) =>
        if !Simple(bits) { return 0, 1; }
        return bits / 8, bits / 8;
      case Pointer =>
        return 0, 1;
      case Array(count, element) =>
        var e;
        e, maxAlign := CheckTypeSize(element);
        if e == 0 { return 0, maxAlign; }
        WrapProduct(count, PackedSize(element));
        return (count * e) % TWO32, maxAlign;
      case Struct(fields, packed) =>
        size, maxAlign := CheckFields(fields, packed);
    }
  }

  // The loop over the fields of a struct.
  method CheckFields(fields: seq<Type>, packed: bool) returns (size: u32, maxAlign: nat)
    ensures size != 0 <==> Acceptable(Struct(fields, packed))
    ensures size != 0 ==> size == PackedEnd(fields, |fields|) % TWO32 && maxAlign == AlignOf(NATURAL, Struct(fields, packed))
    ensures maxAlign > 0
    decreases fields
  {
    hide Acceptable, PackedSize, AlignOf, LowBits, FieldsOk, Seen, PackedEnd;
    size, maxAlign := 0, 1;
    var valid := true;
    var k := 0;
    NoFields(fields, packed);
    EndStart(fields);
    while k < |fields|
      invariant 0 <= k <= |fields| && maxAlign > 0
      invariant valid <==> FieldsOk(fields, packed, k)
      invariant valid ==> size == PackedEnd(fields, k) % TWO32 && maxAlign == Seen(fields, packed, k)
    {
      var s, m := CheckTypeSize(fields[k]);
      FieldStep(fields, packed, k, m);
      EndNext(fields, k);
      if s == 0 { valid := false; }
      if !packed {
        if m > maxAlign { maxAlign := m; }
        if LowBits(size, m) != 0 {
          size := (size + LowBits(size, m)) % TWO32;
          valid := false;
        }
      }
      size := (size + s) % TWO32;
      k := k + 1;
    }
    EndStep(fields, packed);
    if LowBits(size, maxAlign) != 0 { valid := false; }
    StructAcceptable(fields, packed);
    if !valid { size := 0; }
  }

  lemma {:induction false} EndStart(fields: seq<Type>)
    ensures PackedEnd(fields, 0) == 0
  {
  }

  // The end of one more field, in 32 bits.
  lemma {:induction false} EndNext(fields: seq<Type>, k: nat)
    requires k < |fields|
    ensures (PackedEnd(fields, k) % TWO32 + PackedSize(fields[k]) % TWO32) % TWO32 == PackedEnd(fields, k + 1) % TWO32
  {
    hide PackedSize;
    assert PackedEnd(fields, k + 1) == PackedEnd(fields, k) + PackedSize(fields[k]);
  }

  lemma {:induction false} NoFields(fields: seq<Type>, packed: bool)
    ensures FieldsOk(fields, packed, 0) && Seen(fields, packed, 0) == 1
  {
  }

  lemma {:induction false} FieldStep(fields: seq<Type>, packed: bool, k: nat, m: nat)
    requires k < |fields| && (Acceptable(fields[k]) ==> m == AlignOf(NATURAL, fields[k]))
    ensures FieldsOk(fields, packed, k + 1)
       <==> FieldsOk(fields, packed, k) && Acceptable(fields[k]) && (packed || LowBits(PackedEnd(fields, k) % TWO32, m) == 0)
    ensures FieldsOk(fields, packed, k + 1) ==>
      Seen(fields, packed, k + 1) == if packed then 1 else Max(Seen(fields, packed, k), m)
    ensures packed && FieldsOk(fields, packed, k) ==> Seen(fields, packed, k) == 1
  {
    hide Acceptable, PackedEnd, AlignOf, LowBits;
    if Acceptable(fields[k]) {
      AcceptableAlign(fields[k], PackedEnd(fields, k));
      assert FieldAligned(fields, k) <==> LowBits(PackedEnd(fields, k) % TWO32, m) == 0;
    }
  }

  lemma {:induction false} AcceptableAlign(t: Type, x: nat)
    requires Acceptable(t)
    ensures Plain(t) && Power(AlignOf(NATURAL, t)) && LowBits(x % TWO32, AlignOf(NATURAL, t)) == x % AlignOf(NATURAL, t)
  {
    LowBitsWrapped(x, AlignOf(NATURAL, t));
  }

  lemma {:induction false} EndStep(fields: seq<Type>, packed: bool)
    ensures FieldsOk(fields, packed, |fields|) ==>
      var e, a := PackedEnd(fields, |fields|), Seen(fields, packed, |fields|);
      LowBits(e % TWO32, a) == e % a && Plain(Struct(fields, packed)) && a == AlignOf(NATURAL, Struct(fields, packed))
  {
    hide PackedEnd, LowBits;
    if FieldsOk(fields, packed, |fields|) {
      LowBitsWrapped(PackedEnd(fields, |fields|), Seen(fields, packed, |fields|));
      StructAlign(fields, packed);
    }
  }

  lemma {:induction false} StructAlign(fields: seq<Type>, packed: bool)
    requires FieldsOk(fields, packed, |fields|)
    ensures Plain(Struct(fields, packed)) && AlignOf(NATURAL, Struct(fields, packed)) == Seen(fields, packed, |fields|)
  {
    SeenAligns(fields, packed, |fields|);
  }

  // What the check accepts is exactly what no target pads, as long as 32 bits hold a size.
  lemma {:induction false} AcceptableExact(t: Type)
    ensures Acceptable(t) <==> Plain(t) && Counted(t) && forall a: Target :: TargetOk(a) ==> NoPadding(a, t)
  {
    if Acceptable(t) {
      forall a: Target | TargetOk(a) ensures NoPadding(a, t) { UnpaddedEverywhere(a, t); }
    } else if Plain(t) && Counted(t) {
      assert TargetOk(NATURAL);
    }
  }
}

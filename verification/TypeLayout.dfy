// How a target lays out nested structs and arrays of integers.
module TypeLayout {
  import opened Words

  datatype Type = Int(bits: nat) | Pointer | Array(count: nat, element: Type) | Struct(fields: seq<Type>, packed: bool)

  // The alignment a target gives to an integer of so many bytes.
  type Target = nat -> nat

  predicate Power(x: nat) { x == 1 || x == 2 || x == 4 || x == 8 }

  // Alignments are powers of two no larger than the integer.
  ghost predicate TargetOk(a: Target) {
    a(1) == 1 && Power(a(2)) && a(2) <= 2 && Power(a(4)) && a(4) <= 4 && Power(a(8))
  }

  // Every integer aligned to its size: the strictest target.
  const NATURAL: Target := bytes => bytes

  predicate Simple(bits: nat) { bits == 8 || bits == 16 || bits == 32 || bits == 64 }

  // Integers of 8, 16, 32 or 64 bits and nests of structs and arrays of them.
  predicate Plain(t: Type) {
    match t
    case Int(bits) => Simple(bits)
    case Pointer => false
    case Array(_, element) => Plain(element)
    case Struct(fields, _) => forall k :: 0 <= k < |fields| ==> Plain(fields[k])
  }

  function RoundUp(x: nat, a: nat): (r: nat)
    requires a > 0
    ensures x <= r < x + a && r % a == 0
  {
    var rest := x % a;
    if rest == 0 then x
    else
      Raised(x, a);
      x + (a - rest)
  }

  lemma {:induction false} Raised(x: nat, a: nat)
    requires a > 0
    ensures (x + (a - x % a)) % a == 0
  {
    var q := x / a;
    ModShift(x + (a - x % a), q + 1, a, 0);
  }

  function Max(a: nat, b: nat): nat { if a > b then a else b }

  function AlignOf(a: Target, t: Type): (r: nat)
    requires TargetOk(a) && Plain(t)
    ensures Power(r)
    decreases t, 0
  {
    match t
    case Int(bits) => a(bits / 8)
    case Array(_, element) => AlignOf(a, element)
    case Struct(fields, packed) => if packed then 1 else FieldsAlign(a, fields, |fields|)
  }

  // The largest alignment among the first k fields.
  function FieldsAlign(a: Target, fields: seq<Type>, k: nat): (r: nat)
    requires TargetOk(a) && k <= |fields| && forall i :: 0 <= i < |fields| ==> Plain(fields[i])
    ensures Power(r)
    decreases fields, k
  {
    if k == 0 then 1 else Max(FieldsAlign(a, fields, k - 1), AlignOf(a, fields[k - 1]))
  }

  function SizeOf(a: Target, t: Type): nat
    requires TargetOk(a) && Plain(t)
    decreases t, 1
  {
    match t
    case Int(bits) => bits / 8
    case Array(count, element) => count * SizeOf(a, element)
    case Struct(fields, packed) => RoundUp(EndOf(a, fields, packed, |fields|), AlignOf(a, t))
  }

  function FieldAlign(a: Target, field: Type, packed: bool): (r: nat)
    requires TargetOk(a) && Plain(field)
    ensures Power(r)
  {
    if packed then 1 else AlignOf(a, field)
  }

  // Where the first k fields end.
  function EndOf(a: Target, fields: seq<Type>, packed: bool, k: nat): nat
    requires TargetOk(a) && k <= |fields| && forall i :: 0 <= i < |fields| ==> Plain(fields[i])
    decreases fields, k, 0
  {
    if k == 0 then 0 else FieldOffset(a, fields, packed, k - 1) + SizeOf(a, fields[k - 1])
  }

  function FieldOffset(a: Target, fields: seq<Type>, packed: bool, k: nat): nat
    requires TargetOk(a) && k < |fields| && forall i :: 0 <= i < |fields| ==> Plain(fields[i])
    decreases fields, k, 1
  {
    RoundUp(EndOf(a, fields, packed, k), FieldAlign(a, fields[k], packed))
  }

  // ---- layouts without padding ----

  function PackedSize(t: Type): nat
    decreases t, 0
  {
    match t
    case Int(bits) => bits / 8
    case Pointer => 0
    case Array(count, element) => count * PackedSize(element)
    case Struct(fields, _) => PackedEnd(fields, |fields|)
  }

  function PackedEnd(fields: seq<Type>, k: nat): nat
    requires k <= |fields|
    decreases fields, k
  {
    if k == 0 then 0 else PackedEnd(fields, k - 1) + PackedSize(fields[k - 1])
  }

  // No byte of padding anywhere in a type.
  ghost predicate NoPadding(a: Target, t: Type)
    requires TargetOk(a) && Plain(t)
  {
    match t
    case Int(_) => true
    case Array(_, element) => NoPadding(a, element)
    case Struct(fields, packed) =>
      && (forall k :: 0 <= k < |fields| ==> NoPadding(a, fields[k]))
      && (forall k :: 0 <= k < |fields| ==> FieldOffset(a, fields, packed, k) == EndOf(a, fields, packed, k))
      && SizeOf(a, t) == EndOf(a, fields, packed, |fields|)
  }

  lemma {:induction false} UnpaddedSize(a: Target, t: Type)
    requires TargetOk(a) && Plain(t) && NoPadding(a, t)
    ensures SizeOf(a, t) == PackedSize(t)
    decreases t, 0
  {
    match t
    case Int(_) =>
    case Array(_, element) => UnpaddedSize(a, element);
    case Struct(fields, packed) => UnpaddedEnd(a, t, |fields|);
  }

  lemma {:induction false} UnpaddedEnd(a: Target, t: Type, k: nat)
    requires t.Struct? && TargetOk(a) && Plain(t) && NoPadding(a, t) && k <= |t.fields|
    ensures EndOf(a, t.fields, t.packed, k) == PackedEnd(t.fields, k)
    decreases t.fields, k
  {
    if k > 0 {
      UnpaddedEnd(a, t, k - 1);
      UnpaddedSize(a, t.fields[k - 1]);
    }
  }

  ghost predicate Divides(x: nat, y: nat) { Power(x) && Power(y) && x <= y }

  lemma {:induction false} AlignDivides(a: Target, t: Type)
    requires TargetOk(a) && Plain(t)
    ensures Divides(AlignOf(a, t), AlignOf(NATURAL, t))
    decreases t, 0
  {
    match t
    case Int(_) =>
    case Array(_, element) => AlignDivides(a, element);
    case Struct(fields, packed) => if !packed { FieldsAlignDivides(a, fields, |fields|); }
  }

  lemma {:induction false} FieldsAlignDivides(a: Target, fields: seq<Type>, k: nat)
    requires TargetOk(a) && k <= |fields| && forall i :: 0 <= i < |fields| ==> Plain(fields[i])
    ensures Divides(FieldsAlign(a, fields, k), FieldsAlign(NATURAL, fields, k))
    decreases fields, k
  {
    if k > 0 {
      FieldsAlignDivides(a, fields, k - 1);
      AlignDivides(a, fields[k - 1]);
    }
  }

  lemma {:induction false} MultipleOfPart(x: nat, part: nat, c: nat)
    requires part > 0 && c > 0 && x % (c * part) == 0
    ensures x % part == 0
  {
    var q := x / (c * part);
    assert x == q * (c * part) == (q * c) * part;
    ModShift(x, q * c, part, 0);
  }

  lemma {:induction false} Quotient(small: nat, big: nat) returns (c: nat)
    requires Divides(small, big)
    ensures c > 0 && big == c * small
  {
    c := if small == big then 1 else if small == 1 then big else if small == 2 then big / 2 else 2;
  }

  lemma {:induction false} AlignedMore(x: nat, small: nat, big: nat)
    requires Divides(small, big)
    ensures RoundUp(x, big) == x ==> RoundUp(x, small) == x
  {
    var c := Quotient(small, big);
    if x % big == 0 { MultipleOfPart(x, small, c); }
  }

  // What has no padding on the strictest target has none on any, so its layout is the same everywhere.
  lemma {:induction false} UnpaddedEverywhere(a: Target, t: Type)
    requires TargetOk(a) && Plain(t) && NoPadding(NATURAL, t)
    ensures NoPadding(a, t)
    decreases t, 0
  {
    match t
    case Int(_) =>
    case Array(_, element) => UnpaddedEverywhere(a, element);
    case Struct(fields, packed) =>
      forall k | 0 <= k < |fields| ensures NoPadding(a, fields[k]) { UnpaddedEverywhere(a, fields[k]); }
      forall k | 0 <= k < |fields| ensures FieldOffset(a, fields, packed, k) == EndOf(a, fields, packed, k) {
        FieldUnpadded(a, t, k);
      }
      EndUnpadded(a, t, |fields|);
      AlignDivides(a, t);
      AlignedMore(EndOf(NATURAL, fields, packed, |fields|), AlignOf(a, t), AlignOf(NATURAL, t));
  }

  lemma {:induction false} EndUnpadded(a: Target, t: Type, k: nat)
    requires t.Struct? && TargetOk(a) && Plain(t) && NoPadding(NATURAL, t) && k <= |t.fields|
    requires forall i :: 0 <= i < |t.fields| ==> NoPadding(a, t.fields[i])
    ensures EndOf(a, t.fields, t.packed, k) == EndOf(NATURAL, t.fields, t.packed, k)
    decreases t.fields, k, 0
  {
    if k > 0 {
      FieldUnpadded(a, t, k - 1);
      UnpaddedSize(a, t.fields[k - 1]);
      UnpaddedSize(NATURAL, t.fields[k - 1]);
    }
  }

  lemma {:induction false} FieldUnpadded(a: Target, t: Type, k: nat)
    requires t.Struct? && TargetOk(a) && Plain(t) && NoPadding(NATURAL, t) && k < |t.fields|
    requires forall i :: 0 <= i < |t.fields| ==> NoPadding(a, t.fields[i])
    ensures FieldOffset(a, t.fields, t.packed, k) == EndOf(a, t.fields, t.packed, k)
         == FieldOffset(NATURAL, t.fields, t.packed, k)
    decreases t.fields, k, 1
  {
    EndUnpadded(a, t, k);
    AlignDivides(a, t.fields[k]);
    AlignedMore(EndOf(NATURAL, t.fields, t.packed, k), FieldAlign(a, t.fields[k], t.packed), FieldAlign(NATURAL, t.fields[k], t.packed));
  }

  // ---- nested elements ----

  // The type a list of index values leads to.
  function ElementAt(t: Type, path: seq<int>): (r: Option<Type>)
    ensures Plain(t) && r.Some? ==> Plain(r.value)
    decreases path
  {
    if path == [] then Some(t)
    else match t
      case Array(_, element) => ElementAt(element, path[1..])
      case Struct(fields, _) => if 0 <= path[0] < |fields| then ElementAt(fields[path[0]], path[1..]) else None
      case Int(_) => None
      case Pointer => None
  }

  // And how many bytes in it stands.
  function OffsetAt(a: Target, t: Type, path: seq<int>): int
    requires TargetOk(a) && Plain(t) && ElementAt(t, path).Some?
    decreases path
  {
    if path == [] then 0
    else match t
      case Array(_, element) => path[0] * SizeOf(a, element) + OffsetAt(a, element, path[1..])
      case Struct(fields, packed) => FieldOffset(a, fields, packed, path[0]) + OffsetAt(a, fields[path[0]], path[1..])
  }

  // Array indices stay below the element count.
  ghost predicate Within(t: Type, path: seq<int>)
    requires ElementAt(t, path).Some?
    decreases path
  {
    path == [] || match t
      case Array(count, element) => 0 <= path[0] < count && Within(element, path[1..])
      case Struct(fields, _) => Within(fields[path[0]], path[1..])
  }

  // An unpadded type has every nested element at the same place on every target.
  lemma {:induction false} SameEverywhere(a: Target, t: Type, path: seq<int>)
    requires TargetOk(a) && Plain(t) && NoPadding(NATURAL, t) && ElementAt(t, path).Some?
    ensures OffsetAt(a, t, path) == OffsetAt(NATURAL, t, path)
    ensures SizeOf(a, ElementAt(t, path).value) == PackedSize(ElementAt(t, path).value)
    decreases path
  {
    if path == [] {
      UnpaddedEverywhere(a, t);
      UnpaddedSize(a, t);
    } else {
      match t
      case Array(_, element) =>
        UnpaddedEverywhere(a, element);
        UnpaddedSize(a, element);
        UnpaddedSize(NATURAL, element);
        SameEverywhere(a, element, path[1..]);
      case Struct(fields, _) =>
        forall k | 0 <= k < |fields| ensures NoPadding(a, fields[k]) { UnpaddedEverywhere(a, fields[k]); }
        FieldUnpadded(a, t, path[0]);
        SameEverywhere(a, fields[path[0]], path[1..]);
    }
  }

  lemma {:induction false} FieldsApart(a: Target, t: Type, i: nat, k: nat)
    requires t.Struct? && TargetOk(a) && Plain(t) && i < k <= |t.fields|
    ensures FieldOffset(a, t.fields, t.packed, i) + SizeOf(a, t.fields[i]) <= EndOf(a, t.fields, t.packed, k)
    decreases k
  {
    hide SizeOf, AlignOf;
    if i < k - 1 { FieldsApart(a, t, i, k - 1); }
  }

  lemma {:induction false} ElementsApart(n: int, k: int, size: nat)
    requires n < k
    ensures n * size + size <= k * size
  {
    Scale(size, k - n);
    assert (k - n) * size == k * size - n * size;
  }

  // An element within bounds lies inside the object.
  lemma {:induction false} ElementInside(a: Target, t: Type, path: seq<int>)
    requires TargetOk(a) && Plain(t) && ElementAt(t, path).Some? && Within(t, path)
    ensures 0 <= OffsetAt(a, t, path) && OffsetAt(a, t, path) + SizeOf(a, ElementAt(t, path).value) <= SizeOf(a, t)
    decreases path
  {
    if path != [] {
      match t
      case Array(count, element) =>
        ElementInside(a, element, path[1..]);
        ElementsApart(path[0], count, SizeOf(a, element));
        Nonnegative(path[0], SizeOf(a, element));
      case Struct(fields, packed) =>
        ElementInside(a, fields[path[0]], path[1..]);
        FieldsApart(a, t, path[0], |fields|);
    }
  }

  lemma {:induction false} Nonnegative(x: int, y: nat)
    requires x >= 0
    ensures x * y >= 0
  {
  }

  lemma {:induction false} PrefixTail(p: seq<int>, q: seq<int>)
    requires p != [] && q != [] && p[0] == q[0]
    ensures p[1..] <= q[1..] ==> p <= q
  {
    if p[1..] <= q[1..] {
      assert p == [p[0]] + p[1..] && q == [q[0]] + q[1..];
    }
  }

  // Two elements within bounds, neither inside the other, share no byte.
  lemma {:induction false} ElementsDisjoint(a: Target, t: Type, p: seq<int>, q: seq<int>)
    requires TargetOk(a) && Plain(t) && ElementAt(t, p).Some? && Within(t, p) && ElementAt(t, q).Some? && Within(t, q)
    requires !(p <= q) && !(q <= p)
    ensures OffsetAt(a, t, p) + SizeOf(a, ElementAt(t, p).value) <= OffsetAt(a, t, q)
         || OffsetAt(a, t, q) + SizeOf(a, ElementAt(t, q).value) <= OffsetAt(a, t, p)
    decreases p
  {
    if p[0] == q[0] {
      PrefixTail(p, q);
      PrefixTail(q, p);
      match t
      case Array(_, element) => ElementsDisjoint(a, element, p[1..], q[1..]);
      case Struct(fields, _) => ElementsDisjoint(a, fields[p[0]], p[1..], q[1..]);
    } else {
      StartsApart(a, t, p, q);
    }
  }

  lemma {:induction false} StartsApart(a: Target, t: Type, p: seq<int>, q: seq<int>)
    requires TargetOk(a) && Plain(t) && ElementAt(t, p).Some? && Within(t, p) && ElementAt(t, q).Some? && Within(t, q)
    requires p != [] && q != [] && p[0] != q[0]
    ensures OffsetAt(a, t, p) + SizeOf(a, ElementAt(t, p).value) <= OffsetAt(a, t, q)
         || OffsetAt(a, t, q) + SizeOf(a, ElementAt(t, q).value) <= OffsetAt(a, t, p)
  {
    match t
    case Array(count, element) =>
      ElementInside(a, element, p[1..]);
      ElementInside(a, element, q[1..]);
      if p[0] < q[0] { ElementsApart(p[0], q[0], SizeOf(a, element)); } else { ElementsApart(q[0], p[0], SizeOf(a, element)); }
    case Struct(fields, packed) =>
      ElementInside(a, fields[p[0]], p[1..]);
      ElementInside(a, fields[q[0]], q[1..]);
      if p[0] < q[0] { FieldsApart(a, t, p[0], q[0]); } else { FieldsApart(a, t, q[0], p[0]); }
  }
}

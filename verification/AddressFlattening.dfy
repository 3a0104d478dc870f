// Element addresses into structs become byte offsets.
module AddressFlattening {
  import opened Words
  import opened FlowProgram
  import opened TypeLayout

  // A constant index is held as an unsigned word, any other is computed at run time.
  datatype Index = Fixed(v: nat) | Varying(x: nat)

  // The code that computes an offset.
  datatype Code = Const(v: int) | Read(i: Index) | Mul(l: Code, r: Code) | Add(l: Code, r: Code)

  // Run-time index values, signed.
  type Values = nat -> int

  function Signed(v: nat, w: nat): int
    requires w > 0
  {
    if v < Pow2(w - 1) then v else v - Pow2(w)
  }

  function IndexValue(i: Index, w: nat, env: Values): int
    requires w > 0
  {
    match i
    case Fixed(v) => Signed(v, w)
    case Varying(x) => env(x)
  }

  function IndexValues(idxs: seq<Index>, w: nat, env: Values): seq<int>
    requires w > 0
  {
    seq(|idxs|, k requires 0 <= k < |idxs| => IndexValue(idxs[k], w, env))
  }

  // Offsets are computed in words of w bits.
  function Compute(c: Code, w: nat, env: Values): int
    requires w > 0
  {
    match c
    case Const(v) => v % Pow2(w)
    case Read(i) => IndexValue(i, w, env) % Pow2(w)
    case Mul(l, r) => (Compute(l, w, env) * Compute(r, w, env)) % Pow2(w)
    case Add(l, r) => (Compute(l, w, env) + Compute(r, w, env)) % Pow2(w)
  }

  // What an element address may be given: constants for struct fields, anything for arrays.
  predicate Indexable(t: Type, idxs: seq<Index>, w: nat)
    requires w > 0
    decreases idxs
  {
    idxs == [] || match t
      case Array(_, element) => Indexable(element, idxs[1..], w)
      case Struct(fields, _) => idxs[0].Fixed? && idxs[0].v < |fields| && idxs[0].v < Pow2(w - 1) && Indexable(fields[idxs[0].v], idxs[1..], w)
      case Int(_) => false
      case Pointer => false
  }

  // Pointers, at the bottom of arrays or alone.
  predicate EndsInPointer(t: Type) {
    match t
    case Pointer => true
    case Array(_, element) => EndsInPointer(element)
    case Int(_) => false
    case Struct(_, _) => false
  }

  // A size in bits, where the pass can tell it.
  function SizeInBits(a: Target, t: Type): (r: Option<int>)
    requires TargetOk(a) && Plain(t)
    ensures r.Some? ==> r.value == 8 * SizeOf(a, t)
  {
    match t
    case Int(bits) => Some(bits)
    case Pointer => None
    case Array(count, element) =>
      var e := SizeInBits(a, element);
      if e.Some? && count * e.value != 0 then Some(count * e.value) else None
    case Struct(_, _) => Some(8 * SizeOf(a, t))
  }

  // All have one but pointers, arrays of pointers, and arrays that take no space.
  lemma {:induction false} SizedExactly(a: Target, t: Type)
    requires TargetOk(a) && Plain(t)
    ensures SizeInBits(a, t).Some? <==> !EndsInPointer(t) && (t.Array? ==> SizeOf(a, t) != 0)
  {
    if t.Array? {
      SizedExactly(a, t.element);
      SizedProduct(t.count, SizeOf(a, t.element));
    }
  }

  lemma {:induction false} SizedProduct(count: nat, size: int)
    requires size >= 0
    ensures count * (8 * size) != 0 <==> count * size != 0
  {
  }

  // The offset of one constant index, unless an assertion stops the pass.
  function ComputeOffsetInBytes(a: Target, t: Type, idx: nat): Option<int>
    requires TargetOk(a) && Plain(t)
  {
    match t
    case Struct(fields, packed) => if idx < |fields| then Some(FieldOffset(a, fields, packed, idx)) else None
    case Array(count, element) =>
      var e := SizeInBits(a, element);
      if idx <= count && e.Some? then Some(idx * (e.value / 8)) else None
    case Int(_) => None
    case Pointer => None
  }

  function FindTypeAtIndex(t: Type, idx: nat): Option<Type> {
    match t
    case Struct(fields, _) => if idx < |fields| then Some(fields[idx]) else None
    case Array(_, element) => Some(element)
    case Int(_) => None
    case Pointer => None
  }

  // No zero-sized array element on the way, and no constant beyond an array's end.
  predicate Flattenable(a: Target, t: Type, idxs: seq<Index>, w: nat)
    requires TargetOk(a) && Plain(t) && w > 0 && Indexable(t, idxs, w)
    decreases idxs
  {
    idxs == [] || match t
      case Array(count, element) =>
        (idxs[0].Fixed? ==> idxs[0].v <= count) && SizeInBits(a, element).Some? && Flattenable(a, element, idxs[1..], w)
      case Struct(fields, _) => Flattenable(a, fields[idxs[0].v], idxs[1..], w)
  }

  lemma {:induction false} IndexableElement(t: Type, idxs: seq<Index>, w: nat, env: Values)
    requires w > 0 && Indexable(t, idxs, w)
    ensures ElementAt(t, IndexValues(idxs, w, env)).Some?
    decreases idxs
  {
    if idxs != [] {
      assert IndexValues(idxs, w, env)[1..] == IndexValues(idxs[1..], w, env);
      match t
      case Array(_, element) => IndexableElement(element, idxs[1..], w, env);
      case Struct(fields, _) => IndexableElement(fields[idxs[0].v], idxs[1..], w, env);
    }
  }

  // The offset the getelementptr instruction stands for, the first index counting whole objects.
  function AddressOffset(a: Target, t: Type, idxs: seq<Index>, w: nat, env: Values): int
    requires TargetOk(a) && Plain(t) && w > 0 && idxs != [] && Indexable(t, idxs[1..], w)
  {
    IndexableElement(t, idxs[1..], w, env);
    IndexValue(idxs[0], w, env) * SizeOf(a, t) + OffsetAt(a, t, IndexValues(idxs[1..], w, env))
  }

  // ---- arithmetic of words ----

  lemma {:induction false} WordSum(x: int, y: int, m: int)
    requires m > 0
    ensures (x % m + y % m) % m == (x + y) % m
  {
    var r := x % m + y % m;
    assert x + y == r + (x / m + y / m) * m;
    assert r == r % m + (r / m) * m;
    assert x + y == r % m + (x / m + y / m + r / m) * m;
    ModShift(x + y, x / m + y / m + r / m, m, r % m);
  }

  lemma {:induction false} WordProduct(x: int, y: int, m: int)
    requires m > 0
    ensures (x % m * (y % m)) % m == (x * y) % m
  {
    var p, q, e, f := x / m, y / m, x % m, y % m;
    var r := e * f;
    var k := p * y + e * q;
    assert x * y == (p * m + e) * y == (p * y) * m + e * y;
    assert e * y == e * (q * m + f) == (e * q) * m + e * f;
    assert (p * y) * m + (e * q) * m == k * m;
    assert x * y == r % m + (k + r / m) * m by { assert (k + r / m) * m == k * m + (r / m) * m; }
    ModShift(x * y, k + r / m, m, r % m);
  }

  lemma {:induction false} ProductShift(v: int, size: int, m: int)
    requires m > 0
    ensures ((v - m) * size) % m == (v * size) % m
  {
    var x := (v - m) * size;
    assert x == v * size - m * size == v * size - size * m;
    assert v * size == x % m + (x / m + size) * m by { assert (x / m + size) * m == (x / m) * m + size * m; }
    ModShift(v * size, x / m + size, m, x % m);
  }

  // A constant's unsigned and signed readings count the same.
  lemma {:induction false} SignedProduct(v: nat, size: int, w: nat)
    requires w > 0
    ensures (v * size) % Pow2(w) == (Signed(v, w) * size) % Pow2(w)
  {
    hide Pow2;
    ProductShift(v, size, Pow2(w));
  }

  // ---- the loop over the indices ----

  // The next type the loop looks at: it keeps the old one behind an integer.
  function Next(t: Type, element: Type): Type { if element.Struct? || element.Array? then element else t }

  // What one index adds, in terms of its value.
  function StepAt(a: Target, t: Type, value: int): int
    requires TargetOk(a) && Plain(t) && ElementAt(t, [value]).Some?
  {
    match t
    case Array(_, element) => value * SizeOf(a, element)
    case Struct(fields, packed) => FieldOffset(a, fields, packed, value)
  }

  lemma {:induction false} StepSplits(a: Target, t: Type, idxs: seq<Index>, w: nat, env: Values)
    requires TargetOk(a) && Plain(t) && w > 0 && idxs != [] && Indexable(t, idxs, w)
    ensures var element := if t.Array? then t.element else t.fields[idxs[0].v];
      && Plain(element) && Indexable(Next(t, element), idxs[1..], w)
      && ElementAt(t, [IndexValue(idxs[0], w, env)]).Some?
      && ElementAt(t, IndexValues(idxs, w, env)).Some? && ElementAt(Next(t, element), IndexValues(idxs[1..], w, env)).Some?
      && OffsetAt(a, t, IndexValues(idxs, w, env))
           == StepAt(a, t, IndexValue(idxs[0], w, env)) + OffsetAt(a, Next(t, element), IndexValues(idxs[1..], w, env))
  {
    hide SizeOf, FieldOffset;
    var element := if t.Array? then t.element else t.fields[idxs[0].v];
    IndexableElement(t, idxs, w, env);
    assert IndexValues(idxs, w, env)[1..] == IndexValues(idxs[1..], w, env);
    assert [IndexValue(idxs[0], w, env)][1..] == [];
    if Next(t, element) != element { assert idxs[1..] == []; }
    IndexableElement(Next(t, element), idxs[1..], w, env);
  }

  lemma {:induction false} StepFlattens(a: Target, t: Type, idxs: seq<Index>, w: nat)
    requires TargetOk(a) && Plain(t) && w > 0 && idxs != [] && Indexable(t, idxs, w)
    ensures var element := if t.Array? then t.element else t.fields[idxs[0].v];
      && Plain(element) && Indexable(Next(t, element), idxs[1..], w)
      && (Flattenable(a, t, idxs, w) <==>
            && (t.Array? ==> (idxs[0].Fixed? ==> idxs[0].v <= t.count) && SizeInBits(a, element).Some?)
            && Flattenable(a, Next(t, element), idxs[1..], w))
  {
    var element := if t.Array? then t.element else t.fields[idxs[0].v];
    if Next(t, element) != element { assert idxs[1..] == []; }
  }

  // The code for one index computes what the index adds.
  lemma {:induction false} AddendComputes(a: Target, t: Type, i: Index, w: nat, env: Values)
    requires TargetOk(a) && Plain(t) && w > 0 && ElementAt(t, [IndexValue(i, w, env)]).Some?
    requires t.Struct? ==> i.Fixed? && i.v < Pow2(w - 1)
    ensures t.Struct? ==> Compute(Const(FieldOffset(a, t.fields, t.packed, i.v)), w, env) == StepAt(a, t, IndexValue(i, w, env)) % Pow2(w)
    ensures t.Array? && i.Fixed? ==>
      Compute(Const(i.v * SizeOf(a, t.element)), w, env) == StepAt(a, t, IndexValue(i, w, env)) % Pow2(w)
    ensures t.Array? && i.Varying? ==>
      Compute(Mul(Const(SizeOf(a, t.element)), Read(i)), w, env) == StepAt(a, t, IndexValue(i, w, env)) % Pow2(w)
  {
    hide SizeOf, FieldOffset, Pow2;
    if t.Array? {
      if i.Fixed? { SignedProduct(i.v, SizeOf(a, t.element), w); }
      else { WordProduct(SizeOf(a, t.element), env(i.x), Pow2(w)); }
    }
  }

  // With the loop at index k, the code so far computes all but what the remaining indices add.
  ghost predicate PartialAt(a: Target, root: Type, idxs: seq<Index>, w: nat, cnt: Code, curr: Type, k: nat, env: Values)
    requires TargetOk(a) && Plain(root) && w > 0 && 1 <= k <= |idxs| && Indexable(root, idxs[1..], w) && Plain(curr)
  {
    var rest := IndexValues(idxs[k..], w, env);
    ElementAt(curr, rest).Some? &&
    Compute(cnt, w, env) == (AddressOffset(a, root, idxs, w, env) - OffsetAt(a, curr, rest)) % Pow2(w)
  }

  ghost predicate Partial(a: Target, root: Type, idxs: seq<Index>, w: nat, cnt: Code, curr: Type, k: nat)
    requires TargetOk(a) && Plain(root) && w > 0 && 1 <= k <= |idxs| && Indexable(root, idxs[1..], w) && Plain(curr)
  {
    forall env: Values :: PartialAt(a, root, idxs, w, cnt, curr, k, env)
  }

  // The code for one index of a given type.
  ghost predicate AddendFor(a: Target, t: Type, i: Index, addend: Code)
    requires TargetOk(a) && Plain(t)
  {
    match t
    case Array(_, element) => addend == if i.Fixed? then Const(i.v * SizeOf(a, element)) else Mul(Const(SizeOf(a, element)), Read(i))
    case Struct(fields, packed) => i.Fixed? && i.v < |fields| && addend == Const(FieldOffset(a, fields, packed, i.v))
    case Int(_) => false
    case Pointer => false
  }

  lemma {:induction false} Starts(a: Target, root: Type, idxs: seq<Index>, w: nat)
    requires TargetOk(a) && Plain(root) && w > 0 && idxs != [] && Indexable(root, idxs[1..], w)
    ensures Partial(a, root, idxs, w, Mul(Const(SizeOf(a, root)), Read(idxs[0])), root, 1)
  {
    var cnt := Mul(Const(SizeOf(a, root)), Read(idxs[0]));
    forall env: Values ensures PartialAt(a, root, idxs, w, cnt, root, 1, env) {
      StartsAt(a, root, idxs, w, env);
    }
  }

  lemma {:induction false} StartsAt(a: Target, root: Type, idxs: seq<Index>, w: nat, env: Values)
    requires TargetOk(a) && Plain(root) && w > 0 && idxs != [] && Indexable(root, idxs[1..], w)
    ensures PartialAt(a, root, idxs, w, Mul(Const(SizeOf(a, root)), Read(idxs[0])), root, 1, env)
  {
    hide SizeOf, Pow2, OffsetAt, IndexValue;
    IndexableElement(root, idxs[1..], w, env);
    var size, v := SizeOf(a, root), IndexValue(idxs[0], w, env);
    assert Compute(Mul(Const(size), Read(idxs[0])), w, env) == (size * v) % Pow2(w) by { WordProduct(size, v, Pow2(w)); }
    assert size * v == v * size;
  }

  lemma {:induction false} Advances(a: Target, root: Type, idxs: seq<Index>, w: nat, cnt: Code, curr: Type, k: nat, addend: Code)
    requires TargetOk(a) && Plain(root) && w > 0 && 1 <= k < |idxs| && Indexable(root, idxs[1..], w)
    requires Plain(curr) && Indexable(curr, idxs[k..], w) && Partial(a, root, idxs, w, cnt, curr, k)
    requires AddendFor(a, curr, idxs[k], addend)
    ensures var element := if curr.Array? then curr.element else curr.fields[idxs[k].v];
      Plain(element) && Partial(a, root, idxs, w, Add(cnt, addend), Next(curr, element), k + 1)
  {
    hide SizeOf, FieldOffset, Pow2, OffsetAt, StepAt, Partial, AddressOffset;
    var element := if curr.Array? then curr.element else curr.fields[idxs[k].v];
    assert idxs[k..][0] == idxs[k] && idxs[k..][1..] == idxs[k + 1..];
    StepFlattens(a, curr, idxs[k..], w);
    var cnt', next, k' := Add(cnt, addend), Next(curr, element), k + 1;
    forall env: Values ensures PartialAt(a, root, idxs, w, cnt', next, k', env) {
      PartialUse(a, root, idxs, w, cnt, curr, k, env);
      AdvancesAt(a, root, idxs, w, cnt, curr, k, addend, env);
    }
    PartialAll(a, root, idxs, w, cnt', next, k');
  }

  lemma {:induction false} AdvancesAt(a: Target, root: Type, idxs: seq<Index>, w: nat, cnt: Code, curr: Type, k: nat, addend: Code, env: Values)
    requires TargetOk(a) && Plain(root) && w > 0 && 1 <= k < |idxs| && Indexable(root, idxs[1..], w)
    requires Plain(curr) && Indexable(curr, idxs[k..], w) && PartialAt(a, root, idxs, w, cnt, curr, k, env)
    requires AddendFor(a, curr, idxs[k], addend)
    ensures var element := if curr.Array? then curr.element else curr.fields[idxs[k].v];
      Plain(element) && PartialAt(a, root, idxs, w, Add(cnt, addend), Next(curr, element), k + 1, env)
  {
    hide SizeOf, FieldOffset, Pow2, OffsetAt, StepAt, AddressOffset, IndexValues, ElementAt, Next, Plain, TargetOk;
    assert idxs[k..][0] == idxs[k] && idxs[k..][1..] == idxs[k + 1..];
    IndexableFixed(curr, idxs[k..], w);
    StepSplits(a, curr, idxs[k..], w, env);
    AddendComputes(a, curr, idxs[k], w, env);
    var before := AddressOffset(a, root, idxs, w, env) - OffsetAt(a, curr, IndexValues(idxs[k..], w, env));
    var step := StepAt(a, curr, IndexValue(idxs[k], w, env));
    assert Compute(addend, w, env) == step % Pow2(w);
    WordStep(before, step, Compute(cnt, w, env), Compute(addend, w, env), Pow2(w));
  }

  lemma {:induction false} WordStep(x: int, y: int, cx: int, cy: int, m: int)
    requires m > 0 && cx == x % m && cy == y % m
    ensures (cx + cy) % m == (x + y) % m
  {
    WordSum(x, y, m);
  }

  lemma {:induction false} IndexableFixed(t: Type, idxs: seq<Index>, w: nat)
    requires w > 0 && idxs != [] && Indexable(t, idxs, w)
    ensures t.Struct? ==> idxs[0].Fixed? && idxs[0].v < |t.fields| && idxs[0].v < Pow2(w - 1)
  {
  }

  lemma {:induction false} PartialUse(a: Target, root: Type, idxs: seq<Index>, w: nat, cnt: Code, curr: Type, k: nat, env: Values)
    requires TargetOk(a) && Plain(root) && w > 0 && 1 <= k <= |idxs| && Indexable(root, idxs[1..], w) && Plain(curr)
    requires Partial(a, root, idxs, w, cnt, curr, k)
    ensures PartialAt(a, root, idxs, w, cnt, curr, k, env)
  {
  }

  lemma {:induction false} PartialAll(a: Target, root: Type, idxs: seq<Index>, w: nat, cnt: Code, curr: Type, k: nat)
    requires TargetOk(a) && Plain(root) && w > 0 && 1 <= k <= |idxs| && Indexable(root, idxs[1..], w) && Plain(curr)
    requires forall env: Values :: PartialAt(a, root, idxs, w, cnt, curr, k, env)
    ensures Partial(a, root, idxs, w, cnt, curr, k)
  {
  }

  lemma {:induction false} Ends(a: Target, root: Type, idxs: seq<Index>, w: nat, cnt: Code, curr: Type)
    requires TargetOk(a) && Plain(root) && w > 0 && idxs != [] && Indexable(root, idxs[1..], w) && Plain(curr)
    requires Partial(a, root, idxs, w, cnt, curr, |idxs|)
    ensures forall env :: Compute(cnt, w, env) == AddressOffset(a, root, idxs, w, env) % Pow2(w)
  {
    hide SizeOf, Pow2, AddressOffset;
    forall env: Values ensures Compute(cnt, w, env) == AddressOffset(a, root, idxs, w, env) % Pow2(w) {
      assert PartialAt(a, root, idxs, w, cnt, curr, |idxs|, env);
      assert IndexValues(idxs[|idxs|..], w, env) == [];
    }
  }

  // Rewrites one element address; stopped assertions give nothing.
  method ProcessGEPI(a: Target, root: Type, idxs: seq<Index>, w: nat) returns (code: Option<Code>)
    requires TargetOk(a) && Plain(root) && root.Struct? && w > 0 && idxs != [] && Indexable(root, idxs[1..], w)
    ensures code.Some? <==> SizeOf(a, root) != 0 && Flattenable(a, root, idxs[1..], w)
    ensures code.Some? ==> forall env :: Compute(code.value, w, env) == AddressOffset(a, root, idxs, w, env) % Pow2(w)
  {
    hide SizeOf, FieldOffset, Pow2, Partial, Flattenable, AddressOffset;
    var size := SizeInBits(a, root).value / 8;
    if size == 0 { return None; }
    var cnt := Mul(Const(size), Read(idxs[0]));
    var curr, k := root, 1;
    Starts(a, root, idxs, w);
    while k < |idxs|
      invariant 1 <= k <= |idxs| && Plain(curr) && Indexable(curr, idxs[k..], w)
      invariant Flattenable(a, root, idxs[1..], w) <==> Flattenable(a, curr, idxs[k..], w)
      invariant Partial(a, root, idxs, w, cnt, curr, k)
    {
      var i := idxs[k];
      assert idxs[k..][0] == i && idxs[k..][1..] == idxs[k + 1..];
      StepFlattens(a, curr, idxs[k..], w);
      var addend;
      var element;
      if i.Fixed? {
        var val := ComputeOffsetInBytes(a, curr, i.v);
        if val.None? { return None; }
        addend, element := Const(val.value), FindTypeAtIndex(curr, i.v).value;
      } else {
        var bits := SizeInBits(a, curr.element);
        if bits.None? { return None; }
        addend, element := Mul(Const(bits.value / 8), Read(i)), curr.element;
      }
      Advances(a, root, idxs, w, cnt, curr, k, addend);
      cnt, curr := Add(cnt, addend), Next(curr, element);
      k := k + 1;
    }
    Ends(a, root, idxs, w, cnt, curr);
    Flattened(a, curr, w);
    assert idxs[k..] == [];
    code := Some(cnt);
  }

  lemma {:induction false} Flattened(a: Target, t: Type, w: nat)
    requires TargetOk(a) && Plain(t) && w > 0
    ensures Indexable(t, [], w) && Flattenable(a, t, [], w)
  {
  }
}

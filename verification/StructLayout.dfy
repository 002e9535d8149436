/** Structure and union layout: src/ctypes/ctypes_structs_computed.ml:10-68, over `sizeof`
    and `alignment` of src/ctypes/ctypes_static.ml:128-156. */
module StructLayout {
  import opened CtypesStatic
  import opened Arithmetic

  /** Sizes and alignments the C compiler reports. */
  datatype Target = Target(primSize: Prim -> nat, primAlign: Prim -> nat, pointerSize: nat, pointerAlign: nat)

  function Product(dims: seq<nat>): nat { if dims == [] then 1 else dims[0] * Product(dims[1..]) }

  function SizeOf(tg: Target, t: Typ): Result<nat> {
    match t
    case Void => Raises(IncompleteType)
    case Primitive(p) => Ok(tg.primSize(p))
    case Struct(_, spec, _) => if spec.Some? then Ok(spec.value.size) else Raises(IncompleteType)
    case Union(_, spec, _) => if spec.Some? then Ok(spec.value.size) else Raises(IncompleteType)
    case Array(ty, n) => (match SizeOf(tg, ty) case Ok(s) => Ok(n * s) case Raises(e) => Raises(e))
    case Bigarray(p, dims) => Ok(Product(dims) * tg.primSize(p))
    case Abstract(_, size, _) => Ok(size)
    case Pointer(_) => Ok(tg.pointerSize)
    case Funptr(_) => Ok(tg.pointerSize)
    case OCaml(_) => Raises(IncompleteType)
    case View(_, ty) => SizeOf(tg, ty)
  }

  function AlignOf(tg: Target, t: Typ): Result<nat> {
    match t
    case Void => Raises(IncompleteType)
    case Primitive(p) => Ok(tg.primAlign(p))
    case Struct(_, spec, _) => if spec.Some? then Ok(spec.value.align) else Raises(IncompleteType)
    case Union(_, spec, _) => if spec.Some? then Ok(spec.value.align) else Raises(IncompleteType)
    case Array(ty, _) => AlignOf(tg, ty)
    case Bigarray(p, _) => Ok(tg.primAlign(p))
    case Abstract(_, _, align) => Ok(align)
    case Pointer(_) => Ok(tg.pointerAlign)
    case Funptr(_) => Ok(tg.pointerAlign)
    case OCaml(_) => Raises(IncompleteType)
    case View(_, ty) => AlignOf(tg, ty)
  }

  function Size(tg: Target, t: Typ): nat { match SizeOf(tg, t) case Ok(s) => s case Raises(_) => 0 }

  function Align(tg: Target, t: Typ): nat { match AlignOf(tg, t) case Ok(a) => a case Raises(_) => 0 }

  lemma {:induction false} SizedIffAligned(tg: Target, t: Typ)
    ensures SizeOf(tg, t).Ok? <==> AlignOf(tg, t).Ok?
    ensures SizeOf(tg, t).Raises? ==> SizeOf(tg, t) == Raises(IncompleteType) && AlignOf(tg, t) == Raises(IncompleteType)
  {
    match t
    case Array(ty, _) => SizedIffAligned(tg, ty);
    case View(_, ty) => SizedIffAligned(tg, ty);
    case _ =>
  }

  // The array of arrays with the same elements.
  function ArrayOf(p: Prim, dims: seq<nat>): Typ {
    if dims == [] then Primitive(p) else Array(ArrayOf(p, dims[1..]), dims[0])
  }

  /** A bigarray is as large, and as aligned, as the array of arrays with its elements. */
  lemma {:induction false} BigarrayLikeArrays(tg: Target, p: Prim, dims: seq<nat>)
    ensures SizeOf(tg, Bigarray(p, dims)) == SizeOf(tg, ArrayOf(p, dims))
    ensures AlignOf(tg, Bigarray(p, dims)) == AlignOf(tg, ArrayOf(p, dims))
    decreases |dims|
  {
    if dims != [] {
      BigarrayLikeArrays(tg, p, dims[1..]);
      assert dims[0] * Product(dims[1..]) * tg.primSize(p) == dims[0] * (Product(dims[1..]) * tg.primSize(p));
    }
  }

  // ---- Aligned placement ----

  /** `aligned_offset`. */
  function AlignedOffset(offset: nat, alignment: nat): (r: nat)
    requires alignment > 0
    ensures IsMultiple(r, alignment) && offset <= r < offset + alignment
  {
    var overhang := offset % alignment;
    if overhang == 0 then offset else (Multiple(offset, alignment); offset - overhang + alignment)
  }

  lemma Multiple(n: nat, a: nat)
    requires a > 0
    ensures (n - n % a) % a == 0 && (n - n % a + a) % a == 0
  {
    DivMul(n, a);
    MulMod(n / a, a);
    assert (n / a + 1) * a == (n / a) * a + a;
    MulMod(n / a + 1, a);
  }

  /** It is the least aligned offset that is not before the one given. */
  lemma AlignedOffsetIsLeast(offset: nat, alignment: nat, m: nat)
    requires alignment > 0 && m % alignment == 0 && offset <= m
    ensures AlignedOffset(offset, alignment) <= m
  {
    NearMultiples(AlignedOffset(offset, alignment), m, alignment);
  }

  // ---- Laid-out fields ----

  // Where the fields end.
  function EndOf(tg: Target, fs: seq<Field>): nat {
    if fs == [] then 0 else fs[|fs| - 1].foffset + Size(tg, fs[|fs| - 1].ftype)
  }

  predicate Placeable(tg: Target, t: Typ) { SizeOf(tg, t).Ok? && Align(tg, t) > 0 }

  // Each field goes to the first aligned place after the one before it.
  ghost predicate Laid(tg: Target, fs: seq<Field>) {
    forall i :: 0 <= i < |fs| ==>
      Placeable(tg, fs[i].ftype) && fs[i].foffset == AlignedOffset(EndOf(tg, fs[..i]), Align(tg, fs[i].ftype))
  }

  lemma LaidNext(tg: Target, fs: seq<Field>, f: Field)
    requires Laid(tg, fs) && Placeable(tg, f.ftype) && f.foffset == AlignedOffset(EndOf(tg, fs), Align(tg, f.ftype))
    ensures Laid(tg, fs + [f])
  {
    var all := fs + [f];
    forall i | 0 <= i < |all|
      ensures Placeable(tg, all[i].ftype) && all[i].foffset == AlignedOffset(EndOf(tg, all[..i]), Align(tg, all[i].ftype))
    {
      assert all[..i] == fs[..i];
      assert fs[..|fs|] == fs;
    }
  }

  /** Fields are aligned, follow their declaration order, and never overlap. */
  lemma {:induction false} FieldsInOrder(tg: Target, fs: seq<Field>, i: nat, j: nat)
    requires Laid(tg, fs) && i < j < |fs|
    ensures fs[i].foffset + Size(tg, fs[i].ftype) <= fs[j].foffset
    ensures fs[i].foffset % Align(tg, fs[i].ftype) == 0 && fs[j].foffset % Align(tg, fs[j].ftype) == 0
    decreases j
  {
    assert fs[..j][j - 1] == fs[j - 1];
    assert EndOf(tg, fs[..j]) == fs[j - 1].foffset + Size(tg, fs[j - 1].ftype);
    if i < j - 1 { FieldsInOrder(tg, fs, i, j - 1); }
  }

  // Any other way of placing the same fields in order, aligned and apart.
  ghost predicate AnyPlacement(tg: Target, fs: seq<Field>, offs: seq<nat>) {
    && |offs| == |fs|
    && (forall i :: 0 <= i < |fs| ==> Placeable(tg, fs[i].ftype) && offs[i] % Align(tg, fs[i].ftype) == 0)
    && forall i :: 0 < i < |fs| ==> offs[i - 1] + Size(tg, fs[i - 1].ftype) <= offs[i]
  }

  /** Padding is the least possible: no placement puts any field earlier. */
  lemma {:induction false} PaddingIsLeast(tg: Target, fs: seq<Field>, offs: seq<nat>, i: nat)
    requires Laid(tg, fs) && AnyPlacement(tg, fs, offs) && i < |fs|
    ensures fs[i].foffset <= offs[i]
  {
    var start := EndOf(tg, fs[..i]);
    if i > 0 {
      PaddingIsLeast(tg, fs, offs, i - 1);
      assert fs[..i][i - 1] == fs[i - 1];
    }
    assert offs[i] % Align(tg, fs[i].ftype) == 0;
    AlignedOffsetIsLeast(start, Align(tg, fs[i].ftype), offs[i]);
  }

  // ---- Sealing ----

  // The maxima as folds; None where `alignment` or `sizeof` raises.
  function MaxAlign(tg: Target, fs: seq<Field>): (r: nat)
    ensures forall i :: 0 <= i < |fs| ==> Align(tg, fs[i].ftype) <= r
    ensures fs != [] ==> exists i :: 0 <= i < |fs| && Align(tg, fs[i].ftype) == r
  {
    if fs == [] then 0
    else
      var last, front := fs[|fs| - 1], fs[..|fs| - 1];
      var m := MaxAlign(tg, front);
      assert forall i :: 0 <= i < |front| ==> fs[i] == front[i];
      assert front == [] || exists i :: 0 <= i < |front| && Align(tg, fs[i].ftype) == m;
      Max(m, Align(tg, last.ftype))
  }

  function MaxSize(tg: Target, fs: seq<Field>): (r: nat)
    ensures forall i :: 0 <= i < |fs| ==> Size(tg, fs[i].ftype) <= r
    ensures fs != [] ==> exists i :: 0 <= i < |fs| && Size(tg, fs[i].ftype) == r
  {
    if fs == [] then 0
    else
      var last, front := fs[|fs| - 1], fs[..|fs| - 1];
      var m := MaxSize(tg, front);
      assert forall i :: 0 <= i < |front| ==> fs[i] == front[i];
      assert front == [] || exists i :: 0 <= i < |front| && Size(tg, fs[i].ftype) == m;
      Max(m, Size(tg, last.ftype))
  }

  ghost predicate SealedStruct(tg: Target, fs: seq<Field>, spec: Spec) {
    && fs != [] && Laid(tg, fs)
    && spec.align == MaxAlign(tg, fs) > 0 && spec.size == AlignedOffset(EndOf(tg, fs), spec.align)
  }

  ghost predicate SealedUnion(tg: Target, fs: seq<Field>, spec: Spec) {
    && fs != [] && (forall f :: f in fs ==> SizeOf(tg, f.ftype).Ok? && f.foffset == 0)
    && spec.align == MaxAlign(tg, fs) > 0 && spec.size == AlignedOffset(MaxSize(tg, fs), spec.align)
  }

  // An offset that no field reaches beyond.
  predicate Covers(tg: Target, fs: seq<Field>, end: nat) {
    forall j :: 0 <= j < |fs| ==> fs[j].foffset + Size(tg, fs[j].ftype) <= end
  }

  lemma EndCovers(tg: Target, fs: seq<Field>)
    requires Laid(tg, fs) && fs != []
    ensures Covers(tg, fs, EndOf(tg, fs))
  {
    forall i | 0 <= i < |fs| ensures fs[i].foffset + Size(tg, fs[i].ftype) <= EndOf(tg, fs) {
      if i < |fs| - 1 { FieldsInOrder(tg, fs, i, |fs| - 1); }
    }
  }

  /** A sealed structure covers its fields and is as small as a multiple of its
      alignment can be. */
  lemma SizeIsLeast(tg: Target, fs: seq<Field>, spec: Spec, other: nat)
    requires SealedStruct(tg, fs, spec)
    ensures Covers(tg, fs, spec.size) && spec.size % spec.align == 0
    ensures other % spec.align == 0 && Covers(tg, fs, other) ==> spec.size <= other
  {
    hide MaxAlign;
    EndCovers(tg, fs);
    hide Laid;
    if other % spec.align == 0 && Covers(tg, fs, other) {
      assert fs[|fs| - 1].foffset + Size(tg, fs[|fs| - 1].ftype) <= other;
      AlignedOffsetIsLeast(EndOf(tg, fs), spec.align, other);
    }
  }

  // ---- Arrays of structures ----

  // Field i of element k of an array of n such structures.
  function InElement(size: nat, k: nat, off: nat): nat { k * size + off }

  ghost predicate EveryElementAligned(tg: Target, fs: seq<Field>, size: nat, n: nat) {
    forall k: nat, i: nat :: k < n && i < |fs| ==>
      Align(tg, fs[i].ftype) > 0 && InElement(size, k, fs[i].foffset) % Align(tg, fs[i].ftype) == 0
  }

  /** In an array of two or more, all fields of all elements are aligned exactly when
      every field's alignment divides the structure's size. */
  lemma ElementsAlignedIff(tg: Target, fs: seq<Field>, spec: Spec, n: nat)
    requires SealedStruct(tg, fs, spec) && n >= 2
    ensures EveryElementAligned(tg, fs, spec.size, n) <==>
            forall i :: 0 <= i < |fs| ==> spec.size % Align(tg, fs[i].ftype) == 0
  {
    FieldsAligned(tg, fs);
    if EveryElementAligned(tg, fs, spec.size, n) {
      forall i | 0 <= i < |fs| ensures spec.size % Align(tg, fs[i].ftype) == 0 {
        assert InElement(spec.size, 1, fs[i].foffset) % Align(tg, fs[i].ftype) == 0;
        SecondElement(spec.size, fs[i].foffset, Align(tg, fs[i].ftype));
      }
    }
    if forall i :: 0 <= i < |fs| ==> spec.size % Align(tg, fs[i].ftype) == 0 {
      forall k: nat, i: nat | k < n && i < |fs|
        ensures Align(tg, fs[i].ftype) > 0 && InElement(spec.size, k, fs[i].foffset) % Align(tg, fs[i].ftype) == 0
      {
        AnyElement(spec.size, k, fs[i].foffset, Align(tg, fs[i].ftype));
      }
    }
  }

  lemma FieldsAligned(tg: Target, fs: seq<Field>)
    requires Laid(tg, fs)
    ensures forall i :: 0 <= i < |fs| ==> Align(tg, fs[i].ftype) > 0 && fs[i].foffset % Align(tg, fs[i].ftype) == 0
  {
  }

  lemma SecondElement(size: nat, off: nat, a: nat)
    requires a > 0 && off % a == 0 && InElement(size, 1, off) % a == 0
    ensures size % a == 0
  {
    assert InElement(size, 1, off) == off + size;
    AddMod(off, size, a);
  }

  lemma AnyElement(size: nat, k: nat, off: nat, a: nat)
    requires a > 0 && off % a == 0 && size % a == 0
    ensures InElement(size, k, off) % a == 0
  {
    MulKeepsMod(k, size, a);
    AddMod(k * size, off, a);
  }

  /** Alignment 33, used by the repository's own tests, does not divide well with 4: the
      second element of an array is misaligned. */
  lemma OddAlignmentExample(tg: Target)
    requires tg.primSize(Sint) == 4 && tg.primAlign(Sint) == 4
    ensures var fs := [Field("a", Abstract("t", 33, 33), 0), Field("i", Primitive(Sint), 36)];
            && SealedStruct(tg, fs, Spec(66, 33)) && !EveryElementAligned(tg, fs, 66, 2)
  {
    var fs := [Field("a", Abstract("t", 33, 33), 0), Field("i", Primitive(Sint), 36)];
    assert fs[..0] == [] && fs[..1] == [fs[0]];
    assert Placeable(tg, fs[0].ftype) && Placeable(tg, fs[1].ftype);
    assert EndOf(tg, fs[..1]) == 33 && AlignedOffset(33, 4) == 36;
    assert MaxAlign(tg, [fs[0]]) == 33;
    assert MaxAlign(tg, fs) == 33;
    assert EndOf(tg, fs) == 40 && AlignedOffset(40, 33) == 66;
    ElementsAlignedIff(tg, fs, Spec(66, 33), 2);
    assert 66 % Align(tg, fs[1].ftype) == 2;
  }

  // ---- Powers of two, and nesting to any depth ----

  function Fields(t: Typ): seq<Field> {
    match t case Struct(_, _, fs) => fs case Union(_, _, fs) => fs case _ => []
  }

  // Types whose alignments are powers of two, whose elements keep the alignment from one
  // to the next where there are several, and whose structures and unions were laid out by
  // `field` and `seal`.
  ghost predicate Regular(tg: Target, t: Typ)
    decreases t, 1
  {
    match t
    case Array(ty, n) => Regular(tg, ty) && (n > 1 ==> Align(tg, ty) > 0 && Size(tg, ty) % Align(tg, ty) == 0)
    case View(_, ty) => Regular(tg, ty)
    case Struct(_, spec, fs) => spec.Some? && SealedStruct(tg, fs, spec.value) && RegularFields(tg, t)
    case Union(_, spec, fs) => spec.Some? && SealedUnion(tg, fs, spec.value) && RegularFields(tg, t)
    case _ => SizeOf(tg, t).Ok? && PowerOfTwo(Align(tg, t))
  }

  ghost predicate RegularFields(tg: Target, t: Typ)
    decreases t, 0
  {
    forall i :: 0 <= i < |Fields(t)| ==> Regular(tg, Fields(t)[i].ftype)
  }

  /** Every scalar inside a value of type t at the given address is aligned. */
  ghost predicate AllAligned(tg: Target, t: Typ, addr: nat)
    decreases t
  {
    match t
    case Array(ty, n) => forall k: nat :: k < n ==> AllAligned(tg, ty, InElement(Size(tg, ty), k, addr))
    case View(_, ty) => AllAligned(tg, ty, addr)
    case Struct(_, _, fs) => forall i :: 0 <= i < |fs| ==> AllAligned(tg, fs[i].ftype, addr + fs[i].foffset)
    case Union(_, _, fs) => forall i :: 0 <= i < |fs| ==> AllAligned(tg, fs[i].ftype, addr + fs[i].foffset)
    case Primitive(p) => IsMultiple(addr, tg.primAlign(p))
    case Bigarray(p, _) => IsMultiple(addr, tg.primAlign(p))
    case Abstract(_, _, align) => IsMultiple(addr, align)
    case Pointer(_) => IsMultiple(addr, tg.pointerAlign)
    case Funptr(_) => IsMultiple(addr, tg.pointerAlign)
    case _ => false
  }

  lemma {:induction false} RegularAlignment(tg: Target, t: Typ)
    requires Regular(tg, t)
    ensures PowerOfTwo(Align(tg, t)) && SizeOf(tg, t).Ok? && Align(tg, t) > 0
    decreases t
  {
    match t
    case Array(ty, n) => RegularAlignment(tg, ty);
    case View(_, ty) => RegularAlignment(tg, ty);
    case Struct(_, _, fs) =>
      var i :| 0 <= i < |fs| && Align(tg, fs[i].ftype) == MaxAlign(tg, fs);
      RegularAlignment(tg, Fields(t)[i].ftype);
    case Union(_, _, fs) =>
      var i :| 0 <= i < |fs| && Align(tg, fs[i].ftype) == MaxAlign(tg, fs);
      RegularAlignment(tg, Fields(t)[i].ftype);
    case _ =>
  }

  lemma FirstElement(size: nat, off: nat)
    ensures InElement(size, 0, off) == off
  {
  }

  /** With power-of-two alignments an aligned value is aligned throughout: every field of
      every structure, of every element of every array, nested to any depth. */
  lemma {:induction false} AlignedThroughout(tg: Target, t: Typ, addr: nat)
    requires Regular(tg, t) && Align(tg, t) > 0 && addr % Align(tg, t) == 0
    ensures AllAligned(tg, t, addr)
    decreases t
  {
    hide SealedStruct;
    hide SealedUnion;
    hide PowerOfTwo;
    hide InElement;
    match t
    case Array(ty, n) =>
      RegularAlignment(tg, ty);
      forall k: nat | k < n ensures AllAligned(tg, ty, InElement(Size(tg, ty), k, addr)) {
        if n > 1 { AnyElement(Size(tg, ty), k, addr, Align(tg, ty)); } else { FirstElement(Size(tg, ty), addr); }
        AlignedThroughout(tg, ty, InElement(Size(tg, ty), k, addr));
      }
    case View(_, ty) => AlignedThroughout(tg, ty, addr);
    case Struct(_, _, fs) =>
      forall i | 0 <= i < |fs| ensures AllAligned(tg, fs[i].ftype, addr + fs[i].foffset) {
        FieldAligned(tg, t, i, addr);
        AlignedThroughout(tg, fs[i].ftype, addr + fs[i].foffset);
      }
    case Union(_, _, fs) =>
      forall i | 0 <= i < |fs| ensures AllAligned(tg, fs[i].ftype, addr + fs[i].foffset) {
        FieldAligned(tg, t, i, addr);
        AlignedThroughout(tg, fs[i].ftype, addr + fs[i].foffset);
      }
    case _ =>
  }

  lemma FieldOffsets(tg: Target, t: Typ, i: nat)
    requires (t.Struct? || t.Union?) && Regular(tg, t) && i < |Fields(t)|
    ensures Align(tg, t) == MaxAlign(tg, Fields(t))
    ensures t.Struct? ==> Align(tg, Fields(t)[i].ftype) > 0 && Fields(t)[i].foffset % Align(tg, Fields(t)[i].ftype) == 0
    ensures t.Union? ==> Fields(t)[i].foffset == 0
  {
    hide MaxAlign;
    hide PowerOfTwo;
    if t.Union? { assert Fields(t)[i] in Fields(t); }
  }

  lemma FieldAligned(tg: Target, t: Typ, i: nat, addr: nat)
    requires (t.Struct? || t.Union?) && Regular(tg, t) && i < |Fields(t)| && Align(tg, t) > 0 && addr % Align(tg, t) == 0
    ensures var f := Fields(t)[i];
            Regular(tg, f.ftype) && Align(tg, f.ftype) > 0 && (addr + f.foffset) % Align(tg, f.ftype) == 0
  {
    hide PowerOfTwo;
    hide MaxAlign;
    hide AlignedOffset;
    hide EndOf;
    var f := Fields(t)[i];
    FieldOffsets(tg, t, i);
    hide Laid;
    assert Regular(tg, f.ftype);
    RegularAlignment(tg, t);
    RegularAlignment(tg, f.ftype);
    assert Align(tg, t) == MaxAlign(tg, Fields(t));
    PowersDivide(Align(tg, f.ftype), Align(tg, t));
    DividesMore(addr, Align(tg, t), Align(tg, f.ftype));
    AddMod(addr, f.foffset, Align(tg, f.ftype));
  }

  // ---- Sizes, at any depth ----

  /** Every scalar inside a value of type t at the given address ends by `end`; the elements
      of an array follow one another. */
  ghost predicate AllWithin(tg: Target, t: Typ, addr: nat, end: nat)
    decreases t
  {
    match t
    case Array(ty, n) => forall k: nat :: k < n ==> AllWithin(tg, ty, InElement(Size(tg, ty), k, addr), end)
    case View(_, ty) => AllWithin(tg, ty, addr, end)
    case Struct(_, _, fs) => forall i :: 0 <= i < |fs| ==> AllWithin(tg, fs[i].ftype, addr + fs[i].foffset, end)
    case Union(_, _, fs) => forall i :: 0 <= i < |fs| ==> AllWithin(tg, fs[i].ftype, addr, end)
    case Primitive(p) => addr + tg.primSize(p) <= end
    case Bigarray(p, dims) => addr + Product(dims) * tg.primSize(p) <= end
    case Abstract(_, size, _) => addr + size <= end
    case Pointer(_) => addr + tg.pointerSize <= end
    case Funptr(_) => addr + tg.pointerSize <= end
    case _ => false
  }

  /** A value's size covers everything inside it, at any depth. */
  lemma {:induction false} SizeCovers(tg: Target, t: Typ, addr: nat, end: nat)
    requires Regular(tg, t) && addr + Size(tg, t) <= end
    ensures AllWithin(tg, t, addr, end)
    decreases t
  {
    hide PowerOfTwo;
    hide SealedStruct;
    hide SealedUnion;
    match t
    case Array(ty, n) =>
      RegularAlignment(tg, ty);
      forall k: nat | k < n ensures AllWithin(tg, ty, InElement(Size(tg, ty), k, addr), end) {
        MulGap(k, n, Size(tg, ty));
        SizeCovers(tg, ty, InElement(Size(tg, ty), k, addr), end);
      }
    case View(_, ty) => SizeCovers(tg, ty, addr, end);
    case Struct(_, spec, fs) =>
      SizeIsLeast(tg, fs, spec.value, 0);
      forall i | 0 <= i < |fs| ensures AllWithin(tg, fs[i].ftype, addr + fs[i].foffset, end) {
        assert Regular(tg, Fields(t)[i].ftype);
        SizeCovers(tg, fs[i].ftype, addr + fs[i].foffset, end);
      }
    case Union(_, spec, fs) =>
      forall i | 0 <= i < |fs| ensures AllWithin(tg, fs[i].ftype, addr, end) {
        assert Regular(tg, Fields(t)[i].ftype);
        UnionCovers(tg, fs, spec.value, i);
        SizeCovers(tg, fs[i].ftype, addr, end);
      }
    case _ =>
  }

  lemma UnionCovers(tg: Target, fs: seq<Field>, spec: Spec, i: nat)
    requires SealedUnion(tg, fs, spec) && i < |fs|
    ensures Size(tg, fs[i].ftype) <= spec.size
  {
    hide MaxAlign;
  }

  /** With power-of-two alignments no size is larger than it must be, at any depth: where
      everything inside an aligned value ends by an aligned place, so does the value. */
  lemma {:induction false} SizeIsLeastThroughout(tg: Target, t: Typ, addr: nat, end: nat, a: nat)
    requires Regular(tg, t) && PowerOfTwo(a) && 0 < Align(tg, t) <= a
    requires addr % Align(tg, t) == 0 && end % a == 0 && addr <= end && AllWithin(tg, t, addr, end)
    ensures addr + Size(tg, t) <= end
    decreases t, 1
  {
    hide PowerOfTwo;
    hide SealedStruct;
    hide SealedUnion;
    match t
    case Array(ty, n) => RegularAlignment(tg, ty); ElementsWithin(tg, ty, n, addr, end, a, n);
    case View(_, ty) => SizeIsLeastThroughout(tg, ty, addr, end, a);
    case Struct(_, spec, fs) => RegularAlignment(tg, t); FieldsWithin(tg, t, addr, end, a);
    case Union(_, spec, fs) => RegularAlignment(tg, t); MembersWithin(tg, t, addr, end, a);
    case _ =>
  }

  /** The size of a value is what its scalars need: at an aligned address, everything inside
      ends by an aligned place exactly when the value does. */
  lemma SizeIsWhatScalarsNeed(tg: Target, t: Typ, addr: nat, end: nat)
    requires Regular(tg, t) && Align(tg, t) > 0 && addr % Align(tg, t) == 0 && end % Align(tg, t) == 0 && addr <= end
    ensures AllWithin(tg, t, addr, end) <==> addr + Size(tg, t) <= end
  {
    hide AllWithin;
    RegularAlignment(tg, t);
    if addr + Size(tg, t) <= end { SizeCovers(tg, t, addr, end); }
    if AllWithin(tg, t, addr, end) { SizeIsLeastThroughout(tg, t, addr, end, Align(tg, t)); }
  }

  lemma {:induction false} ElementsWithin(tg: Target, ty: Typ, n: nat, addr: nat, end: nat, a: nat, k: nat)
    requires Regular(tg, Array(ty, n)) && PowerOfTwo(a) && 0 < Align(tg, ty) <= a && k <= n
    requires addr % Align(tg, ty) == 0 && end % a == 0 && addr <= end && AllWithin(tg, Array(ty, n), addr, end)
    ensures addr + k * Size(tg, ty) <= end
    decreases Array(ty, n), 0, k
  {
    hide PowerOfTwo;
    if k > 0 {
      ElementsWithin(tg, ty, n, addr, end, a, k - 1);
      assert AllWithin(tg, ty, InElement(Size(tg, ty), k - 1, addr), end);
      if k > 1 { AnyElement(Size(tg, ty), k - 1, addr, Align(tg, ty)); } else { FirstElement(Size(tg, ty), addr); }
      SizeIsLeastThroughout(tg, ty, InElement(Size(tg, ty), k - 1, addr), end, a);
      assert k * Size(tg, ty) == (k - 1) * Size(tg, ty) + Size(tg, ty);
    }
  }

  // Where the next aligned place after `at` cannot be beyond `end`.
  lemma PlacedWithin(addr: nat, at: nat, align: nat, end: nat, a: nat)
    requires PowerOfTwo(align) && PowerOfTwo(a) && 0 < align <= a
    requires addr % align == 0 && end % a == 0 && addr + at <= end
    ensures addr + AlignedOffset(at, align) <= end
  {
    PowersDivide(align, a);
    DividesMore(end, a, align);
    DivMul(addr, align);
    AddMod(addr, end - addr, align);
    AlignedOffsetIsLeast(at, align, end - addr);
  }

  lemma {:induction false} FieldsWithin(tg: Target, t: Typ, addr: nat, end: nat, a: nat)
    requires t.Struct? && Regular(tg, t) && PowerOfTwo(a) && 0 < Align(tg, t) <= a && PowerOfTwo(Align(tg, t))
    requires addr % Align(tg, t) == 0 && end % a == 0 && addr <= end && AllWithin(tg, t, addr, end)
    ensures addr + Size(tg, t) <= end
    decreases t, 0, |t.fields| + 1
  {
    hide PowerOfTwo;
    hide MaxAlign;
    EndsWithin(tg, t, addr, end, a, |t.fields|);
    assert t.fields[..|t.fields|] == t.fields;
    PlacedWithin(addr, EndOf(tg, t.fields), Align(tg, t), end, a);
  }

  lemma {:induction false} EndsWithin(tg: Target, t: Typ, addr: nat, end: nat, a: nat, i: nat)
    requires t.Struct? && Regular(tg, t) && PowerOfTwo(a) && 0 < Align(tg, t) <= a && PowerOfTwo(Align(tg, t))
    requires addr % Align(tg, t) == 0 && end % a == 0 && addr <= end && AllWithin(tg, t, addr, end) && i <= |t.fields|
    ensures addr + EndOf(tg, t.fields[..i]) <= end
    decreases t, 0, i
  {
    hide PowerOfTwo;
    hide MaxAlign;
    hide AlignedOffset;
    hide Regular;
    hide AllWithin;
    if i > 0 {
      EndsWithin(tg, t, addr, end, a, i - 1);
      var f := t.fields[i - 1];
      assert t.fields[..i][i - 1] == f;
      FieldPlaced(tg, t, i - 1, addr, end, a);
      FieldAligned(tg, t, i - 1, addr);
      FieldAlignSmaller(tg, t, i - 1);
      FieldInside(tg, t, i - 1, addr, end);
      SizeIsLeastThroughout(tg, f.ftype, addr + f.foffset, end, a);
    }
  }

  lemma FieldInside(tg: Target, t: Typ, i: nat, addr: nat, end: nat)
    requires t.Struct? && i < |t.fields| && AllWithin(tg, t, addr, end)
    ensures AllWithin(tg, t.fields[i].ftype, addr + t.fields[i].foffset, end)
  {
  }

  lemma FieldPlaced(tg: Target, t: Typ, i: nat, addr: nat, end: nat, a: nat)
    requires t.Struct? && Regular(tg, t) && PowerOfTwo(a) && 0 < Align(tg, t) <= a && i < |t.fields|
    requires addr % Align(tg, t) == 0 && end % a == 0 && addr + EndOf(tg, t.fields[..i]) <= end
    ensures addr + t.fields[i].foffset <= end
  {
    hide PowerOfTwo;
    hide MaxAlign;
    hide EndOf;
    assert Regular(tg, Fields(t)[i].ftype);
    RegularAlignment(tg, t.fields[i].ftype);
    FieldAlignSmaller(tg, t, i);
    FieldOffsetAligned(tg, t, i, addr);
    PlacedWithin(addr, EndOf(tg, t.fields[..i]), Align(tg, t.fields[i].ftype), end, a);
  }

  lemma FieldAlignSmaller(tg: Target, t: Typ, i: nat)
    requires (t.Struct? || t.Union?) && Regular(tg, t) && i < |Fields(t)|
    ensures Align(tg, Fields(t)[i].ftype) <= Align(tg, t)
  {
    hide PowerOfTwo;
    FieldOffsets(tg, t, i);
  }

  // The structure's address is aligned for each of its fields.
  lemma FieldOffsetAligned(tg: Target, t: Typ, i: nat, addr: nat)
    requires (t.Struct? || t.Union?) && Regular(tg, t) && i < |Fields(t)| && Align(tg, t) > 0 && addr % Align(tg, t) == 0
    ensures Align(tg, Fields(t)[i].ftype) > 0 && addr % Align(tg, Fields(t)[i].ftype) == 0
  {
    hide PowerOfTwo;
    FieldAlignSmaller(tg, t, i);
    assert Regular(tg, Fields(t)[i].ftype);
    RegularAlignment(tg, t);
    RegularAlignment(tg, Fields(t)[i].ftype);
    PowersDivide(Align(tg, Fields(t)[i].ftype), Align(tg, t));
    DividesMore(addr, Align(tg, t), Align(tg, Fields(t)[i].ftype));
  }

  lemma {:induction false} MembersWithin(tg: Target, t: Typ, addr: nat, end: nat, a: nat)
    requires t.Union? && Regular(tg, t) && PowerOfTwo(a) && 0 < Align(tg, t) <= a && PowerOfTwo(Align(tg, t))
    requires addr % Align(tg, t) == 0 && end % a == 0 && addr <= end && AllWithin(tg, t, addr, end)
    ensures addr + Size(tg, t) <= end
    decreases t, 0
  {
    hide PowerOfTwo;
    hide MaxAlign;
    var fs := t.ufields;
    forall i | 0 <= i < |fs| ensures addr + Size(tg, fs[i].ftype) <= end {
      assert Regular(tg, Fields(t)[i].ftype);
      FieldAlignSmaller(tg, t, i);
      FieldOffsetAligned(tg, t, i, addr);
      SizeIsLeastThroughout(tg, fs[i].ftype, addr, end, a);
    }
    var i :| 0 <= i < |fs| && Size(tg, fs[i].ftype) == MaxSize(tg, fs);
    PlacedWithin(addr, MaxSize(tg, fs), Align(tg, t), end, a);
  }

  // ---- The builder ----

  // The fields of a union whose types' sizes are known; the maxima raise otherwise.
  predicate AllSized(tg: Target, fs: seq<Field>) { forall f :: f in fs ==> SizeOf(tg, f.ftype).Ok? }

  lemma ReverseCons<T>(x: T, s: seq<T>)
    ensures Reverse([x] + s) == Reverse(s) + [x]
  {
    assert ([x] + s)[1..] == s;
  }

  lemma {:induction false} ReverseHas<T>(s: seq<T>)
    ensures forall x :: x in Reverse(s) <==> x in s
    decreases |s|
  {
    if s != [] {
      ReverseHas(s[1..]);
      assert s == [s[0]] + s[1..];
    }
  }

  /** A structure or union type under construction. While it is, `fields` has the last
      field first. */
  class Structure {
    const tag: string
    const union: bool
    var isize: nat
    var fields: seq<Field>
    var spec: Option<Spec>

    constructor (tag: string, union: bool)
      ensures this.tag == tag && this.union == union && isize == 0 && fields == [] && spec.None?
    {
      this.tag, this.union := tag, union;
      isize, fields, spec := 0, [], None;
    }

    // The fields in the order they were declared.
    ghost function Declared(): seq<Field>
      reads this
    {
      if spec.None? then Reverse(fields) else fields
    }

    ghost predicate Valid(tg: Target)
      reads this
    {
      if union then
        && (forall f :: f in fields ==> f.foffset == 0)
        && (spec.Some? ==> SealedUnion(tg, fields, spec.value))
      else
        && Laid(tg, Declared()) && isize == EndOf(tg, Declared())
        && (spec.Some? ==> SealedStruct(tg, fields, spec.value))
    }

    /** `field`: nothing changes when it raises. */
    method AddField(tg: Target, name: string, ftype: Typ) returns (r: Result<Field>)
      requires Valid(tg)
      modifies this
      ensures Valid(tg) && spec == old(spec)
      ensures r == if old(spec).Some? then Raises(ModifyingSealedType(tag))
                   else if union then Ok(Field(name, ftype, 0))
                   else if SizeOf(tg, ftype).Raises? then Raises(IncompleteType)
                   else if Align(tg, ftype) == 0 then Raises(DivisionByZero)
                   else Ok(Field(name, ftype, AlignedOffset(EndOf(tg, old(Declared())), Align(tg, ftype))))
      ensures r.Ok? ==> Declared() == old(Declared()) + [r.value]
      ensures r.Raises? ==> Declared() == old(Declared()) && isize == old(isize)
    {
      if union { r := AddUnionField(name, ftype, tg); } else { r := AddStructField(tg, name, ftype); }
    }

    method AddUnionField(name: string, ftype: Typ, ghost tg: Target) returns (r: Result<Field>)
      requires Valid(tg) && union
      modifies this`fields
      ensures Valid(tg) && r == if spec.Some? then Raises(ModifyingSealedType(tag)) else Ok(Field(name, ftype, 0))
      ensures Declared() == if r.Ok? then old(Declared()) + [r.value] else old(Declared())
    {
      if spec.Some? { return Raises(ModifyingSealedType(tag)); }
      var f := Field(name, ftype, 0);
      ReverseCons(f, fields);
      fields := [f] + fields;
      r := Ok(f);
    }

    method AddStructField(tg: Target, name: string, ftype: Typ) returns (r: Result<Field>)
      requires Valid(tg) && !union
      modifies this`fields, this`isize
      ensures Valid(tg)
      ensures r == if spec.Some? then Raises(ModifyingSealedType(tag))
                   else if SizeOf(tg, ftype).Raises? then Raises(IncompleteType)
                   else if Align(tg, ftype) == 0 then Raises(DivisionByZero)
                   else Ok(Field(name, ftype, AlignedOffset(EndOf(tg, old(Declared())), Align(tg, ftype))))
      ensures r.Ok? ==> Declared() == old(Declared()) + [r.value]
      ensures r.Raises? ==> Declared() == old(Declared()) && isize == old(isize)
    {
      hide IsMultiple;
      hide AlignedOffset;
      hide SealedStruct;
      hide SealedUnion;
      if spec.Some? { return Raises(ModifyingSealedType(tag)); }
      SizedIffAligned(tg, ftype);
      var align := AlignOf(tg, ftype);
      if align.Raises? { return Raises(align.error); }
      if align.value == 0 { return Raises(DivisionByZero); }
      var f := Field(name, ftype, AlignedOffset(isize, align.value));
      LaidNext(tg, Declared(), f);
      ReverseCons(f, fields);
      ghost var before := Declared();
      isize := f.foffset + Size(tg, ftype);
      fields := [f] + fields;
      assert Declared() == before + [f];
      r := Ok(f);
    }

    /** `seal`. A union whose field sizes are not all known, or whose alignments are all
        zero, is left unsealed with its fields turned round. */
    method Seal(tg: Target) returns (r: Result<Spec>)
      requires Valid(tg)
      modifies this
      ensures Valid(tg)
      ensures r.Ok? <==> old(spec).None? && old(fields) != [] &&
                         (union ==> AllSized(tg, old(fields)) && MaxAlign(tg, old(Declared())) > 0)
      ensures r.Ok? ==> spec == Some(r.value) && Declared() == old(Declared())
      ensures r.Ok? && !union ==> SealedStruct(tg, fields, r.value)
      ensures r.Ok? && union ==> SealedUnion(tg, fields, r.value)
      ensures r.Raises? ==>
        && spec == old(spec) && isize == old(isize)
        && (r.error == IncompleteType || r.error == DivisionByZero <==> union && old(spec).None? && old(fields) != [])
        && fields == if r.error == IncompleteType || r.error == DivisionByZero then Reverse(old(fields)) else old(fields)
    {
      if union { r := SealUnion(tg); } else { r := SealStruct(tg); }
    }

    method SealStruct(tg: Target) returns (r: Result<Spec>)
      requires Valid(tg) && !union
      modifies this
      ensures Valid(tg)
      ensures r.Ok? <==> old(spec).None? && old(fields) != []
      ensures r.Ok? ==> spec == Some(r.value) && Declared() == old(Declared()) && SealedStruct(tg, fields, r.value)
      ensures r.Raises? ==> spec == old(spec) && isize == old(isize) && fields == old(fields)
      ensures r.Raises? ==> r.error == if old(fields) == [] then Unsupported("struct with no fields") else ModifyingSealedType(tag)
    {
      if fields == [] { return Raises(Unsupported("struct with no fields")); }
      if spec.Some? { return Raises(ModifyingSealedType(tag)); }
      fields := Reverse(fields);
      var align := MaxAlign(tg, fields);
      assert Align(tg, fields[0].ftype) > 0;
      spec := Some(Spec(AlignedOffset(isize, align), align));
      r := Ok(spec.value);
    }

    method SealUnion(tg: Target) returns (r: Result<Spec>)
      requires Valid(tg) && union
      modifies this
      ensures Valid(tg)
      ensures r.Ok? <==> old(spec).None? && old(fields) != [] && AllSized(tg, old(fields)) && MaxAlign(tg, old(Declared())) > 0
      ensures r.Ok? ==> spec == Some(r.value) && Declared() == old(Declared()) && SealedUnion(tg, fields, r.value)
      ensures r.Raises? ==> spec == old(spec) && isize == old(isize)
      ensures r.Raises? ==>
        if old(spec).Some? then r.error == ModifyingSealedType(tag) && fields == old(fields)
        else if old(fields) == [] then r.error == Unsupported("union with no fields") && fields == []
        else r.error == (if AllSized(tg, old(fields)) then DivisionByZero else IncompleteType) && fields == Reverse(old(fields))
    {
      if spec.Some? { return Raises(ModifyingSealedType(tag)); }
      if fields == [] { return Raises(Unsupported("union with no fields")); }
      ReverseHas(fields);
      fields := Reverse(fields);
      if !AllSized(tg, fields) { return Raises(IncompleteType); }
      var align := MaxAlign(tg, fields);
      if align == 0 { return Raises(DivisionByZero); }
      spec := Some(Spec(AlignedOffset(MaxSize(tg, fields), align), align));
      r := Ok(spec.value);
    }
  }
}

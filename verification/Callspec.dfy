/** Call buffers for libffi: src/ctypes-foreign/ffi_call_stubs.c:92-98, 192-217, 243-339 and
    the slot arithmetic of 345-406, driven by src/ctypes-foreign/ctypes_ffi.ml:99-126, 158-204. */
module Callspec {
  import opened CtypesStatic
  import opened Arithmetic
  import opened StructLayout

  datatype Ffi = Ffi(size: nat, align: nat)

  // An ffi_type; its alignment is never zero.
  type FfiType = t: Ffi | t.align > 0 witness Ffi(1, 1)

  // ---- Where arguments go ----

  /** Where the arguments end, and where argument i starts: the next aligned offset after
      the arguments before it. */
  function EndOfArgs(ts: seq<FfiType>): nat
    decreases |ts|
  {
    if ts == [] then 0
    else
      var last := ts[|ts| - 1];
      AlignedOffset(EndOfArgs(ts[..|ts| - 1]), last.align) + last.size
  }

  function OffsetOf(ts: seq<FfiType>, i: nat): nat
    requires i < |ts|
  {
    AlignedOffset(EndOfArgs(ts[..i]), ts[i].align)
  }

  lemma EndsAfter(ts: seq<FfiType>, i: nat)
    requires i < |ts|
    ensures EndOfArgs(ts[..i + 1]) == OffsetOf(ts, i) + ts[i].size
  {
    assert ts[..i + 1][..i] == ts[..i];
  }

  lemma {:induction false} EndsGrow(ts: seq<FfiType>, i: nat, j: nat)
    requires i <= j <= |ts|
    ensures EndOfArgs(ts[..i]) <= EndOfArgs(ts[..j])
    decreases j
  {
    if i < j {
      EndsAfter(ts, j - 1);
      EndsGrow(ts, i, j - 1);
    }
  }

  /** Argument slots are aligned, in order, disjoint, and inside the argument area. */
  lemma SlotsInOrder(ts: seq<FfiType>, i: nat, j: nat)
    requires i < j < |ts|
    ensures OffsetOf(ts, i) % ts[i].align == 0 && OffsetOf(ts, j) % ts[j].align == 0
    ensures OffsetOf(ts, i) + ts[i].size <= OffsetOf(ts, j) && OffsetOf(ts, j) + ts[j].size <= EndOfArgs(ts)
  {
    EndsAfter(ts, i);
    EndsGrow(ts, i + 1, j);
    SlotInside(ts, j);
  }

  lemma SlotInside(ts: seq<FfiType>, j: nat)
    requires j < |ts|
    ensures OffsetOf(ts, j) + ts[j].size <= EndOfArgs(ts)
  {
    EndsAfter(ts, j);
    EndsGrow(ts, j + 1, |ts|);
    assert ts[..|ts|] == ts;
  }

  // Any other way of placing the arguments in order, aligned and apart.
  ghost predicate AnyPlacement(ts: seq<FfiType>, offs: seq<nat>) {
    && |offs| == |ts| && (forall i :: 0 <= i < |ts| ==> offs[i] % ts[i].align == 0)
    && forall i :: 0 < i < |ts| ==> offs[i - 1] + ts[i - 1].size <= offs[i]
  }

  /** No placement puts any argument earlier. */
  lemma {:induction false} OffsetsAreLeast(ts: seq<FfiType>, offs: seq<nat>, i: nat)
    requires AnyPlacement(ts, offs) && i < |ts|
    ensures OffsetOf(ts, i) <= offs[i]
    decreases i
  {
    if i > 0 {
      OffsetsAreLeast(ts, offs, i - 1);
      EndsAfter(ts, i - 1);
    }
    assert offs[i] % ts[i].align == 0;
    AlignedOffsetIsLeast(EndOfArgs(ts[..i]), ts[i].align, offs[i]);
  }

  /** Arguments added later move none that are there. */
  lemma OffsetsStay(ts: seq<FfiType>, more: seq<FfiType>, i: nat)
    requires i < |ts|
    ensures OffsetOf(ts + more, i) == OffsetOf(ts, i)
  {
    assert (ts + more)[..i] == ts[..i] && (ts + more)[i] == ts[i];
  }

  lemma AppendedEnds(ts: seq<FfiType>, t: FfiType)
    ensures OffsetOf(ts + [t], |ts|) == AlignedOffset(EndOfArgs(ts), t.align)
    ensures EndOfArgs(ts + [t]) == AlignedOffset(EndOfArgs(ts), t.align) + t.size
  {
    assert (ts + [t])[..|ts|] == ts;
  }

  // ---- The machine ----

  // ffi_type_pointer, and the width libffi widens small results to.
  datatype Abi = Abi(pointer: FfiType, word: nat, bigEndian: bool)

  predicate Sane(abi: Abi) { abi.word <= abi.pointer.size && abi.pointer.size % abi.pointer.align == 0 }

  datatype ReturnType = ReturnType(ty: FfiType, integer: bool)

  /** `ffi_return_type_adjustment`. */
  function Adjustment(abi: Abi, r: ReturnType): nat {
    if abi.bigEndian && r.ty.size < abi.word && r.integer then abi.word - r.ty.size else 0
  }

  // ---- Reading a result that libffi has widened ----

  function Pow256(n: nat): (p: nat)
    ensures p > 0
  { if n == 0 then 1 else 256 * Pow256(n - 1) }

  // The n low bytes of a number, least significant first.
  function LittleEndian(x: nat, n: nat): (r: seq<Byte>)
    ensures |r| == n
  {
    if n == 0 then [] else [(x % 256) as Byte] + LittleEndian(x / 256, n - 1)
  }

  /** A number in n bytes, as the machine stores it. */
  function Stored(bigEndian: bool, x: nat, n: nat): (r: seq<Byte>)
    ensures |r| == n
  {
    if bigEndian then Reverse(LittleEndian(x, n)) else LittleEndian(x, n)
  }

  /** Byte i of a number, counted from the least significant, is i places from the start, or
      from the end if the machine is big-endian. */
  lemma {:induction false} StoredByte(bigEndian: bool, x: nat, n: nat, i: nat)
    requires i < n
    ensures Stored(bigEndian, x, n)[if bigEndian then n - 1 - i else i] as int == (x / Pow256(i)) % 256
  {
    LittleByte(x, n, i);
    ReverseAt(LittleEndian(x, n), n - 1 - i);
  }

  lemma {:induction false} LittleByte(x: nat, n: nat, i: nat)
    requires i < n
    ensures LittleEndian(x, n)[i] as int == (x / Pow256(i)) % 256
    decreases i
  {
    if i > 0 {
      LittleByte(x / 256, n - 1, i - 1);
      DivideTwice(x, 256, Pow256(i - 1));
    }
  }

  lemma DivideTwice(x: nat, a: nat, b: nat)
    requires a > 0 && b > 0
    ensures x / (a * b) == (x / a) / b
  {
    var q, r := (x / a) / b, (x / a) % b;
    DivMul(x / a, b);
    DivMul(x, a);
    Nested(q, r, x % a, a, b);
    MulGap(r, b, a);
    UniqueRest(q, a * b, r * a + x % a, x);
  }

  lemma Nested(q: nat, r: nat, s: nat, a: nat, b: nat)
    ensures (q * b + r) * a + s == q * (a * b) + (r * a + s) && b * a == a * b
  {
    assert (q * b + r) * a == q * b * a + r * a;
    assert q * b * a == q * (a * b);
  }

  // What is above the low bytes does not show in them.
  lemma {:induction false} LowBytes(x: nat, h: nat, n: nat, k: nat)
    requires k <= n
    ensures LittleEndian(x + h * Pow256(k), n)[..k] == LittleEndian(x, k)
    decreases k
  {
    if k > 0 {
      var p := Pow256(k - 1);
      assert x + h * Pow256(k) == x + 256 * (h * p);
      assert (x + 256 * (h * p)) / 256 == x / 256 + h * p && (x + 256 * (h * p)) % 256 == x % 256;
      LowBytes(x / 256, h, n - 1, k - 1);
    }
  }

  lemma ReverseSuffix<T>(s: seq<T>, k: nat)
    requires k <= |s|
    ensures Reverse(s)[|s| - k..] == Reverse(s[..k])
  {
    hide Reverse;
    forall i | 0 <= i < k ensures Reverse(s)[|s| - k + i] == Reverse(s[..k])[i] {
      ReverseAt(s, |s| - k + i);
      ReverseAt(s[..k], i);
    }
  }

  /** The place `radjustment` bytes into the return slot is the one to read: for an integer
      narrower than a word, whatever word the result `x` was widened to (`h` stands for the
      bytes above, zeros or copies of the sign), the bytes there are those of `x`; any
      other result is read from the start. */
  ghost predicate PlaceReads(abi: Abi, r: ReturnType, radjustment: nat) {
    if r.integer && r.ty.size < abi.word then
      && radjustment + r.ty.size <= abi.word
      && forall x: nat, h: nat :: BytesThere(abi, r, radjustment, x, h)
    else radjustment == 0
  }

  ghost predicate BytesThere(abi: Abi, r: ReturnType, radjustment: nat, x: nat, h: nat)
    requires radjustment + r.ty.size <= abi.word
  {
    Stored(abi.bigEndian, x + h * Pow256(r.ty.size), abi.word)[radjustment..radjustment + r.ty.size]
      == Stored(abi.bigEndian, x, r.ty.size)
  }

  lemma AdjustmentReads(abi: Abi, r: ReturnType)
    ensures PlaceReads(abi, r, Adjustment(abi, r))
  {
    if r.integer && r.ty.size < abi.word {
      var size, word := r.ty.size, abi.word;
      forall x: nat, h: nat ensures BytesThere(abi, r, Adjustment(abi, r), x, h) {
        var w := LittleEndian(x + h * Pow256(size), word);
        LowBytes(x, h, word, size);
        assert w[..size] == LittleEndian(x, size);
        ReverseSuffix(w, size);
        if abi.bigEndian {
          assert Reverse(w)[word - size..] == Reverse(w)[word - size..word - size + size];
        }
      }
    }
  }

  lemma SplicedRead(buffer: seq<Byte>, at: nat, bs: seq<Byte>, k: nat, n: nat)
    requires at + |bs| <= |buffer| && k + n <= |bs|
    ensures Splice(buffer, at, bs)[at + k..][..n] == bs[k..k + n]
  {
  }

  lemma ResultInside(abi: Abi, ts: seq<FfiType>, r: ReturnType)
    requires Sane(abi)
    ensures var l := LayoutOf(abi, ts, r);
            && l.roffset + abi.word <= l.size && l.roffset + r.ty.size <= l.size && l.roffset + l.radjustment + r.ty.size <= l.size
            && l.radjustment == Adjustment(abi, r)
  {
    hide EndOfArgs;
    ReturnSlot(abi, ts, r);
    MulGap(0, |ts| + 1, abi.pointer.size);
  }

  /** After the call, the result is read: libffi has stored a narrow integer `x` widened to a
      word in the return slot, or the bytes `bs` of any other result, and the place
      `roffset + radjustment` holds the result's own bytes. */
  lemma ResultIsRead(abi: Abi, ts: seq<FfiType>, r: ReturnType, buffer: seq<Byte>, x: nat, h: nat, bs: seq<Byte>)
    requires Sane(abi) && |buffer| == LayoutOf(abi, ts, r).size && |bs| == r.ty.size
    ensures var l := LayoutOf(abi, ts, r);
            && l.roffset + abi.word <= |buffer| && l.roffset + r.ty.size <= |buffer| && l.roffset + l.radjustment + r.ty.size <= |buffer|
            && (r.integer && r.ty.size < abi.word ==>
                  Splice(buffer, l.roffset, Stored(abi.bigEndian, x + h * Pow256(r.ty.size), abi.word))
                    [l.roffset + l.radjustment..][..r.ty.size] == Stored(abi.bigEndian, x, r.ty.size))
            && (!r.integer || r.ty.size >= abi.word ==>
                  Splice(buffer, l.roffset, bs)[l.roffset + l.radjustment..][..r.ty.size] == bs)
  {
    hide EndOfArgs;
    hide Adjustment;
    hide Stored;
    hide Pow256;
    hide Splice;
    AdjustmentReads(abi, r);
    ResultInside(abi, ts, r);
    var l := LayoutOf(abi, ts, r);
    hide LayoutOf;
    if r.integer && r.ty.size < abi.word {
      assert BytesThere(abi, r, l.radjustment, x, h);
      SplicedRead(buffer, l.roffset, Stored(abi.bigEndian, x + h * Pow256(r.ty.size), abi.word), l.radjustment, r.ty.size);
    } else {
      SplicedRead(buffer, l.roffset, bs, 0, r.ty.size);
    }
  }

  // ---- struct callspec ----

  /** `types` is what the null-terminated array `args` holds. */
  class CallSpecification {
    var bytes: nat
    var nelements: nat
    var capacity: nat
    var maxAlign: nat
    var building: bool
    var args: array<Option<FfiType>>
    var roffset: int
    var radjustment: nat
    ghost var types: seq<FfiType>

    constructor ()
      ensures Valid() && building && types == [] && bytes == 0 && fresh(args)
    {
      bytes, nelements, capacity, maxAlign, building := 0, 0, 0, 0, true;
      args := new Option<FfiType>[0];
      roffset, radjustment, types := -1, 0, [];
    }

    // Null-terminated and within capacity.
    ghost predicate Valid()
      reads this, args
    {
      && args.Length == capacity && nelements == |types|
      && (nelements > 0 ==> nelements < capacity && args[nelements].None?)
      && (forall i :: 0 <= i < nelements ==> i < capacity && args[i] == Some(types[i]))
      && (building ==> bytes == EndOfArgs(types))
    }

    // caml_stat_resize: the entries there are kept.
    method Grow(increment: nat)
      requires args.Length == capacity
      modifies this`args, this`capacity
      ensures fresh(args) && args.Length == capacity == old(capacity) + increment
      ensures args[..old(capacity)] == old(args[..])
    {
      var from := args;
      var bigger := new Option<FfiType>[from.Length + increment](_ => None);
      for i := 0 to from.Length
        invariant bigger[..i] == from[..i]
        modifies bigger
      {
        bigger[i] := from[i];
      }
      args := bigger;
      capacity := capacity + increment;
    }

    /** `ctypes_add_argument`: the slot's offset is returned, the type appended, and what
        was there kept. */
    method AddArgument(t: FfiType) returns (offset: nat)
      requires Valid() && building
      modifies this, args
      ensures Valid() && building && (args == old(args) || fresh(args))
      ensures types == old(types) + [t] && offset == OffsetOf(types, |old(types)|)
      ensures maxAlign == Max(old(maxAlign), t.align) && roffset == old(roffset) && radjustment == old(radjustment)
      ensures capacity == if old(nelements) + 2 >= old(capacity) then old(capacity) + 8 else old(capacity)
    {
      hide EndOfArgs;
      hide OffsetOf;
      AppendedEnds(types, t);
      offset := AlignedOffset(bytes, t.align);
      if nelements + 2 >= capacity {
        ghost var had := args[..];
        Grow(8);
        assert forall i :: 0 <= i < nelements ==> args[i] == args[..|had|][i] == had[i];
      }
      assert forall i :: 0 <= i < nelements ==> args[i] == Some(types[i]);
      args[nelements] := Some(t);
      args[nelements + 1] := None;
      bytes := offset + t.size;
      types := types + [t];
      nelements := nelements + 1;
      maxAlign := Max(maxAlign, t.align);
    }

    /** `ctypes_prep_callspec`, as far as the buffer is concerned. */
    method Prep(abi: Abi, r: ReturnType)
      requires Valid() && building
      modifies this`roffset, this`radjustment, this`bytes, this`building
      ensures Valid() && !building
      ensures roffset == AlignedOffset(EndOfArgs(types), r.ty.align) && PlaceReads(abi, r, radjustment)
      ensures radjustment == LayoutOf(abi, types, r).radjustment
      ensures bytes == AlignedOffset(roffset + r.ty.size, abi.pointer.align) + abi.pointer.size
    {
      AdjustmentReads(abi, r);
      hide PlaceReads;
      var ro := AlignedOffset(bytes, r.ty.align);
      roffset, radjustment := ro, Adjustment(abi, r);
      bytes := AlignedOffset(ro + r.ty.size, abi.pointer.align) + abi.pointer.size;
      building := false;
    }

    /** `compute_arg_buffer_size`, after `Prep(abi, r)`: the pointer array is aligned, clear
        of the return slot even widened to a word, and the last thing in the buffer. */
    method ComputeArgBufferSize(abi: Abi, ghost r: ReturnType) returns (size: nat, arrayOffset: nat)
      requires Valid() && !building && Sane(abi) && bytes == LayoutOf(abi, types, r).bytes
      ensures arrayOffset == LayoutOf(abi, types, r).arrayOffset && size == LayoutOf(abi, types, r).size
      ensures arrayOffset % abi.pointer.align == 0
      ensures LayoutOf(abi, types, r).roffset + Max(r.ty.size, abi.word) <= arrayOffset
      ensures forall k :: 0 <= k < nelements ==> PointerSlot(abi, arrayOffset, k) + abi.pointer.size <= size
    {
      hide EndOfArgs;
      arrayOffset := AlignedOffset(bytes, abi.pointer.align);
      size := arrayOffset + nelements * abi.pointer.size;
      ReturnSlot(abi, types, r);
      PointerSlots(abi, arrayOffset, nelements);
    }

    /** `populate_arg_array`: the second computation of the offsets, from the types alone. */
    method PopulateArgArray(buffer: nat, pointers: array<nat>)
      requires Valid() && pointers.Length == nelements && (pointers as object) != (args as object)
      modifies pointers
      ensures Valid()
      ensures forall i :: 0 <= i < nelements ==> pointers[i] == buffer + OffsetOf(types, i)
    {
      var offset: nat := 0;
      for i := 0 to nelements
        invariant Valid() && offset == EndOfArgs(types[..i])
        invariant forall k :: 0 <= k < i ==> pointers[k] == buffer + OffsetOf(types, k)
      {
        offset := AlignedOffset(offset, args[i].value.align);
        pointers[i] := buffer + offset;
        offset := offset + args[i].value.size;
        EndsAfter(types, i);
      }
    }
  }

  // ---- The whole buffer ----

  datatype Layout = Layout(roffset: nat, radjustment: nat, bytes: nat, arrayOffset: nat, size: nat)

  // What the four computations above arrive at.
  function LayoutOf(abi: Abi, ts: seq<FfiType>, r: ReturnType): Layout {
    var roffset := AlignedOffset(EndOfArgs(ts), r.ty.align);
    var bytes := AlignedOffset(roffset + r.ty.size, abi.pointer.align) + abi.pointer.size;
    var arrayOffset := AlignedOffset(bytes, abi.pointer.align);
    Layout(roffset, Adjustment(abi, r), bytes, arrayOffset, arrayOffset + |ts| * abi.pointer.size)
  }

  // Where entry k of the pointer array is.
  function PointerSlot(abi: Abi, arrayOffset: nat, k: nat): int { arrayOffset + k * abi.pointer.size }

  /** A call buffer, with or without arguments: the return slot is aligned and comes after
      every argument; even widened to a word it, and the place the result is read from,
      end before the pointer array, whose entries are aligned and end the buffer; that place
      is the one where the result is. */
  lemma BufferLayout(abi: Abi, ts: seq<FfiType>, r: ReturnType)
    requires Sane(abi)
    ensures var l := LayoutOf(abi, ts, r);
            && l.roffset % r.ty.align == 0 && (forall i :: 0 <= i < |ts| ==> OffsetOf(ts, i) + ts[i].size <= l.roffset)
            && l.roffset + Max(r.ty.size, abi.word) <= l.bytes <= l.arrayOffset <= l.size
            && l.roffset + l.radjustment + r.ty.size <= l.roffset + Max(r.ty.size, abi.word) && PlaceReads(abi, r, l.radjustment)
            && forall k :: 0 <= k < |ts| ==>
                 && PointerSlot(abi, l.arrayOffset, k) % abi.pointer.align == 0
                 && l.arrayOffset <= PointerSlot(abi, l.arrayOffset, k) && PointerSlot(abi, l.arrayOffset, k) + abi.pointer.size <= l.size
  {
    hide OffsetOf;
    hide EndOfArgs;
    forall i | 0 <= i < |ts| ensures OffsetOf(ts, i) + ts[i].size <= EndOfArgs(ts) { SlotInside(ts, i); }
    ReturnSlot(abi, ts, r);
    AdjustmentReads(abi, r);
    hide PlaceReads;
    hide LayoutOf;
    PointerSlots(abi, LayoutOf(abi, ts, r).arrayOffset, |ts|);
  }

  lemma ReturnSlot(abi: Abi, ts: seq<FfiType>, r: ReturnType)
    requires Sane(abi)
    ensures var l := LayoutOf(abi, ts, r);
            && l.roffset % r.ty.align == 0 && EndOfArgs(ts) <= l.roffset
            && l.roffset + Max(r.ty.size, abi.word) <= l.bytes <= l.arrayOffset && l.arrayOffset % abi.pointer.align == 0
            && l.radjustment + r.ty.size <= Max(r.ty.size, abi.word)
            && l.size == l.arrayOffset + |ts| * abi.pointer.size
  {
    hide EndOfArgs;
  }

  lemma PointerSlots(abi: Abi, arrayOffset: nat, n: nat)
    requires Sane(abi) && arrayOffset % abi.pointer.align == 0
    ensures arrayOffset <= arrayOffset + n * abi.pointer.size
    ensures forall k :: 0 <= k < n ==>
              && PointerSlot(abi, arrayOffset, k) % abi.pointer.align == 0 && arrayOffset <= PointerSlot(abi, arrayOffset, k)
              && PointerSlot(abi, arrayOffset, k) + abi.pointer.size <= arrayOffset + n * abi.pointer.size
  {
    MulGap(0, n + 1, abi.pointer.size);
    forall k | 0 <= k < n
      ensures PointerSlot(abi, arrayOffset, k) % abi.pointer.align == 0 && arrayOffset <= PointerSlot(abi, arrayOffset, k)
      ensures PointerSlot(abi, arrayOffset, k) + abi.pointer.size <= arrayOffset + n * abi.pointer.size
    {
      MulKeepsMod(k, abi.pointer.size, abi.pointer.align);
      AddMod(arrayOffset, k * abi.pointer.size, abi.pointer.align);
      MulGap(k, n, abi.pointer.size);
      MulGap(0, k + 1, abi.pointer.size);
    }
  }

  // ---- Driving it: build_ccallspec, write_arg and invoke ----

  // A parameter as libffi needs it: none for void, a slot, or a pointer to be filled in.
  datatype Param = NoArg | InBuffer(t: FfiType) | OCamlArg(eltSize: nat)

  // An argument: the bytes of a C value, or an OCaml object and a displacement.
  datatype Arg = Nothing | Bytes(bs: seq<Byte>) | Reference(obj: nat, disp: int)

  datatype Moved = Moved(obj: nat, bytes: int)

  // What a parameter contributes to the type array.
  function TypesOf(abi: Abi, p: Param): seq<FfiType> {
    match p case NoArg => [] case InBuffer(t) => [t] case OCamlArg(_) => [abi.pointer]
  }

  function Elements(abi: Abi, ps: seq<Param>): seq<FfiType>
    decreases |ps|
  {
    if ps == [] then [] else TypesOf(abi, ps[0]) + Elements(abi, ps[1..])
  }

  // How many elements come before parameter j.
  function ElementIndex(ps: seq<Param>, j: nat): nat
    requires j <= |ps|
    decreases j
  {
    if j == 0 then 0 else (if ps[0].NoArg? then 0 else 1) + ElementIndex(ps[1..], j - 1)
  }

  lemma {:induction false} ElementOf(abi: Abi, ps: seq<Param>, j: nat)
    requires j < |ps| && !ps[j].NoArg?
    ensures ElementIndex(ps, j) < |Elements(abi, ps)| && [Elements(abi, ps)[ElementIndex(ps, j)]] == TypesOf(abi, ps[j])
    decreases j
  {
    if j > 0 { ElementOf(abi, ps[1..], j - 1); }
  }

  lemma {:induction false} IndicesIncrease(ps: seq<Param>, i: nat, j: nat)
    requires i < j <= |ps|
    ensures ElementIndex(ps, i) + (if ps[i].NoArg? then 0 else 1) <= ElementIndex(ps, j)
    decreases j
  {
    if i > 0 { IndicesIncrease(ps[1..], i - 1, j - 1); }
  }

  /** Each OCaml reference is put at the parameter's own position, which is that of its
      element exactly when no void comes before it. */
  lemma {:induction false} ReferenceIndexIff(ps: seq<Param>, j: nat)
    requires j <= |ps|
    ensures ElementIndex(ps, j) <= j
    ensures ElementIndex(ps, j) == j <==> forall i :: 0 <= i < j ==> !ps[i].NoArg?
    decreases j
  {
    if j > 0 {
      ReferenceIndexIff(ps[1..], j - 1);
      assert forall i :: 0 <= i < j - 1 ==> ps[1..][i] == ps[i + 1];
      if forall i :: 0 <= i < j ==> !ps[i].NoArg? { assert !ps[0].NoArg?; }
      if !ps[0].NoArg? && (forall i :: 0 <= i < j - 1 ==> !ps[1..][i].NoArg?) {
        forall i | 0 <= i < j ensures !ps[i].NoArg? { if i > 0 { assert !ps[1..][i - 1].NoArg?; } }
      }
    }
  }

  datatype Writer = Writer(p: Param, offset: nat, idx: nat)

  // The writers for parameters coming after elements `before`.
  function WritersFor(abi: Abi, ps: seq<Param>, before: seq<FfiType>, idx: nat): (ws: seq<Writer>)
    ensures |ws| == |ps|
    decreases |ps|
  {
    if ps == [] then []
    else
      var added := before + TypesOf(abi, ps[0]);
      [Writer(ps[0], if ps[0].NoArg? then 0 else OffsetOf(added, |before|), idx)] + WritersFor(abi, ps[1..], added, idx + 1)
  }

  /** The offset a writer was given while the types were being added is the offset of its
      element in the finished list: the one the argument array is filled with. */
  lemma {:induction false} OffsetsAgree(abi: Abi, ps: seq<Param>, before: seq<FfiType>, idx: nat, j: nat)
    requires j < |ps|
    ensures var w := WritersFor(abi, ps, before, idx)[j]; var ts := before + Elements(abi, ps);
            && w.p == ps[j] && w.idx == idx + j
            && (!ps[j].NoArg? ==>
                  var e := |before| + ElementIndex(ps, j);
                  e < |ts| && [ts[e]] == TypesOf(abi, ps[j]) && w.offset == OffsetOf(ts, e))
    decreases |ps|
  {
    hide OffsetOf;
    var added, more := before + TypesOf(abi, ps[0]), Elements(abi, ps[1..]);
    assert before + Elements(abi, ps) == added + more;
    if j == 0 {
      if !ps[0].NoArg? { OffsetsStay(added, more, |before|); }
    } else {
      OffsetsAgree(abi, ps[1..], added, idx + 1, j - 1);
    }
  }

  // A parameter's own writer, after elements `before`.
  function WriterFor(abi: Abi, p: Param, before: seq<FfiType>, idx: nat): Writer {
    Writer(p, if p.NoArg? then 0 else OffsetOf(before + TypesOf(abi, p), |before|), idx)
  }

  /** `add_argument`: nothing for void. */
  method AddParameter(abi: Abi, p: Param, idx: nat, spec: CallSpecification) returns (w: Writer)
    requires spec.Valid() && spec.building
    modifies spec, spec.args
    ensures spec.Valid() && spec.building && spec.types == old(spec.types) + TypesOf(abi, p)
    ensures fresh(spec.args) || spec.args == old(spec.args)
    ensures w == WriterFor(abi, p, old(spec.types), idx)
  {
    hide EndOfArgs;
    hide OffsetOf;
    var offset := 0;
    match p {
      case NoArg => assert spec.types + [] == spec.types;
      case InBuffer(t) => offset := spec.AddArgument(t);
      case OCamlArg(_) => offset := spec.AddArgument(abi.pointer);
    }
    w := Writer(p, offset, idx);
  }

  lemma WritersCons(abi: Abi, ps: seq<Param>, before: seq<FfiType>, idx: nat)
    requires ps != []
    ensures var added := before + TypesOf(abi, ps[0]);
            && before + Elements(abi, ps) == added + Elements(abi, ps[1..])
            && WritersFor(abi, ps, before, idx) == [WriterFor(abi, ps[0], before, idx)] + WritersFor(abi, ps[1..], added, idx + 1)
  {
    hide OffsetOf;
  }

  /** `build_ccallspec`: one writer per parameter, void ones included. */
  method BuildCallspec(abi: Abi, ps: seq<Param>, idx: nat, r: ReturnType, spec: CallSpecification) returns (ws: seq<Writer>)
    requires spec.Valid() && spec.building
    modifies spec, spec.args
    ensures spec.Valid() && !spec.building && spec.types == old(spec.types) + Elements(abi, ps)
    ensures fresh(spec.args) || spec.args == old(spec.args)
    ensures spec.roffset == LayoutOf(abi, spec.types, r).roffset && spec.bytes == LayoutOf(abi, spec.types, r).bytes
    ensures spec.radjustment == LayoutOf(abi, spec.types, r).radjustment && PlaceReads(abi, r, spec.radjustment)
    ensures ws == WritersFor(abi, ps, old(spec.types), idx)
    decreases |ps|
  {
    hide EndOfArgs;
    hide PlaceReads;
    if ps == [] {
      spec.Prep(abi, r);
      assert old(spec.types) + [] == old(spec.types);
      return [];
    }
    hide Elements;
    hide WritersFor;
    hide WriterFor;
    hide LayoutOf;
    WritersCons(abi, ps, spec.types, idx);
    var w := AddParameter(abi, ps[0], idx, spec);
    var rest := BuildCallspec(abi, ps[1..], idx + 1, r, spec);
    ws := [w] + rest;
  }

  // A writer together with the argument it is to write.
  datatype Job = Job(w: Writer, arg: Arg)

  predicate JobFits(j: Job, buffer: nat) {
    match j.w.p
    case NoArg => true
    case InBuffer(t) => j.arg.Bytes? && |j.arg.bs| == t.size && j.w.offset + t.size <= buffer
    case OCamlArg(_) => j.arg.Reference?
  }

  predicate JobsApart(a: Job, b: Job) {
    && (a.w.p.InBuffer? && b.w.p.InBuffer? ==> a.w.offset + a.w.p.t.size <= b.w.offset || b.w.offset + b.w.p.t.size <= a.w.offset)
    && (a.w.p.OCamlArg? && b.w.p.OCamlArg? ==> a.w.idx != b.w.idx)
  }

  ghost predicate AllApart(jobs: seq<Job>) {
    forall i, j :: 0 <= i < j < |jobs| ==> JobsApart(jobs[i], jobs[j])
  }

  // The call buffer's bytes and the array references are put in.
  datatype Buffers = Buffers(buf: seq<Byte>, mov: seq<Option<Moved>>)

  function Splice(buf: seq<Byte>, at: nat, bs: seq<Byte>): (r: seq<Byte>)
    requires at + |bs| <= |buf|
    ensures |r| == |buf| && r[at..at + |bs|] == bs
    ensures forall i :: 0 <= i < |buf| && !(at <= i < at + |bs|) ==> r[i] == buf[i]
  {
    buf[..at] + bs + buf[at + |bs|..]
  }

  function RunJob(j: Job, b: Buffers): Result<Buffers>
    requires JobFits(j, |b.buf|)
  {
    match j.w.p
    case NoArg => Ok(b)
    case InBuffer(_) => Ok(b.(buf := Splice(b.buf, j.w.offset, j.arg.bs)))
    case OCamlArg(size) =>
      if j.w.idx >= |b.mov| then Raises(InvalidArgument("index out of bounds"))
      else Ok(b.(mov := b.mov[j.w.idx := Some(Moved(j.arg.obj, j.arg.disp * size))]))
  }

  function RunJobs(jobs: seq<Job>, b: Buffers): (r: Result<Buffers>)
    requires forall j :: j in jobs ==> JobFits(j, |b.buf|)
    ensures r.Ok? ==> |r.value.buf| == |b.buf| && |r.value.mov| == |b.mov|
    decreases |jobs|
  {
    if jobs == [] then Ok(b)
    else match RunJobs(jobs[..|jobs| - 1], b)
      case Raises(e) => Raises(e)
      case Ok(b1) => RunJob(jobs[|jobs| - 1], b1)
  }

  // The effect of a job is in place.
  predicate Written(j: Job, b: Buffers) {
    match j.w.p
    case NoArg => true
    case InBuffer(t) => j.w.offset + t.size <= |b.buf| && j.arg.Bytes? && b.buf[j.w.offset..j.w.offset + t.size] == j.arg.bs
    case OCamlArg(size) => j.arg.Reference? && j.w.idx < |b.mov| && b.mov[j.w.idx] == Some(Moved(j.arg.obj, j.arg.disp * size))
  }

  lemma JobWrites(j: Job, b: Buffers)
    requires JobFits(j, |b.buf|) && RunJob(j, b).Ok?
    ensures Written(j, RunJob(j, b).value)
  {
  }

  lemma StillWritten(a: Job, j: Job, b: Buffers)
    requires JobFits(j, |b.buf|) && RunJob(j, b).Ok? && JobsApart(a, j) && Written(a, b)
    ensures Written(a, RunJob(j, b).value)
  {
    if a.w.p.InBuffer? {
      var lo, hi := a.w.offset, a.w.offset + a.w.p.t.size;
      assert RunJob(j, b).value.buf[lo..hi] == b.buf[lo..hi];
    }
  }

  // An index no job of the list moves to.
  predicate Untouched(jobs: seq<Job>, i: nat) { forall j :: j in jobs && j.w.p.OCamlArg? ==> j.w.idx != i }

  predicate IndicesInside(jobs: seq<Job>, n: nat) { forall j :: j in jobs && j.w.p.OCamlArg? ==> j.w.idx < n }

  /** Whatever the order of the writers, every argument ends up in its own slot and every
      reference at its own index; it goes wrong only for an index past the end. */
  lemma {:induction false} WritersInAnyOrder(jobs: seq<Job>, b: Buffers)
    requires (forall j :: j in jobs ==> JobFits(j, |b.buf|)) && AllApart(jobs)
    ensures RunJobs(jobs, b).Ok? <==> IndicesInside(jobs, |b.mov|)
    ensures RunJobs(jobs, b).Ok? ==> forall j :: j in jobs ==> Written(j, RunJobs(jobs, b).value)
    ensures RunJobs(jobs, b).Ok? ==> forall i :: 0 <= i < |b.mov| && Untouched(jobs, i) ==> RunJobs(jobs, b).value.mov[i] == b.mov[i]
    ensures RunJobs(jobs, b).Raises? ==> RunJobs(jobs, b) == Raises(InvalidArgument("index out of bounds"))
    decreases |jobs|
  {
    if jobs != [] {
      var front, last := jobs[..|jobs| - 1], jobs[|jobs| - 1];
      assert jobs == front + [last];
      assert AllApart(front);
      WritersInAnyOrder(front, b);
      if RunJobs(front, b).Ok? { LastWriter(front, last, b, RunJobs(front, b).value); }
    }
  }

  lemma LastWriter(front: seq<Job>, last: Job, b: Buffers, b1: Buffers)
    requires JobFits(last, |b1.buf|) && AllApart(front + [last]) && |b1.mov| == |b.mov|
    requires forall j :: j in front ==> Written(j, b1)
    requires forall i :: 0 <= i < |b.mov| && Untouched(front, i) ==> b1.mov[i] == b.mov[i]
    ensures RunJob(last, b1).Ok? ==> forall j :: j in front + [last] ==> Written(j, RunJob(last, b1).value)
    ensures RunJob(last, b1).Ok? ==> |RunJob(last, b1).value.mov| == |b.mov|
    ensures RunJob(last, b1).Ok? ==> forall i :: 0 <= i < |b.mov| && Untouched(front + [last], i) ==> RunJob(last, b1).value.mov[i] == b.mov[i]
  {
    if RunJob(last, b1).Ok? {
      forall j | j in front + [last] ensures Written(j, RunJob(last, b1).value) {
        if j in front {
          var k :| 0 <= k < |front| && front[k] == j;
          assert JobsApart((front + [last])[k], (front + [last])[|front|]);
          StillWritten(j, last, b1);
        } else { JobWrites(last, b1); }
      }
      forall i | 0 <= i < |b.mov| && Untouched(front + [last], i) ensures RunJob(last, b1).value.mov[i] == b.mov[i] {
        assert last in front + [last];
        assert Untouched(front, i);
      }
    }
  }

  /** `write_arg`, for one argument. */
  method WriteArg(j: Job, buf: array<Byte>, mov: array<Option<Moved>>) returns (r: Result<()>)
    requires JobFits(j, buf.Length) && (buf as object) != (mov as object)
    modifies buf, mov
    ensures var after := RunJob(j, Buffers(old(buf[..]), old(mov[..])));
            if r.Ok? then after == Ok(Buffers(buf[..], mov[..])) else after == Raises(r.error)
  {
    match j.w.p
    case NoArg =>
      r := Ok(());
    case InBuffer(t) =>
      for k := 0 to t.size
        invariant forall i :: 0 <= i < k ==> buf[j.w.offset + i] == j.arg.bs[i]
        invariant forall i :: 0 <= i < buf.Length && !(j.w.offset <= i < j.w.offset + k) ==> buf[i] == old(buf[i])
        invariant mov[..] == old(mov[..])
      {
        buf[j.w.offset + k] := j.arg.bs[k];
      }
      assert buf[..] == Splice(old(buf[..]), j.w.offset, j.arg.bs);
      r := Ok(());
    case OCamlArg(size) =>
      if j.w.idx >= mov.Length { return Raises(InvalidArgument("index out of bounds")); }
      mov[j.w.idx] := Some(Moved(j.arg.obj, j.arg.disp * size));
      r := Ok(());
  }

  /** `List.iter (fun w -> w buf arr) writers`, in the order of the list. */
  method RunWriters(jobs: seq<Job>, buf: array<Byte>, mov: array<Option<Moved>>) returns (r: Result<()>)
    requires (forall j :: j in jobs ==> JobFits(j, buf.Length)) && (buf as object) != (mov as object)
    modifies buf, mov
    ensures var after := RunJobs(jobs, Buffers(old(buf[..]), old(mov[..])));
            if r.Ok? then after == Ok(Buffers(buf[..], mov[..])) else after.Raises?
  {
    hide RunJob;
    ghost var start := Buffers(buf[..], mov[..]);
    for n := 0 to |jobs|
      invariant RunJobs(jobs[..n], start) == Ok(Buffers(buf[..], mov[..]))
    {
      assert jobs[..n + 1][..n] == jobs[..n];
      var one := WriteArg(jobs[n], buf, mov);
      if one.Raises? {
        StopsThere(jobs, n + 1, start);
        return Raises(one.error);
      }
    }
    assert jobs[..|jobs|] == jobs;
    r := Ok(());
  }

  lemma {:induction false} StopsThere(jobs: seq<Job>, n: nat, b: Buffers)
    requires (forall j :: j in jobs ==> JobFits(j, |b.buf|)) && n <= |jobs| && RunJobs(jobs[..n], b).Raises?
    ensures RunJobs(jobs, b).Raises?
    decreases |jobs|
  {
    hide RunJob;
    if n == |jobs| { assert jobs[..n] == jobs; } else {
      assert jobs[..|jobs| - 1][..n] == jobs[..n];
      StopsThere(jobs[..|jobs| - 1], n, b);
    }
  }

  // ---- What the C function gets ----

  predicate ArgFits(p: Param, a: Arg) {
    match p
    case NoArg => true
    case InBuffer(t) => a.Bytes? && |a.bs| == t.size
    case OCamlArg(_) => a.Reference?
  }

  function JobsFor(abi: Abi, ps: seq<Param>, args: seq<Arg>): (r: seq<Job>)
    requires |args| == |ps|
    ensures |r| == |ps|
  {
    seq(|ps|, i requires 0 <= i < |ps| => Job(WritersFor(abi, ps, [], 0)[i], args[i]))
  }

  /** `invoke`: each writer, given its argument, goes in front of those collected so far;
      the call runs the list it arrives with. */
  function Invoke(ws: seq<Writer>, args: seq<Arg>, writers: seq<Job>): seq<Job>
    requires |args| == |ws|
  {
    if ws == [] then writers else Invoke(ws[1..], args[1..], [Job(ws[0], args[0])] + writers)
  }

  // All the jobs, in some order.
  ghost predicate SomeOrderOf(order: seq<Job>, jobs: seq<Job>) {
    (forall j :: j in order <==> j in jobs) && forall i, k :: 0 <= i < k < |order| ==> order[i] != order[k]
  }

  predicate NoVoidBeforeReferences(ps: seq<Param>) {
    forall i, j :: 0 <= i < j < |ps| && ps[j].OCamlArg? ==> !ps[i].NoArg?
  }

  lemma JobOf(abi: Abi, ps: seq<Param>, args: seq<Arg>, j: nat)
    requires |args| == |ps| && j < |ps| && ArgFits(ps[j], args[j])
    ensures var job := JobsFor(abi, ps, args)[j]; var ts := Elements(abi, ps);
            && job.w.p == ps[j] && job.w.idx == j && job.arg == args[j] && JobFits(job, EndOfArgs(ts))
            && (!ps[j].NoArg? ==>
                  var e := ElementIndex(ps, j);
                  e < |ts| && [ts[e]] == TypesOf(abi, ps[j]) && job.w.offset == OffsetOf(ts, e))
  {
    hide OffsetOf;
    OffsetsAgree(abi, ps, [], 0, j);
    assert [] + Elements(abi, ps) == Elements(abi, ps);
    if !ps[j].NoArg? { SlotInside(Elements(abi, ps), ElementIndex(ps, j)); }
  }

  lemma JobsOfDifferentParameters(abi: Abi, ps: seq<Param>, args: seq<Arg>, i: nat, j: nat)
    requires |args| == |ps| && i < j < |ps| && ArgFits(ps[i], args[i]) && ArgFits(ps[j], args[j])
    ensures var jobs := JobsFor(abi, ps, args); JobsApart(jobs[i], jobs[j]) && JobsApart(jobs[j], jobs[i]) && jobs[i] != jobs[j]
  {
    hide OffsetOf;
    hide EndOfArgs;
    JobOf(abi, ps, args, i);
    JobOf(abi, ps, args, j);
    if ps[i].InBuffer? && ps[j].InBuffer? {
      IndicesIncrease(ps, i, j);
      SlotsInOrder(Elements(abi, ps), ElementIndex(ps, i), ElementIndex(ps, j));
    }
  }

  lemma OrderApart(abi: Abi, ps: seq<Param>, args: seq<Arg>, order: seq<Job>)
    requires AllFit(ps, args) && SomeOrderOf(order, JobsFor(abi, ps, args))
    ensures AllApart(order)
  {
    hide JobsApart;
    hide JobsFor;
    var jobs := JobsFor(abi, ps, args);
    forall a, b | 0 <= a < b < |order| ensures JobsApart(order[a], order[b]) {
      assert order[a] in jobs && order[b] in jobs && order[a] != order[b];
      var i :| 0 <= i < |jobs| && jobs[i] == order[a];
      var k :| 0 <= k < |jobs| && jobs[k] == order[b];
      if i < k { JobsOfDifferentParameters(abi, ps, args, i, k); } else { JobsOfDifferentParameters(abi, ps, args, k, i); }
    }
  }

  // Element j's argument has arrived: by the slot's bytes, with no reference put over them,
  // or by the reference put at the element's own index.
  predicate Arrives(abi: Abi, ps: seq<Param>, args: seq<Arg>, j: nat, r: Buffers)
    requires |args| == |ps| && j < |ps|
  {
    ps[j].NoArg? ||
    (var ts, e := Elements(abi, ps), ElementIndex(ps, j);
     && e < |ts| && |r.mov| == |ts| && OffsetOf(ts, e) + ts[e].size <= |r.buf|
     && match ps[j]
        case InBuffer(t) => r.mov[e].None? && args[j].Bytes? && r.buf[OffsetOf(ts, e)..OffsetOf(ts, e) + ts[e].size] == args[j].bs
        case OCamlArg(size) => args[j].Reference? && r.mov[e] == Some(Moved(args[j].obj, args[j].disp * size)))
  }

  // The call's buffer is large enough and no reference has been put in the array yet.
  predicate Unfilled(abi: Abi, ps: seq<Param>, b: Buffers) {
    && EndOfArgs(Elements(abi, ps)) <= |b.buf| && |b.mov| == |Elements(abi, ps)|
    && forall i :: 0 <= i < |b.mov| ==> b.mov[i].None?
  }

  predicate AllFit(ps: seq<Param>, args: seq<Arg>) {
    |args| == |ps| && forall j :: 0 <= j < |ps| ==> ArgFits(ps[j], args[j])
  }

  /** After the writers have run, in whatever order, every parameter's argument has arrived
      exactly when no void comes before an OCaml reference. */
  lemma ArrivalIff(abi: Abi, ps: seq<Param>, args: seq<Arg>, order: seq<Job>, b: Buffers)
    requires AllFit(ps, args) && SomeOrderOf(order, JobsFor(abi, ps, args)) && Unfilled(abi, ps, b)
    ensures forall k :: k in order ==> JobFits(k, |b.buf|)
    ensures RunJobs(order, b).Ok? && (forall j :: 0 <= j < |ps| ==> Arrives(abi, ps, args, j, RunJobs(order, b).value)) <==>
            NoVoidBeforeReferences(ps)
  {
    hide OffsetOf;
    hide EndOfArgs;
    hide RunJobs;
    hide SomeOrderOf;
    hide JobsFor;
    OrderFits(abi, ps, args, order, |b.buf|);
    if NoVoidBeforeReferences(ps) {
      forall j | 0 <= j < |ps| ensures RunJobs(order, b).Ok? && Arrives(abi, ps, args, j, RunJobs(order, b).value) {
        ArgumentArrives(abi, ps, args, order, b, j);
      }
      OrderApart(abi, ps, args, order);
      OrderInside(abi, ps, args, order);
      WritersInAnyOrder(order, b);
    } else {
      var j := FirstMisplaced(ps);
      ReferenceLost(abi, ps, args, order, b, j);
      if RunJobs(order, b).Ok? {
        assert ps[j].OCamlArg? && RunJobs(order, b).value.mov[ElementIndex(ps, j)].None?;
        assert !Arrives(abi, ps, args, j, RunJobs(order, b).value);
      }
    }
  }

  lemma ArgumentArrives(abi: Abi, ps: seq<Param>, args: seq<Arg>, order: seq<Job>, b: Buffers, j: nat)
    requires AllFit(ps, args) && NoVoidBeforeReferences(ps) && j < |ps|
    requires SomeOrderOf(order, JobsFor(abi, ps, args)) && Unfilled(abi, ps, b)
    ensures (forall k :: k in order ==> JobFits(k, |b.buf|)) && RunJobs(order, b).Ok?
    ensures Arrives(abi, ps, args, j, RunJobs(order, b).value)
  {
    hide OffsetOf;
    hide EndOfArgs;
    hide RunJobs;
    var jobs, ts := JobsFor(abi, ps, args), Elements(abi, ps);
    OrderFits(abi, ps, args, order, |b.buf|);
    OrderApart(abi, ps, args, order);
    WritersInAnyOrder(order, b);
    OrderInside(abi, ps, args, order);
    JobOf(abi, ps, args, j);
    assert jobs[j] in order;
    assert Written(jobs[j], RunJobs(order, b).value);
    if !ps[j].NoArg? { SlotInside(ts, ElementIndex(ps, j)); }
    if ps[j].InBuffer? { NoReferenceThere(abi, ps, args, order, j); }
    if ps[j].OCamlArg? { ReferenceIndexIff(ps, j); }
  }

  // A reference with a void before it, while the references before it have none.
  predicate Misplaced(ps: seq<Param>, j: nat) {
    && j < |ps| && ps[j].OCamlArg? && (exists i :: 0 <= i < j && ps[i].NoArg?)
    && NoVoidBeforeReferences(ps[..j])
  }

  lemma {:induction false} FirstMisplaced(ps: seq<Param>) returns (j: nat)
    requires !NoVoidBeforeReferences(ps)
    ensures Misplaced(ps, j)
    decreases |ps|
  {
    var n := |ps| - 1;
    if NoVoidBeforeReferences(ps[..n]) {
      j := n;
      var i, k :| 0 <= i < k < |ps| && ps[k].OCamlArg? && ps[i].NoArg?;
      assert forall l :: 0 <= l < n ==> ps[l] == ps[..n][l];
    } else {
      j := FirstMisplaced(ps[..n]);
      assert ps[..n][..j] == ps[..j];
      var i :| 0 <= i < j && ps[..n][i].NoArg?;
      assert ps[i].NoArg?;
    }
  }

  /** The first such reference is lost: the writers raise, which they do exactly when some
      reference's position is past the last element, or nothing is put at its element. */
  lemma ReferenceLost(abi: Abi, ps: seq<Param>, args: seq<Arg>, order: seq<Job>, b: Buffers, j: nat)
    requires AllFit(ps, args) && Misplaced(ps, j)
    requires SomeOrderOf(order, JobsFor(abi, ps, args)) && Unfilled(abi, ps, b)
    ensures (forall k :: k in order ==> JobFits(k, |b.buf|)) && ElementIndex(ps, j) < |b.mov|
    ensures RunJobs(order, b).Raises? <==> exists k :: 0 <= k < |ps| && ps[k].OCamlArg? && k >= |b.mov|
    ensures RunJobs(order, b).Raises? || RunJobs(order, b).value.mov[ElementIndex(ps, j)].None?
  {
    hide OffsetOf;
    hide EndOfArgs;
    hide RunJobs;
    OrderFits(abi, ps, args, order, |b.buf|);
    OrderApart(abi, ps, args, order);
    WritersInAnyOrder(order, b);
    ElementOf(abi, ps, j);
    NothingThere(abi, ps, args, order, j);
    OrderInsideIff(abi, ps, args, order, |b.mov|);
  }

  lemma NothingThere(abi: Abi, ps: seq<Param>, args: seq<Arg>, order: seq<Job>, j: nat)
    requires AllFit(ps, args) && SomeOrderOf(order, JobsFor(abi, ps, args)) && Misplaced(ps, j)
    ensures Untouched(order, ElementIndex(ps, j))
  {
    hide JobsFor;
    hide EndOfArgs;
    hide OffsetOf;
    var jobs, e := JobsFor(abi, ps, args), ElementIndex(ps, j);
    ReferenceIndexIff(ps, j);
    forall k | k in order && k.w.p.OCamlArg? ensures k.w.idx != e {
      var i :| 0 <= i < |jobs| && jobs[i] == k;
      JobOf(abi, ps, args, i);
      if i == e {
        assert forall l :: 0 <= l < j ==> ps[..j][l] == ps[l];
        ReferenceIndexIff(ps, i);
        IndicesIncrease(ps, i, j);
      }
    }
  }

  lemma OrderInsideIff(abi: Abi, ps: seq<Param>, args: seq<Arg>, order: seq<Job>, n: nat)
    requires AllFit(ps, args) && SomeOrderOf(order, JobsFor(abi, ps, args))
    ensures IndicesInside(order, n) <==> forall k :: 0 <= k < |ps| && ps[k].OCamlArg? ==> k < n
  {
    hide JobsFor;
    hide EndOfArgs;
    hide OffsetOf;
    var jobs := JobsFor(abi, ps, args);
    forall i | 0 <= i < |ps| ensures jobs[i] in order && jobs[i].w.p == ps[i] && jobs[i].w.idx == i {
      JobOf(abi, ps, args, i);
    }
    forall k | k in order ensures exists i :: 0 <= i < |ps| && jobs[i] == k {
      assert k in jobs;
    }
  }

  // A lone reference after void: the writer raises, whatever the order.
  lemma LoneReferenceExample(abi: Abi, arg: Arg, order: seq<Job>, b: Buffers)
    requires var ps := [NoArg, OCamlArg(1)];
             arg.Reference? && SomeOrderOf(order, JobsFor(abi, ps, [Nothing, arg])) && Unfilled(abi, ps, b)
    ensures (forall k :: k in order ==> JobFits(k, |b.buf|)) && RunJobs(order, b) == Raises(InvalidArgument("index out of bounds"))
  {
    hide OffsetOf;
    hide EndOfArgs;
    hide RunJobs;
    var ps, args := [NoArg, OCamlArg(1)], [Nothing, arg];
    assert ps[..1] == [NoArg] && Misplaced(ps, 1);
    assert ps[1..] == [OCamlArg(1)] && |Elements(abi, ps)| == 1;
    ReferenceLost(abi, ps, args, order, b, 1);
    OrderFits(abi, ps, args, order, |b.buf|);
    OrderApart(abi, ps, args, order);
    assert ps[1].OCamlArg? && 1 >= |b.mov|;
    WritersInAnyOrder(order, b);
  }

  lemma OrderFits(abi: Abi, ps: seq<Param>, args: seq<Arg>, order: seq<Job>, size: nat)
    requires AllFit(ps, args) && SomeOrderOf(order, JobsFor(abi, ps, args))
    requires EndOfArgs(Elements(abi, ps)) <= size
    ensures forall k :: k in order ==> JobFits(k, size)
  {
    hide JobsFor;
    hide EndOfArgs;
    var jobs := JobsFor(abi, ps, args);
    forall k | k in order ensures JobFits(k, size) {
      var i :| 0 <= i < |jobs| && jobs[i] == k;
      JobOf(abi, ps, args, i);
    }
  }

  lemma OrderInside(abi: Abi, ps: seq<Param>, args: seq<Arg>, order: seq<Job>)
    requires AllFit(ps, args) && SomeOrderOf(order, JobsFor(abi, ps, args))
    requires NoVoidBeforeReferences(ps)
    ensures IndicesInside(order, |Elements(abi, ps)|)
  {
    hide JobsFor;
    hide EndOfArgs;
    hide OffsetOf;
    var jobs := JobsFor(abi, ps, args);
    forall k | k in order && k.w.p.OCamlArg? ensures k.w.idx < |Elements(abi, ps)| {
      var i :| 0 <= i < |jobs| && jobs[i] == k;
      JobOf(abi, ps, args, i);
      ReferenceIndexIff(ps, i);
    }
  }

  lemma NoReferenceThere(abi: Abi, ps: seq<Param>, args: seq<Arg>, order: seq<Job>, j: nat)
    requires AllFit(ps, args) && SomeOrderOf(order, JobsFor(abi, ps, args))
    requires NoVoidBeforeReferences(ps) && j < |ps| && ps[j].InBuffer?
    ensures Untouched(order, ElementIndex(ps, j))
  {
    hide JobsFor;
    hide EndOfArgs;
    hide OffsetOf;
    var jobs := JobsFor(abi, ps, args);
    forall k | k in order && k.w.p.OCamlArg? ensures k.w.idx != ElementIndex(ps, j) {
      var i :| 0 <= i < |jobs| && jobs[i] == k;
      JobOf(abi, ps, args, i);
      ReferenceIndexIff(ps, i);
      if i < j { IndicesIncrease(ps, i, j); } else { IndicesIncrease(ps, j, i); }
    }
  }

  lemma {:induction false} ReverseAt<T>(s: seq<T>, i: nat)
    requires i < |s|
    ensures Reverse(s)[i] == s[|s| - 1 - i]
    decreases |s|
  {
    if i < |s| - 1 { ReverseAt(s[1..], i); }
  }

  lemma {:induction false} InvokeReverses(ws: seq<Writer>, args: seq<Arg>, writers: seq<Job>, jobs: seq<Job>)
    requires |args| == |ws| == |jobs| && forall i :: 0 <= i < |ws| ==> jobs[i] == Job(ws[i], args[i])
    ensures Invoke(ws, args, writers) == Reverse(jobs) + writers
    decreases |ws|
  {
    if ws == [] { assert [] + writers == writers; } else {
      InvokeReverses(ws[1..], args[1..], [Job(ws[0], args[0])] + writers, jobs[1..]);
      assert Reverse(jobs[1..]) + ([jobs[0]] + writers) == (Reverse(jobs[1..]) + [jobs[0]]) + writers;
    }
  }

  /** `invoke` runs every writer once, last argument first, which is one of the orders. */
  lemma InvokeOrder(abi: Abi, ps: seq<Param>, args: seq<Arg>)
    requires AllFit(ps, args)
    ensures Invoke(WritersFor(abi, ps, [], 0), args, []) == Reverse(JobsFor(abi, ps, args))
    ensures SomeOrderOf(Invoke(WritersFor(abi, ps, [], 0), args, []), JobsFor(abi, ps, args))
  {
    hide OffsetOf;
    var jobs := JobsFor(abi, ps, args);
    InvokeReverses(WritersFor(abi, ps, [], 0), args, [], jobs);
    assert Reverse(jobs) + [] == Reverse(jobs);
    ReversedOrder(abi, ps, args);
  }

  lemma ReversedOrder(abi: Abi, ps: seq<Param>, args: seq<Arg>)
    requires AllFit(ps, args)
    ensures SomeOrderOf(Reverse(JobsFor(abi, ps, args)), JobsFor(abi, ps, args))
  {
    hide JobsFor;
    var jobs, order := JobsFor(abi, ps, args), Reverse(JobsFor(abi, ps, args));
    forall i | 0 <= i < |jobs| ensures order[i] == jobs[|jobs| - 1 - i] && jobs[i] == order[|jobs| - 1 - i] {
      ReverseAt(jobs, i);
      ReverseAt(jobs, |jobs| - 1 - i);
    }
    forall j ensures j in order <==> j in jobs {
      if j in order { var i :| 0 <= i < |order| && order[i] == j; assert jobs[|jobs| - 1 - i] == j; }
      if j in jobs { var i :| 0 <= i < |jobs| && jobs[i] == j; assert order[|jobs| - 1 - i] == j; }
    }
    forall i, k | 0 <= i < k < |order| ensures order[i] != order[k] {
      JobsOfDifferentParameters(abi, ps, args, |jobs| - 1 - k, |jobs| - 1 - i);
    }
  }

  /** What a call passes: with the writers `build_ccallspec` made, in the order `invoke`
      runs them, every argument arrives exactly when no void comes before a reference. */
  lemma InvokeArrivalIff(abi: Abi, ps: seq<Param>, args: seq<Arg>, b: Buffers)
    requires AllFit(ps, args) && Unfilled(abi, ps, b)
    ensures var order := Invoke(WritersFor(abi, ps, [], 0), args, []);
            && (forall k :: k in order ==> JobFits(k, |b.buf|))
            && (RunJobs(order, b).Ok? && (forall j :: 0 <= j < |ps| ==> Arrives(abi, ps, args, j, RunJobs(order, b).value)) <==>
                NoVoidBeforeReferences(ps))
  {
    hide SomeOrderOf;
    hide Arrives;
    hide RunJobs;
    hide Unfilled;
    InvokeOrder(abi, ps, args);
    ArrivalIff(abi, ps, args, Invoke(WritersFor(abi, ps, [], 0), args, []), b);
  }
}

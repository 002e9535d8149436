/** Reads and writes through pointers over a memory of bytes: src/ctypes/ctypes_memory.ml. */
module Memory {
  import opened CtypesStatic
  import opened Arithmetic
  import opened StructLayout

  /** OCaml's side of a stored value. A structure, union, array, bigarray or abstract
      value is a reference to where its bytes are. */
  datatype Value = Scalar(x: int) | Address(a: nat) | Ref(src: nat)

  /** How primitives and addresses are stored, and the views' functions. */
  datatype Codec = Codec(
    enc: (Prim, int) -> seq<Byte>,
    dec: (Prim, seq<Byte>) -> int,
    encPtr: nat -> seq<Byte>,
    decPtr: seq<Byte> -> nat,
    write: (ViewInfo, Value) -> Value,
    read: (ViewInfo, Value) -> Value)

  ghost predicate StoresWhole(tg: Target, cd: Codec) {
    (forall p: Prim, x: int :: |cd.enc(p, x)| == tg.primSize(p)) && forall a: nat :: |cd.encPtr(a)| == tg.pointerSize
  }

  predicate Aggregate(t: Typ) { t.Struct? || t.Union? || t.Abstract? || t.Array? || t.Bigarray? }

  // Whether writing and reading the type raise: it is incomplete, or an OCaml reference.
  predicate Storable(tg: Target, t: Typ) {
    match t
    case Void => false
    case View(_, ty) => Storable(tg, ty)
    case _ => SizeOf(tg, t).Ok?
  }

  /** The values of a type, given the memory references point into. */
  predicate Fits(tg: Target, cd: Codec, t: Typ, v: Value, top: nat) {
    match t
    case Primitive(_) => v.Scalar?
    case Pointer(_) => v.Address?
    case Funptr(_) => v.Address?
    case View(view, ty) => Fits(tg, cd, ty, cd.write(view, v), top)
    case _ => v.Ref? && v.src + Size(tg, t) <= top
  }

  // The bytes `write` stores for a value.
  function Encoded(tg: Target, cd: Codec, t: Typ, v: Value, mem: seq<Byte>): seq<Byte>
    requires Fits(tg, cd, t, v, |mem|)
  {
    match t
    case Primitive(p) => cd.enc(p, v.x)
    case Pointer(_) => cd.encPtr(v.a)
    case Funptr(_) => cd.encPtr(v.a)
    case View(view, ty) => Encoded(tg, cd, ty, cd.write(view, v), mem)
    case _ => mem[v.src..v.src + Size(tg, t)]
  }

  function Splice(mem: seq<Byte>, at: nat, bs: seq<Byte>): (r: seq<Byte>)
    requires at + |bs| <= |mem|
    ensures |r| == |mem| && r[at..at + |bs|] == bs
    ensures forall i :: 0 <= i < |mem| && !(at <= i < at + |bs|) ==> r[i] == mem[i]
  {
    mem[..at] + bs + mem[at + |bs|..]
  }

  lemma {:induction false} EncodedSize(tg: Target, cd: Codec, t: Typ, v: Value, mem: seq<Byte>)
    requires StoresWhole(tg, cd) && Storable(tg, t) && Fits(tg, cd, t, v, |mem|)
    ensures |Encoded(tg, cd, t, v, mem)| == Size(tg, t)
  {
    match t case View(view, ty) => EncodedSize(tg, cd, ty, cd.write(view, v), mem); case _ =>
  }

  /** `p <-@ v`. */
  function Write(tg: Target, cd: Codec, t: Typ, v: Value, at: nat, mem: seq<Byte>): (r: seq<Byte>)
    requires StoresWhole(tg, cd) && Storable(tg, t) && Fits(tg, cd, t, v, |mem|) && at + Size(tg, t) <= |mem|
  {
    EncodedSize(tg, cd, t, v, mem);
    Splice(mem, at, Encoded(tg, cd, t, v, mem))
  }

  /** `!@ p`: a value is read off, an aggregate is referred to. */
  function Load(tg: Target, cd: Codec, t: Typ, at: nat, mem: seq<Byte>): Value
    requires Storable(tg, t) && at + Size(tg, t) <= |mem|
  {
    match t
    case Primitive(p) => Scalar(cd.dec(p, mem[at..at + Size(tg, t)]))
    case Pointer(_) => Address(cd.decPtr(mem[at..at + Size(tg, t)]))
    case Funptr(_) => Address(cd.decPtr(mem[at..at + Size(tg, t)]))
    case View(view, ty) => cd.read(view, Load(tg, cd, ty, at, mem))
    case _ => Ref(at)
  }

  // A value its type's storage can hold: reading undoes writing.
  predicate Keeps(cd: Codec, t: Typ, v: Value) {
    match t
    case Primitive(p) => v.Scalar? && cd.dec(p, cd.enc(p, v.x)) == v.x
    case Pointer(_) => v.Address? && cd.decPtr(cd.encPtr(v.a)) == v.a
    case Funptr(_) => v.Address? && cd.decPtr(cd.encPtr(v.a)) == v.a
    case View(view, ty) => Keeps(cd, ty, cd.write(view, v)) && cd.read(view, cd.write(view, v)) == v
    case _ => false
  }

  // ---- One place ----

  /** What was written is read back, through any views; of an aggregate, the bytes. */
  lemma {:induction false} ReadBack(tg: Target, cd: Codec, t: Typ, v: Value, at: nat, mem: seq<Byte>)
    requires StoresWhole(tg, cd) && Storable(tg, t) && Fits(tg, cd, t, v, |mem|) && at + Size(tg, t) <= |mem|
    ensures Keeps(cd, t, v) ==> Load(tg, cd, t, at, Write(tg, cd, t, v, at, mem)) == v
    ensures Aggregate(t) ==>
      && Load(tg, cd, t, at, Write(tg, cd, t, v, at, mem)) == Ref(at)
      && Write(tg, cd, t, v, at, mem)[at..at + Size(tg, t)] == mem[v.src..v.src + Size(tg, t)]
  {
    EncodedSize(tg, cd, t, v, mem);
    match t case View(view, ty) => ReadBack(tg, cd, ty, cd.write(view, v), at, mem); case _ =>
  }

  // Bytes outside the place written stay.
  lemma WriteIsLocal(tg: Target, cd: Codec, t: Typ, v: Value, at: nat, mem: seq<Byte>)
    requires StoresWhole(tg, cd) && Storable(tg, t) && Fits(tg, cd, t, v, |mem|) && at + Size(tg, t) <= |mem|
    ensures var r := Write(tg, cd, t, v, at, mem);
            |r| == |mem| && forall i :: 0 <= i < |mem| && !(at <= i < at + Size(tg, t)) ==> r[i] == mem[i]
  {
    EncodedSize(tg, cd, t, v, mem);
  }

  // Reading looks at its own bytes only.
  lemma {:induction false} LoadIsLocal(tg: Target, cd: Codec, t: Typ, at: nat, mem: seq<Byte>, mem1: seq<Byte>)
    requires Storable(tg, t) && at + Size(tg, t) <= |mem| == |mem1|
    requires forall i :: at <= i < at + Size(tg, t) ==> mem[i] == mem1[i]
    ensures Load(tg, cd, t, at, mem) == Load(tg, cd, t, at, mem1)
  {
    assert mem[at..at + Size(tg, t)] == mem1[at..at + Size(tg, t)];
    match t case View(_, ty) => LoadIsLocal(tg, cd, ty, at, mem, mem1); case _ =>
  }

  // ---- Places inside a value ----

  datatype Step = FieldStep(i: nat) | ElementStep(k: nat)

  // Laid out by `field` and `seal`, at every depth.
  ghost predicate Built(tg: Target, t: Typ)
    decreases t, 1
  {
    match t
    case Array(ty, _) => Built(tg, ty)
    case Struct(_, spec, fs) => spec.Some? && SealedStruct(tg, fs, spec.value) && BuiltFields(tg, t)
    case Union(_, spec, fs) => spec.Some? && SealedUnion(tg, fs, spec.value) && BuiltFields(tg, t)
    case _ => Storable(tg, t)
  }

  ghost predicate BuiltFields(tg: Target, t: Typ)
    decreases t, 0
  {
    forall i :: 0 <= i < |Fields(t)| ==> Built(tg, Fields(t)[i].ftype)
  }

  predicate Steps(t: Typ, s: Step) {
    match s
    case FieldStep(i) => i < |Fields(t)|
    case ElementStep(k) => t.Array? && k < t.length
  }

  function Into(t: Typ, s: Step): Typ
    requires Steps(t, s)
  {
    match s case FieldStep(i) => Fields(t)[i].ftype case ElementStep(_) => t.elem
  }

  // `|->` for a field, `+@` for an element.
  function At(tg: Target, t: Typ, s: Step): nat
    requires Steps(t, s)
  {
    match s case FieldStep(i) => Fields(t)[i].foffset case ElementStep(k) => k * Size(tg, t.elem)
  }

  predicate Leads(t: Typ, path: seq<Step>) {
    path == [] || (Steps(t, path[0]) && Leads(Into(t, path[0]), path[1..]))
  }

  function TypeAt(t: Typ, path: seq<Step>): Typ
    requires Leads(t, path)
  {
    if path == [] then t else TypeAt(Into(t, path[0]), path[1..])
  }

  function Offset(tg: Target, t: Typ, path: seq<Step>): nat
    requires Leads(t, path)
  {
    if path == [] then 0 else At(tg, t, path[0]) + Offset(tg, Into(t, path[0]), path[1..])
  }

  /** A path is followed from the outside in: one more step adds the field's offset, or as
      many elements as the index says. */
  lemma {:induction false} PathExtends(tg: Target, t: Typ, path: seq<Step>, s: Step)
    requires Leads(t, path) && Steps(TypeAt(t, path), s)
    ensures Leads(t, path + [s])
    ensures s.FieldStep? ==> Offset(tg, t, path + [s]) == Offset(tg, t, path) + Fields(TypeAt(t, path))[s.i].foffset
    ensures s.ElementStep? ==> Offset(tg, t, path + [s]) == Offset(tg, t, path) + s.k * Size(tg, TypeAt(t, path).elem)
    ensures TypeAt(t, path + [s]) == if s.FieldStep? then Fields(TypeAt(t, path))[s.i].ftype else TypeAt(t, path).elem
    decreases |path|
  {
    if path == [] { assert [s][1..] == []; } else {
      assert (path + [s])[1..] == path[1..] + [s];
      PathExtends(tg, Into(t, path[0]), path[1..], s);
    }
  }

  /** `CArray.get` and `set` at an index reach the place the path to that element ends at. */
  lemma ElementPlace(tg: Target, a: CArray, i: nat)
    requires i < a.length
    ensures var whole := Array(a.elem, a.length);
            && Leads(whole, [ElementStep(i)]) && TypeAt(whole, [ElementStep(i)]) == a.elem
            && a.start + Offset(tg, whole, [ElementStep(i)]) == a.start + i * Size(tg, a.elem)
  {
    PathExtends(tg, Array(a.elem, a.length), [], ElementStep(i));
    assert [] + [ElementStep(i)] == [ElementStep(i)];
  }

  // Two paths part at a structure or an array, not at a union.
  predicate Part(t: Typ, p: seq<Step>, q: seq<Step>)
    requires Leads(t, p) && Leads(t, q)
  {
    p != [] && q != [] && (if p[0] == q[0] then Part(Into(t, p[0]), p[1..], q[1..]) else !t.Union?)
  }

  lemma StepInside(tg: Target, t: Typ, s: Step)
    requires Built(tg, t) && Steps(t, s)
    ensures Built(tg, Into(t, s)) && At(tg, t, s) + Size(tg, Into(t, s)) <= Size(tg, t)
  {
    match s
    case FieldStep(i) => if t.Struct? { SizeIsLeast(tg, Fields(t), t.spec.value, 0); }
    case ElementStep(k) =>
      BuiltSized(tg, t.elem);
      if k + 1 < t.length { MulGap(k + 1, t.length, Size(tg, t.elem)); }
      MulGap(k, k + 1, Size(tg, t.elem));
  }

  lemma {:induction false} BuiltSized(tg: Target, t: Typ)
    requires Built(tg, t)
    ensures SizeOf(tg, t).Ok? && Storable(tg, t)
  {
    match t
    case Array(ty, _) => BuiltSized(tg, ty);
    case View(_, ty) => StorableSized(tg, ty);
    case _ =>
  }

  lemma {:induction false} StorableSized(tg: Target, t: Typ)
    requires Storable(tg, t)
    ensures SizeOf(tg, t).Ok?
  {
    match t case View(_, ty) => StorableSized(tg, ty); case _ =>
  }

  /** A place inside a value lies within the value's bytes. */
  lemma {:induction false} PathInside(tg: Target, t: Typ, path: seq<Step>)
    requires Built(tg, t) && Leads(t, path)
    ensures Built(tg, TypeAt(t, path)) && Offset(tg, t, path) + Size(tg, TypeAt(t, path)) <= Size(tg, t)
    decreases |path|
  {
    if path != [] {
      StepInside(tg, t, path[0]);
      PathInside(tg, Into(t, path[0]), path[1..]);
    }
  }

  lemma StepsApart(tg: Target, t: Typ, s: Step, u: Step)
    requires Built(tg, t) && Steps(t, s) && Steps(t, u) && s != u && !t.Union?
    ensures At(tg, t, s) + Size(tg, Into(t, s)) <= At(tg, t, u) || At(tg, t, u) + Size(tg, Into(t, u)) <= At(tg, t, s)
  {
    match (s, u)
    case (FieldStep(i), FieldStep(j)) => if i < j { FieldsInOrder(tg, Fields(t), i, j); } else { FieldsInOrder(tg, Fields(t), j, i); }
    case (ElementStep(k), ElementStep(l)) => if k < l { MulGap(k, l, Size(tg, t.elem)); } else { MulGap(l, k, Size(tg, t.elem)); }
    case _ =>
  }

  predicate Apart(a: nat, m: nat, b: nat, n: nat) { a + m <= b || b + n <= a }

  /** Places at the ends of two paths that part share no bytes. */
  lemma {:induction false} PathsApart(tg: Target, t: Typ, p: seq<Step>, q: seq<Step>)
    requires Built(tg, t) && Leads(t, p) && Leads(t, q) && Part(t, p, q)
    ensures Apart(Offset(tg, t, p), Size(tg, TypeAt(t, p)), Offset(tg, t, q), Size(tg, TypeAt(t, q)))
    decreases |p|
  {
    StepInside(tg, t, p[0]);
    StepInside(tg, t, q[0]);
    if p[0] == q[0] { PathsApart(tg, Into(t, p[0]), p[1..], q[1..]); } else {
      PathInside(tg, Into(t, p[0]), p[1..]);
      PathInside(tg, Into(t, q[0]), q[1..]);
      StepsApart(tg, t, p[0], q[0]);
    }
  }

  // A store at one of two places that share no bytes.
  lemma TwoPlaces(tg: Target, cd: Codec, t: Typ, at: nat, u: Typ, bt: nat, v: Value, mem: seq<Byte>)
    requires StoresWhole(tg, cd) && Storable(tg, t) && Storable(tg, u) && Fits(tg, cd, t, v, |mem|)
    requires at + Size(tg, t) <= |mem| && bt + Size(tg, u) <= |mem| && Apart(at, Size(tg, t), bt, Size(tg, u))
    ensures var mem1 := Write(tg, cd, t, v, at, mem);
            && |mem1| == |mem|
            && (Keeps(cd, t, v) ==> Load(tg, cd, t, at, mem1) == v)
            && Load(tg, cd, u, bt, mem1) == Load(tg, cd, u, bt, mem)
            && mem1[bt..bt + Size(tg, u)] == mem[bt..bt + Size(tg, u)]
            && forall i :: 0 <= i < |mem| && !(at <= i < at + Size(tg, t)) ==> mem1[i] == mem[i]
  {
    hide Load;
    hide Keeps;
    hide Encoded;
    hide Size;
    ReadBack(tg, cd, t, v, at, mem);
    WriteIsLocal(tg, cd, t, v, at, mem);
    hide Write;
    LoadIsLocal(tg, cd, u, bt, mem, Write(tg, cd, t, v, at, mem));
  }

  // Where two places inside the same value are.
  lemma PlacesInside(tg: Target, t: Typ, base: nat, p: seq<Step>, q: seq<Step>, top: nat)
    requires Built(tg, t) && base + Size(tg, t) <= top && Leads(t, p) && Leads(t, q) && Part(t, p, q)
    ensures Storable(tg, TypeAt(t, p)) && Storable(tg, TypeAt(t, q))
    ensures var at, bt := base + Offset(tg, t, p), base + Offset(tg, t, q);
            && at + Size(tg, TypeAt(t, p)) <= top && bt + Size(tg, TypeAt(t, q)) <= top
            && Apart(at, Size(tg, TypeAt(t, p)), bt, Size(tg, TypeAt(t, q)))
  {
    PathInside(tg, t, p);
    PathInside(tg, t, q);
    BuiltSized(tg, TypeAt(t, p));
    BuiltSized(tg, TypeAt(t, q));
    PathsApart(tg, t, p, q);
  }

  /** Non-interference, at any depth: storing through one path changes only the bytes at
      its end, reads back as stored, and leaves every place whose path parts from it
      reading as before. */
  lemma StoresDoNotInterfere(tg: Target, cd: Codec, t: Typ, base: nat, p: seq<Step>, q: seq<Step>, v: Value, mem: seq<Byte>)
    requires StoresWhole(tg, cd) && Built(tg, t) && base + Size(tg, t) <= |mem|
    requires Leads(t, p) && Leads(t, q) && Part(t, p, q) && Fits(tg, cd, TypeAt(t, p), v, |mem|)
    ensures Storable(tg, TypeAt(t, p)) && Storable(tg, TypeAt(t, q))
    ensures var at, bt := base + Offset(tg, t, p), base + Offset(tg, t, q);
            && at + Size(tg, TypeAt(t, p)) <= |mem| && bt + Size(tg, TypeAt(t, q)) <= |mem|
            && var mem1 := Write(tg, cd, TypeAt(t, p), v, at, mem);
            && |mem1| == |mem|
            && (Keeps(cd, TypeAt(t, p), v) ==> Load(tg, cd, TypeAt(t, p), at, mem1) == v)
            && Load(tg, cd, TypeAt(t, q), bt, mem1) == Load(tg, cd, TypeAt(t, q), bt, mem)
            && mem1[bt..bt + Size(tg, TypeAt(t, q))] == mem[bt..bt + Size(tg, TypeAt(t, q))]
            && forall i :: 0 <= i < |mem| && !(at <= i < at + Size(tg, TypeAt(t, p))) ==> mem1[i] == mem[i]
  {
    hide Write;
    hide Load;
    hide Keeps;
    hide Built;
    hide Part;
    hide Offset;
    hide Size;
    hide Fits;
    hide Storable;
    hide TypeAt;
    hide Leads;
    PlacesInside(tg, t, base, p, q, |mem|);
    TwoPlaces(tg, cd, TypeAt(t, p), base + Offset(tg, t, p), TypeAt(t, q), base + Offset(tg, t, q), v, mem);
  }

  // ---- Arrays ----

  // Consecutive elements written from the first on.
  function WriteAll(tg: Target, cd: Codec, t: Typ, vs: seq<Value>, at: nat, mem: seq<Byte>): (r: seq<Byte>)
    requires StoresWhole(tg, cd) && Storable(tg, t) && at + |vs| * Size(tg, t) <= |mem|
    requires forall v :: v in vs ==> Fits(tg, cd, t, v, |mem|)
    ensures |r| == |mem|
    decreases |vs|
  {
    if vs == [] then mem
    else
      Last(vs, Size(tg, t));
      var front := WriteAll(tg, cd, t, vs[..|vs| - 1], at, mem);
      WriteIsLocal(tg, cd, t, vs[|vs| - 1], at + (|vs| - 1) * Size(tg, t), front);
      Write(tg, cd, t, vs[|vs| - 1], at + (|vs| - 1) * Size(tg, t), front)
  }

  lemma Last<T>(vs: seq<T>, size: nat)
    requires vs != []
    ensures (|vs| - 1) * size + size == |vs| * size && 0 <= (|vs| - 1) * size
  {
  }

  function LoadAll(tg: Target, cd: Codec, t: Typ, n: nat, at: nat, mem: seq<Byte>): (r: seq<Value>)
    requires Storable(tg, t) && at + n * Size(tg, t) <= |mem|
    ensures |r| == n
  {
    if n == 0 then []
    else
      MulGap(n - 1, n, Size(tg, t));
      LoadAll(tg, cd, t, n - 1, at, mem) + [Load(tg, cd, t, at + (n - 1) * Size(tg, t), mem)]
  }

  lemma {:induction false} FitsMore(tg: Target, cd: Codec, t: Typ, v: Value, top: nat, more: nat)
    requires Fits(tg, cd, t, v, top) && top <= more
    ensures Fits(tg, cd, t, v, more)
  {
    match t case View(view, ty) => FitsMore(tg, cd, ty, cd.write(view, v), top, more); case _ =>
  }

  lemma {:induction false} LoadAllIsLocal(tg: Target, cd: Codec, t: Typ, n: nat, at: nat, mem: seq<Byte>, mem1: seq<Byte>)
    requires Storable(tg, t) && at + n * Size(tg, t) <= |mem| == |mem1|
    requires forall i :: at <= i < at + n * Size(tg, t) ==> mem[i] == mem1[i]
    ensures LoadAll(tg, cd, t, n, at, mem) == LoadAll(tg, cd, t, n, at, mem1)
  {
    hide Load;
    hide Size;
    if n > 0 {
      MulGap(n - 1, n, Size(tg, t));
      LoadAllIsLocal(tg, cd, t, n - 1, at, mem, mem1);
      LoadIsLocal(tg, cd, t, at + (n - 1) * Size(tg, t), mem, mem1);
    }
  }

  lemma {:induction false} WriteAllIsLocal(tg: Target, cd: Codec, t: Typ, vs: seq<Value>, at: nat, mem: seq<Byte>)
    requires StoresWhole(tg, cd) && Storable(tg, t) && at + |vs| * Size(tg, t) <= |mem|
    requires forall v :: v in vs ==> Fits(tg, cd, t, v, |mem|)
    ensures var r := WriteAll(tg, cd, t, vs, at, mem);
            forall i :: 0 <= i < |mem| && !(at <= i < at + |vs| * Size(tg, t)) ==> r[i] == mem[i]
    decreases |vs|
  {
    if vs != [] {
      var front, size := vs[..|vs| - 1], Size(tg, t);
      Last(vs, size);
      WriteAllIsLocal(tg, cd, t, front, at, mem);
      WriteIsLocal(tg, cd, t, vs[|vs| - 1], at + (|vs| - 1) * size, WriteAll(tg, cd, t, front, at, mem));
    }
  }

  /** The k-th value loaded is the one at the k-th element's place. */
  lemma {:induction false} LoadAllAt(tg: Target, cd: Codec, t: Typ, n: nat, at: nat, mem: seq<Byte>, k: nat)
    requires Storable(tg, t) && at + n * Size(tg, t) <= |mem| && k < n
    ensures 0 <= k * Size(tg, t) && k * Size(tg, t) + Size(tg, t) <= n * Size(tg, t)
    ensures LoadAll(tg, cd, t, n, at, mem)[k] == Load(tg, cd, t, at + k * Size(tg, t), mem)
  {
    hide Load;
    hide Size;
    ElementInside(k, n, Size(tg, t));
    LastLoaded(tg, cd, t, n, at, mem);
    if k < n - 1 { LoadAllAt(tg, cd, t, n - 1, at, mem, k); }
  }

  /** The k-th value of a list goes to the k-th element's place, for values storage holds. */
  lemma {:induction false} WriteAllAt(tg: Target, cd: Codec, t: Typ, vs: seq<Value>, at: nat, mem: seq<Byte>, k: nat)
    requires StoresWhole(tg, cd) && Storable(tg, t) && at + |vs| * Size(tg, t) <= |mem| && k < |vs|
    requires forall v :: v in vs ==> Fits(tg, cd, t, v, |mem|) && Keeps(cd, t, v)
    ensures 0 <= k * Size(tg, t) && k * Size(tg, t) + Size(tg, t) <= |vs| * Size(tg, t)
    ensures Load(tg, cd, t, at + k * Size(tg, t), WriteAll(tg, cd, t, vs, at, mem)) == vs[k]
  {
    hide Load;
    hide Size;
    hide WriteAll;
    hide LoadAll;
    ListRoundTrip(tg, cd, t, vs, at, mem);
    LoadAllAt(tg, cd, t, |vs|, at, WriteAll(tg, cd, t, vs, at, mem), k);
  }

  lemma LastWritten(tg: Target, cd: Codec, t: Typ, vs: seq<Value>, at: nat, mem: seq<Byte>)
    requires StoresWhole(tg, cd) && Storable(tg, t) && at + |vs| * Size(tg, t) <= |mem| && vs != []
    requires forall v :: v in vs ==> Fits(tg, cd, t, v, |mem|)
    ensures 0 <= (|vs| - 1) * Size(tg, t) && (|vs| - 1) * Size(tg, t) + Size(tg, t) == |vs| * Size(tg, t)
    ensures WriteAll(tg, cd, t, vs, at, mem) ==
            Write(tg, cd, t, vs[|vs| - 1], at + (|vs| - 1) * Size(tg, t), WriteAll(tg, cd, t, vs[..|vs| - 1], at, mem))
  {
    Last(vs, Size(tg, t));
  }

  lemma LastLoaded(tg: Target, cd: Codec, t: Typ, n: nat, at: nat, mem: seq<Byte>)
    requires Storable(tg, t) && n > 0 && at + n * Size(tg, t) <= |mem|
    ensures 0 <= (n - 1) * Size(tg, t) && (n - 1) * Size(tg, t) + Size(tg, t) == n * Size(tg, t)
    ensures LoadAll(tg, cd, t, n, at, mem) ==
            LoadAll(tg, cd, t, n - 1, at, mem) + [Load(tg, cd, t, at + (n - 1) * Size(tg, t), mem)]
  {
    assert (n - 1) * Size(tg, t) + Size(tg, t) == n * Size(tg, t);
    MulGap(n - 1, n, Size(tg, t));
  }

  /** `to_list (of_list typ l)` is `l`, for every list of values the type's storage holds. */
  lemma {:induction false} ListRoundTrip(tg: Target, cd: Codec, t: Typ, vs: seq<Value>, at: nat, mem: seq<Byte>)
    requires StoresWhole(tg, cd) && Storable(tg, t) && at + |vs| * Size(tg, t) <= |mem|
    requires forall v :: v in vs ==> Fits(tg, cd, t, v, |mem|) && Keeps(cd, t, v)
    ensures LoadAll(tg, cd, t, |vs|, at, WriteAll(tg, cd, t, vs, at, mem)) == vs
    decreases |vs|
  {
    hide Write;
    hide Load;
    hide Keeps;
    hide Fits;
    hide Size;
    if vs != [] {
      var front, last, to := vs[..|vs| - 1], vs[|vs| - 1], at + (|vs| - 1) * Size(tg, t);
      LastWritten(tg, cd, t, vs, at, mem);
      ListRoundTrip(tg, cd, t, front, at, mem);
      var mem1, mem2 := WriteAll(tg, cd, t, front, at, mem), WriteAll(tg, cd, t, vs, at, mem);
      LastLoaded(tg, cd, t, |vs|, at, mem2);
      hide WriteAll;
      hide LoadAll;
      WriteIsLocal(tg, cd, t, last, to, mem1);
      ReadBack(tg, cd, t, last, to, mem1);
      LoadAllIsLocal(tg, cd, t, |front|, at, mem1, mem2);
      assert vs == front + [last];
    }
  }

  // The bytes of a list's aggregates lie before the new array.
  predicate SourcesBefore(tg: Target, t: Typ, vs: seq<Value>, at: nat) {
    forall v :: v in vs ==> v.Ref? && v.src + Size(tg, t) <= at
  }

  predicate BytesCopied(r: seq<Byte>, to: int, mem: seq<Byte>, from: int, size: nat) {
    && 0 <= to && to + size <= |r| && 0 <= from && from + size <= |mem|
    && r[to..to + size] == mem[from..from + size]
  }

  // The element written last, over memory that still has its source.
  lemma LastAggregate(tg: Target, cd: Codec, t: Typ, v: Value, to: nat, mem: seq<Byte>, mem1: seq<Byte>, at: nat)
    requires StoresWhole(tg, cd) && Storable(tg, t) && Aggregate(t) && at <= to && to + Size(tg, t) <= |mem| == |mem1|
    requires v.Ref? && v.src + Size(tg, t) <= at && Fits(tg, cd, t, v, |mem|) && forall i :: 0 <= i < at ==> mem1[i] == mem[i]
    ensures BytesCopied(Write(tg, cd, t, v, to, mem1), to, mem, v.src, Size(tg, t))
  {
    ReadBack(tg, cd, t, v, to, mem1);
    WriteIsLocal(tg, cd, t, v, to, mem1);
    hide Write;
    SameSlice(mem, mem1, v.src, Size(tg, t));
  }

  // An element written before stays.
  lemma EarlierStays(r: seq<Byte>, mem1: seq<Byte>, mem: seq<Byte>, to: nat, from: nat, size: nat, next: nat)
    requires BytesCopied(mem1, to, mem, from, size) && |r| == |mem1| && to + size <= next
    requires forall i :: 0 <= i < next && i < |r| ==> r[i] == mem1[i]
    ensures BytesCopied(r, to, mem, from, size)
  {
    SameSlice(mem1, r, to, size);
  }

  /** For a list of structures or other aggregates it is their bytes that are copied, in
      order. */
  lemma {:induction false} ListOfAggregates(tg: Target, cd: Codec, t: Typ, vs: seq<Value>, at: nat, mem: seq<Byte>, k: nat)
    requires StoresWhole(tg, cd) && Storable(tg, t) && Aggregate(t) && at + |vs| * Size(tg, t) <= |mem| && k < |vs|
    requires SourcesBefore(tg, t, vs, at) && forall v :: v in vs ==> Fits(tg, cd, t, v, |mem|)
    ensures vs[k].Ref? && BytesCopied(WriteAll(tg, cd, t, vs, at, mem), at + k * Size(tg, t), mem, vs[k].src, Size(tg, t))
    decreases |vs|
  {
    hide Write;
    hide Load;
    hide Fits;
    hide Size;
    hide BytesCopied;
    hide Storable;
    hide StoresWhole;
    var front, last, size := vs[..|vs| - 1], vs[|vs| - 1], Size(tg, t);
    LastWritten(tg, cd, t, vs, at, mem);
    ElementInside(k, |vs|, size);
    assert vs[k] in vs && last in vs;
    var mem1, to := WriteAll(tg, cd, t, front, at, mem), at + (|vs| - 1) * size;
    WriteAllIsLocal(tg, cd, t, front, at, mem);
    hide WriteAll;
    if k < |vs| - 1 {
      ListOfAggregates(tg, cd, t, front, at, mem, k);
      ElementInside(k, |vs| - 1, size);
      WriteIsLocal(tg, cd, t, last, to, mem1);
      EarlierStays(WriteAll(tg, cd, t, vs, at, mem), mem1, mem, at + k * size, vs[k].src, size, to);
    } else {
      LastAggregate(tg, cd, t, last, to, mem, mem1, at);
    }
  }

  lemma SameSlice(mem: seq<Byte>, mem1: seq<Byte>, from: nat, size: nat)
    requires from + size <= |mem| == |mem1| && forall i :: from <= i < from + size ==> mem[i] == mem1[i]
    ensures mem[from..from + size] == mem1[from..from + size]
  {
  }

  datatype CArray = CArray(start: nat, elem: Typ, length: nat)

  function Zeros(n: nat): (r: seq<Byte>)
    ensures |r| == n
  {
    seq(n, _ => 0)
  }

  /** The memory pointers point into. New blocks go after everything allocated so far. */
  class Heap {
    const tg: Target
    const cd: Codec
    var bytes: seq<Byte>

    constructor (tg: Target, cd: Codec)
      ensures this.tg == tg && this.cd == cd && bytes == []
    {
      this.tg, this.cd, bytes := tg, cd, [];
    }

    ghost predicate Holds(a: CArray)
      reads this
    {
      Storable(tg, a.elem) && a.start + a.length * Size(tg, a.elem) <= |bytes|
    }

    /** `allocate_n`: the block is zero-filled and overlaps nothing. */
    method Allocate(t: Typ, count: nat) returns (at: nat)
      requires SizeOf(tg, t).Ok?
      modifies this`bytes
      ensures at == |old(bytes)| && bytes == old(bytes) + Zeros(count * Size(tg, t))
    {
      at := |bytes|;
      bytes := bytes + Zeros(count * Size(tg, t));
    }

    /** `<-@`. */
    method Store(t: Typ, at: nat, v: Value)
      requires StoresWhole(tg, cd) && Storable(tg, t) && Fits(tg, cd, t, v, |bytes|) && at + Size(tg, t) <= |bytes|
      modifies this`bytes
      ensures bytes == Write(tg, cd, t, v, at, old(bytes))
    {
      EncodedSize(tg, cd, t, v, bytes);
      bytes := Splice(bytes, at, Encoded(tg, cd, t, v, bytes));
    }

    /** `setf`, at the end of a path of fields and elements. */
    method SetAt(t: Typ, base: nat, path: seq<Step>, v: Value)
      requires StoresWhole(tg, cd) && Built(tg, t) && base + Size(tg, t) <= |bytes| && Leads(t, path)
      requires Fits(tg, cd, TypeAt(t, path), v, |bytes|)
      modifies this`bytes
      ensures Storable(tg, TypeAt(t, path)) && base + Offset(tg, t, path) + Size(tg, TypeAt(t, path)) <= |old(bytes)|
      ensures bytes == Write(tg, cd, TypeAt(t, path), v, base + Offset(tg, t, path), old(bytes))
    {
      PathInside(tg, t, path);
      BuiltSized(tg, TypeAt(t, path));
      Store(TypeAt(t, path), base + Offset(tg, t, path), v);
    }

    /** `getf`. */
    method GetAt(t: Typ, base: nat, path: seq<Step>) returns (v: Value)
      requires Built(tg, t) && base + Size(tg, t) <= |bytes| && Leads(t, path)
      ensures Storable(tg, TypeAt(t, path)) && base + Offset(tg, t, path) + Size(tg, TypeAt(t, path)) <= |bytes|
      ensures v == Load(tg, cd, TypeAt(t, path), base + Offset(tg, t, path), bytes)
    {
      PathInside(tg, t, path);
      BuiltSized(tg, TypeAt(t, path));
      v := Load(tg, cd, TypeAt(t, path), base + Offset(tg, t, path), bytes);
    }

    /** `CArray.set`. */
    method Set(a: CArray, i: int, v: Value) returns (r: Result<()>)
      requires StoresWhole(tg, cd) && Holds(a) && Fits(tg, cd, a.elem, v, |bytes|)
      modifies this`bytes
      ensures |bytes| == |old(bytes)|
      ensures r == if 0 <= i < a.length then Ok(()) else Raises(InvalidArgument("index out of bounds"))
      ensures r.Raises? ==> bytes == old(bytes)
      ensures r.Ok? ==>
        && 0 <= i * Size(tg, a.elem) && a.start + i * Size(tg, a.elem) + Size(tg, a.elem) <= |bytes|
        && bytes == Write(tg, cd, a.elem, v, a.start + i * Size(tg, a.elem), old(bytes))
    {
      if i < 0 || i >= a.length { return Raises(InvalidArgument("index out of bounds")); }
      ElementInside(i, a.length, Size(tg, a.elem));
      WriteIsLocal(tg, cd, a.elem, v, a.start + i * Size(tg, a.elem), bytes);
      Store(a.elem, a.start + i * Size(tg, a.elem), v);
      r := Ok(());
    }

    /** `CArray.get`. */
    method Get(a: CArray, i: int) returns (r: Result<Value>)
      requires Holds(a)
      ensures !(0 <= i < a.length) ==> r == Raises(InvalidArgument("index out of bounds"))
      ensures 0 <= i < a.length ==>
        && 0 <= i * Size(tg, a.elem) && a.start + i * Size(tg, a.elem) + Size(tg, a.elem) <= |bytes|
        && r == Ok(Load(tg, cd, a.elem, a.start + i * Size(tg, a.elem), bytes))
    {
      if i < 0 || i >= a.length { return Raises(InvalidArgument("index out of bounds")); }
      ElementInside(i, a.length, Size(tg, a.elem));
      r := Ok(Load(tg, cd, a.elem, a.start + i * Size(tg, a.elem), bytes));
    }

    /** `CArray.of_list`: a new array of the values, in order; nothing else changes. */
    method OfList(t: Typ, vs: seq<Value>) returns (a: CArray)
      requires StoresWhole(tg, cd) && Storable(tg, t) && forall v :: v in vs ==> Fits(tg, cd, t, v, |bytes|)
      modifies this`bytes
      ensures a == CArray(|old(bytes)|, t, |vs|) && Holds(a)
      ensures var mem := old(bytes) + Zeros(|vs| * Size(tg, t));
              (forall v :: v in vs ==> Fits(tg, cd, t, v, |mem|)) && bytes == WriteAll(tg, cd, t, vs, a.start, mem)
      ensures bytes[..|old(bytes)|] == old(bytes)
    {
      hide Write;
      hide Fits;
      StorableSized(tg, t);
      var at := Allocate(t, |vs|);
      a := CArray(at, t, |vs|);
      ghost var mem := bytes;
      forall v | v in vs ensures Fits(tg, cd, t, v, |mem|) { FitsMore(tg, cd, t, v, at, |mem|); }
      for i := 0 to |vs|
        invariant |bytes| == |mem|
        invariant forall v :: v in vs[..i] ==> v in vs
        invariant 0 <= i * Size(tg, t) <= |vs| * Size(tg, t)
        invariant bytes == WriteAll(tg, cd, t, vs[..i], at, mem)
      {
        assert vs[..i + 1][..i] == vs[..i] && vs[..i + 1][i] == vs[i];
        ElementInside(i, |vs|, Size(tg, t));
        PartInside(i + 1, 0, |vs|, Size(tg, t));
        LastWritten(tg, cd, t, vs[..i + 1], at, mem);
        hide WriteAll;
        var _ := Set(a, i, vs[i]);
      }
      assert vs[..|vs|] == vs;
      WriteAllIsLocal(tg, cd, t, vs, at, mem);
    }

    /** `CArray.to_list`. */
    method ToList(a: CArray) returns (l: seq<Value>)
      requires Holds(a)
      ensures l == LoadAll(tg, cd, a.elem, a.length, a.start, bytes)
    {
      l := [];
      for i := a.length downto 0
        invariant 0 <= i * Size(tg, a.elem) && a.start + i * Size(tg, a.elem) <= |bytes|
        invariant LoadAll(tg, cd, a.elem, i, a.start, bytes) + l == LoadAll(tg, cd, a.elem, a.length, a.start, bytes)
      {
        MulGap(i, i + 1, Size(tg, a.elem));
        var v := Get(a, i);
        assert LoadAll(tg, cd, a.elem, i, a.start, bytes) + ([v.value] + l) ==
               LoadAll(tg, cd, a.elem, i, a.start, bytes) + [v.value] + l;
        l := [v.value] + l;
      }
    }

    /** `CArray.fill`. */
    method Fill(a: CArray, v: Value)
      requires StoresWhole(tg, cd) && Holds(a) && Fits(tg, cd, a.elem, v, |bytes|)
      modifies this`bytes
      ensures bytes == WriteAll(tg, cd, a.elem, seq(a.length, _ => v), a.start, old(bytes))
    {
      hide Write;
      hide Fits;
      ghost var mem, vs := bytes, seq(a.length, _ => v);
      assert vs[..0] == [] && WriteAll(tg, cd, a.elem, [], a.start, mem) == mem;
      hide WriteAll;
      hide Size;
      for i := 0 to a.length
        invariant |bytes| == |mem| && 0 <= i * Size(tg, a.elem) <= a.length * Size(tg, a.elem)
        invariant bytes == WriteAll(tg, cd, a.elem, vs[..i], a.start, mem)
      {
        assert vs[..i + 1][..i] == vs[..i] && vs[..i + 1][i] == v;
        ElementInside(i, a.length, Size(tg, a.elem));
        PartInside(i + 1, 0, a.length, Size(tg, a.elem));
        LastWritten(tg, cd, a.elem, vs[..i + 1], a.start, mem);
        Store(a.elem, a.start + i * Size(tg, a.elem), v);
      }
      assert vs[..a.length] == vs;
    }

    /** `CArray.copy`: a new array with the same bytes, sharing none. */
    method Copy(a: CArray) returns (b: CArray)
      requires Holds(a)
      modifies this`bytes
      ensures b == CArray(|old(bytes)|, a.elem, a.length) && Holds(a) && Holds(b)
      ensures bytes[..|old(bytes)|] == old(bytes)
      ensures bytes[b.start..] == old(bytes)[a.start..a.start + a.length * Size(tg, a.elem)]
      ensures Apart(a.start, a.length * Size(tg, a.elem), b.start, b.length * Size(tg, b.elem))
    {
      StorableSized(tg, a.elem);
      var size := a.length * Size(tg, a.elem);
      var at := Allocate(a.elem, a.length);
      ghost var mem := bytes;
      bytes := Splice(bytes, at, bytes[a.start..a.start + size]);
      assert bytes[at..] == bytes[at..at + size] == mem[a.start..a.start + size];
      b := CArray(at, a.elem, a.length);
    }

    /** `CArray.sub`. */
    method Sub(a: CArray, pos: int, len: int) returns (r: Result<CArray>)
      requires Holds(a)
      modifies this`bytes
      ensures Holds(a) && |old(bytes)| <= |bytes| && bytes[..|old(bytes)|] == old(bytes)
      ensures r.Ok? <==> 0 <= pos && 0 <= len && pos + len <= a.length
      ensures r.Raises? ==> r.error == InvalidArgument("CArray.sub") && bytes == old(bytes)
      ensures r.Ok? ==>
        && 0 <= pos * Size(tg, a.elem) && 0 <= len * Size(tg, a.elem)
        && r.value == CArray(|old(bytes)|, a.elem, len) && Holds(r.value)
        && a.start + pos * Size(tg, a.elem) + len * Size(tg, a.elem) <= |old(bytes)|
        && bytes[r.value.start..] == old(bytes)[a.start + pos * Size(tg, a.elem)..a.start + pos * Size(tg, a.elem) + len * Size(tg, a.elem)]
        && Apart(a.start, a.length * Size(tg, a.elem), r.value.start, len * Size(tg, a.elem))
    {
      if pos < 0 || len < 0 || pos > a.length - len { return Raises(InvalidArgument("CArray.sub")); }
      PartInside(pos, len, a.length, Size(tg, a.elem));
      var b := Copy(CArray(a.start + pos * Size(tg, a.elem), a.elem, len));
      r := Ok(b);
    }
  }

  lemma ElementInside(i: nat, n: nat, size: nat)
    requires i < n
    ensures 0 <= i * size && i * size + size <= n * size
  {
    MulGap(i, n, size);
  }

  lemma PartInside(pos: nat, len: nat, n: nat, size: nat)
    requires pos + len <= n
    ensures 0 <= pos * size && 0 <= len * size && pos * size + len * size <= n * size
  {
    assert n * size == pos * size + len * size + (n - pos - len) * size;
  }

  /** What is stored in a copy is not seen through the original, and the other way round. */
  lemma CopiesAreSeparate(tg: Target, cd: Codec, a: CArray, b: CArray, i: nat, j: nat, v: Value, mem: seq<Byte>)
    requires StoresWhole(tg, cd) && a.elem == b.elem && Storable(tg, a.elem) && i < a.length && j < b.length
    requires a.start + a.length * Size(tg, a.elem) <= |mem| && b.start + b.length * Size(tg, b.elem) <= |mem|
    requires Apart(a.start, a.length * Size(tg, a.elem), b.start, b.length * Size(tg, b.elem)) && Fits(tg, cd, a.elem, v, |mem|)
    ensures var size := Size(tg, a.elem); var at, bt := a.start + i * size, b.start + j * size;
            && at >= 0 && bt >= 0 && at + size <= |mem| && bt + size <= |mem|
            && Load(tg, cd, b.elem, bt, Write(tg, cd, a.elem, v, at, mem)) == Load(tg, cd, b.elem, bt, mem)
            && Load(tg, cd, a.elem, at, Write(tg, cd, b.elem, v, bt, mem)) == Load(tg, cd, a.elem, at, mem)
  {
    hide Write;
    hide Load;
    hide Keeps;
    var size := Size(tg, a.elem);
    ElementInside(i, a.length, size);
    ElementInside(j, b.length, size);
    TwoPlaces(tg, cd, a.elem, a.start + i * size, b.elem, b.start + j * size, v, mem);
    TwoPlaces(tg, cd, b.elem, b.start + j * size, a.elem, a.start + i * size, v, mem);
  }
}

/** Coercions between types and function types: src/ctypes/ctypes_coerce.ml. */
module Coerce {
  import opened CtypesStatic

  /** OCaml values, as far as coercions look: pointers carry a reference type and an
      address; `Other` stands for everything else. */
  datatype V = VUnit | VPtr(reftyp: Typ, addr: int) | VFun(reffn: Fn, faddr: int) | Other(x: int)

  // The views' functions.
  datatype Views = Views(write: (ViewInfo, V) -> V, read: (ViewInfo, V) -> V)

  datatype Coercion<!A> = Id | Coerces(f: A -> A)

  // The exception Uncoercible is the other outcome.
  datatype Outcome<T> = Found(c: T) | Uncoercible

  function Run<A>(c: Coercion<A>, v: A): A { match c case Id => v case Coerces(f) => f(v) }

  datatype MlPrim =
    | MlChar | MlComplex | MlComplexld | MlFloat | MlLDouble | MlInt | MlInt32 | MlInt64 | MlLlong | MlLong | MlSint
    | MlNativeint | MlSizeT | MlUchar | MlBool | MlUint | MlUint16 | MlUint32 | MlUint64 | MlUint8 | MlUllong | MlUlong | MlUshort

  // The OCaml type a primitive is read at (src/ctypes/ctypes_primitive_types.ml:68-98).
  function MlPrimOf(p: Prim): MlPrim {
    match p
    case Char => MlChar
    case Schar => MlInt
    case Uchar => MlUchar
    case Bool => MlBool
    case Short => MlInt
    case Int => MlInt
    case Long => MlLong
    case Llong => MlLlong
    case Ushort => MlUshort
    case Sint => MlSint
    case Uint => MlUint
    case Ulong => MlUlong
    case Ullong => MlUllong
    case SizeT => MlSizeT
    case Int8T => MlInt
    case Int16T => MlInt
    case Int32T => MlInt32
    case Int64T => MlInt64
    case Uint8T => MlUint8
    case Uint16T => MlUint16
    case Uint32T => MlUint32
    case Uint64T => MlUint64
    case Camlint => MlInt
    case Nativeint => MlNativeint
    case Float => MlFloat
    case Double => MlFloat
    case LDouble => MlLDouble
    case Complex32 => MlComplex
    case Complex64 => MlComplex
    case Complexld => MlComplexld
  }

  /** `ml_prim_coercion`: the same OCaml type, three of them left out. */
  predicate PrimCoerces(l: Prim, r: Prim) {
    MlPrimOf(l) == MlPrimOf(r) && !MlPrimOf(l).MlSint? && !MlPrimOf(l).MlLDouble? && !MlPrimOf(l).MlComplexld?
  }

  /** Which primitives coerce: those read as OCaml's `int`, its `float` or `Complex.t` among
      themselves, and any other with itself, but for three. */
  lemma PrimCoercesIff(l: Prim, r: Prim)
    ensures PrimCoerces(l, r) <==>
            || (l == r && l !in {Sint, LDouble, Complexld})
            || (l in {Schar, Short, Int, Int8T, Int16T, Camlint} && r in {Schar, Short, Int, Int8T, Int16T, Camlint})
            || (l in {Float, Double} && r in {Float, Double})
            || (l in {Complex32, Complex64} && r in {Complex32, Complex64})
  {
    hide MlPrimOf;
    ReadAs(l);
    ReadAs(r);
  }

  // The one primitive read at an OCaml type that only one is read at.
  function ReadFrom(ml: MlPrim): Prim {
    match ml
    case MlChar => Char
    case MlUchar => Uchar
    case MlBool => Bool
    case MlLong => Long
    case MlLlong => Llong
    case MlUshort => Ushort
    case MlSint => Sint
    case MlUint => Uint
    case MlUlong => Ulong
    case MlUllong => Ullong
    case MlSizeT => SizeT
    case MlInt32 => Int32T
    case MlInt64 => Int64T
    case MlUint8 => Uint8T
    case MlUint16 => Uint16T
    case MlUint32 => Uint32T
    case MlUint64 => Uint64T
    case MlNativeint => Nativeint
    case MlLDouble => LDouble
    case MlComplexld => Complexld
    case MlInt => Int
    case MlFloat => Double
    case MlComplex => Complex64
  }

  lemma ReadAs(p: Prim)
    ensures MlPrimOf(p) == MlInt <==> p in {Schar, Short, Int, Int8T, Int16T, Camlint}
    ensures MlPrimOf(p) == MlFloat <==> p in {Float, Double}
    ensures MlPrimOf(p) == MlComplex <==> p in {Complex32, Complex64}
    ensures !MlPrimOf(p).MlInt? && !MlPrimOf(p).MlFloat? && !MlPrimOf(p).MlComplex? ==> ReadFrom(MlPrimOf(p)) == p
    ensures (MlPrimOf(p) == MlSint <==> p == Sint) && (MlPrimOf(p) == MlLDouble <==> p == LDouble)
    ensures MlPrimOf(p) == MlComplexld <==> p == Complexld
  {
  }

  function TypSize(t: Typ): nat {
    match t
    case Pointer(ty) => 1 + TypSize(ty)
    case Funptr(fn) => 1 + FnSize(fn)
    case View(_, ty) => 1 + TypSize(ty)
    case _ => 1
  }

  function FnSize(f: Fn): nat {
    match f case Returns(t) => 1 + TypSize(t) case Function(t, rest) => 1 + TypSize(t) + FnSize(rest)
  }

  // ---- The functions coercions are made of ----

  function Ignoring(): V -> V { (v: V) => VUnit }

  function Writing(h: Views, view: ViewInfo): V -> V { (v: V) => h.write(view, v) }

  function WritingThen(h: Views, view: ViewInfo, f: V -> V): V -> V { (v: V) => f(h.write(view, v)) }

  function Reading(h: Views, view: ViewInfo): V -> V { (v: V) => h.read(view, v) }

  function ThenReading(h: Views, view: ViewInfo, f: V -> V): V -> V { (v: V) => h.read(view, f(v)) }

  // A pointer of another kind or reference type at the same address.
  function AsPointer(b: Typ): V -> V {
    (v: V) => match v case VPtr(_, a) => VPtr(b, a) case VFun(_, a) => VPtr(b, a) case _ => v
  }

  function AsFunptr(b: Fn): V -> V {
    (v: V) => match v case VPtr(_, a) => VFun(b, a) case VFun(_, a) => VFun(b, a) case _ => v
  }

  // OCaml functions, given all their arguments.
  type Fun = seq<V> -> V

  // `fun ys -> g (x :: ys)`, a function applied to its first argument.
  function Applied(g: Fun, x: V): Fun { (ys: seq<V>) => g([x] + ys) }

  function OnResult(f: V -> V): Fun -> Fun { (g: Fun) => (xs: seq<V>) => f(g(xs)) }

  // `fun g x -> k (g x)`
  function OnRest(k: Fun -> Fun): Fun -> Fun {
    (g: Fun) => (xs: seq<V>) => if xs == [] then VUnit else k(Applied(g, xs[0]))(xs[1..])
  }

  // `fun g x -> g (f x)`
  function OnArgument(f: V -> V): Fun -> Fun {
    (g: Fun) => (xs: seq<V>) => if xs == [] then VUnit else Applied(g, f(xs[0]))(xs[1..])
  }

  // `fun g x -> k (g (f x))`
  function OnBoth(f: V -> V, k: Fun -> Fun): Fun -> Fun {
    (g: Fun) => (xs: seq<V>) => if xs == [] then VUnit else k(Applied(g, f(xs[0])))(xs[1..])
  }

  // ---- The builders ----

  /** `coercion`. */
  function CoercionOf(h: Views, a: Typ, b: Typ): Outcome<Coercion<V>>
    decreases TypSize(a) + TypSize(b)
  {
    match (a, b)
    case (_, Void) => Found(Coerces(Ignoring()))
    case (Primitive(l), Primitive(r)) => if PrimCoerces(l, r) then Found(Id) else Uncoercible
    case (View(view, ty), _) =>
      (match CoercionOf(h, ty, b)
       case Uncoercible => Uncoercible
       case Found(Id) => Found(Coerces(Writing(h, view)))
       case Found(Coerces(f)) => Found(Coerces(WritingThen(h, view, f))))
    case (_, View(view, ty)) =>
      (match CoercionOf(h, a, ty)
       case Uncoercible => Uncoercible
       case Found(Id) => Found(Coerces(Reading(h, view)))
       case Found(Coerces(f)) => Found(Coerces(ThenReading(h, view, f))))
    case (Pointer(x), Pointer(y)) =>
      if CoercionOf(h, x, y) == Found(Id) then Found(Id) else Found(Coerces(AsPointer(y)))
    case (Pointer(_), Funptr(y)) => Found(Coerces(AsFunptr(y)))
    case (Funptr(_), Pointer(y)) => Found(Coerces(AsPointer(y)))
    case (Funptr(x), Funptr(y)) =>
      if FnCoercionOf(h, x, y) == Found(Id) then Found(Id) else Found(Coerces(AsFunptr(y)))
    case _ => Uncoercible
  }

  /** `fn_coercion`: arguments the other way round. */
  function FnCoercionOf(h: Views, a: Fn, b: Fn): Outcome<Coercion<Fun>>
    decreases FnSize(a) + FnSize(b)
  {
    match (a, b)
    case (Function(at, arest), Function(bt, brest)) =>
      (match (CoercionOf(h, bt, at), FnCoercionOf(h, arest, brest))
       case (Found(Id), Found(Id)) => Found(Id)
       case (Found(Id), Found(Coerces(k))) => Found(Coerces(OnRest(k)))
       case (Found(Coerces(f)), Found(Id)) => Found(Coerces(OnArgument(f)))
       case (Found(Coerces(f)), Found(Coerces(k))) => Found(Coerces(OnBoth(f, k)))
       case _ => Uncoercible)
    case (Returns(at), Returns(bt)) =>
      (match CoercionOf(h, at, bt)
       case Uncoercible => Uncoercible
       case Found(Id) => Found(Id)
       case Found(Coerces(f)) => Found(Coerces(OnResult(f))))
    case _ => Uncoercible
  }

  // ---- Which types can be coerced ----

  predicate PointerLike(t: Typ) { t.Pointer? || t.Funptr? }

  // On types without views.
  predicate BaseCoerces(a: Typ, b: Typ) {
    b.Void? || (a.Primitive? && b.Primitive? && PrimCoerces(a.prim, b.prim)) || (PointerLike(a) && PointerLike(b))
  }

  /** Two types can be coerced exactly when, views aside, the second is void, both are
      primitives read at the same OCaml type, or both are pointers of some kind. */
  lemma {:induction false} CoercibleIff(h: Views, a: Typ, b: Typ)
    ensures CoercionOf(h, a, b).Found? <==> BaseCoerces(StripViews(a), StripViews(b))
    decreases TypSize(a) + TypSize(b)
  {
    if b.Void? {} else if a.View? { ViewDown(h, a.view, a.ty, b); CoercibleIff(h, a.ty, b); }
    else if b.View? { ViewUp(h, a, b.view, b.ty); CoercibleIff(h, a, b.ty); }
    else { BaseCoercibleIff(h, a, b); }
  }

  lemma BaseCoercibleIff(h: Views, a: Typ, b: Typ)
    requires !a.View? && !b.View?
    ensures CoercionOf(h, a, b).Found? <==> BaseCoerces(a, b)
  {
    hide PrimCoerces;
  }

  // The steps through a view on either side.
  lemma ViewDown(h: Views, view: ViewInfo, ty: Typ, b: Typ)
    requires !b.Void?
    ensures CoercionOf(h, View(view, ty), b) ==
            match CoercionOf(h, ty, b)
            case Uncoercible => Uncoercible
            case Found(Id) => Found(Coerces(Writing(h, view)))
            case Found(Coerces(f)) => Found(Coerces(WritingThen(h, view, f)))
  {
  }

  lemma ViewUp(h: Views, a: Typ, view: ViewInfo, ty: Typ)
    requires !a.View?
    ensures CoercionOf(h, a, View(view, ty)) ==
            match CoercionOf(h, a, ty)
            case Uncoercible => Uncoercible
            case Found(Id) => Found(Coerces(Reading(h, view)))
            case Found(Coerces(f)) => Found(Coerces(ThenReading(h, view, f)))
  {
  }

  predicate FnCoerces(a: Fn, b: Fn) {
    match (a, b)
    case (Function(at, arest), Function(bt, brest)) => BaseCoerces(StripViews(bt), StripViews(at)) && FnCoerces(arest, brest)
    case (Returns(at), Returns(bt)) => BaseCoerces(StripViews(at), StripViews(bt))
    case _ => false
  }

  lemma {:induction false} FnCoercibleIff(h: Views, a: Fn, b: Fn)
    ensures FnCoercionOf(h, a, b).Found? <==> FnCoerces(a, b)
    decreases FnSize(a) + FnSize(b)
  {
    hide BaseCoerces;
    match (a, b)
    case (Function(at, arest), Function(bt, brest)) => CoercibleIff(h, bt, at); FnCoercibleIff(h, arest, brest);
    case (Returns(at), Returns(bt)) => CoercibleIff(h, at, bt);
    case _ =>
  }

  /** Coercibility is transitive, for types and for function types. */
  lemma CoercibleTransitive(h: Views, a: Typ, b: Typ, c: Typ)
    requires CoercionOf(h, a, b).Found? && CoercionOf(h, b, c).Found?
    ensures CoercionOf(h, a, c).Found?
  {
    hide CoercionOf;
    CoercibleIff(h, a, b);
    CoercibleIff(h, b, c);
    CoercibleIff(h, a, c);
  }

  lemma {:induction false} FnCoercesTransitive(a: Fn, b: Fn, c: Fn)
    requires FnCoerces(a, b) && FnCoerces(b, c)
    ensures FnCoerces(a, c)
  {
    hide PrimCoerces;
    match a
    case Function(_, rest) => FnCoercesTransitive(rest, b.rest, c.rest); PrimsTransitive(c.arg, b.arg, a.arg);
    case Returns(_) => PrimsTransitive(a.ret, b.ret, c.ret);
  }

  lemma PrimsTransitive(a: Typ, b: Typ, c: Typ)
    ensures BaseCoerces(StripViews(a), StripViews(b)) && BaseCoerces(StripViews(b), StripViews(c)) ==>
            BaseCoerces(StripViews(a), StripViews(c))
  {
    hide MlPrimOf;
  }

  lemma FnCoercibleTransitive(h: Views, a: Fn, b: Fn, c: Fn)
    requires FnCoercionOf(h, a, b).Found? && FnCoercionOf(h, b, c).Found?
    ensures FnCoercionOf(h, a, c).Found?
  {
    hide FnCoercionOf;
    FnCoercibleIff(h, a, b);
    FnCoercibleIff(h, b, c);
    FnCoercibleIff(h, a, c);
    FnCoercesTransitive(a, b, c);
  }

  /** It is not reflexive: exactly these types coerce to themselves. */
  lemma ReflexiveIff(h: Views, t: Typ)
    ensures CoercionOf(h, t, t).Found? <==>
            match StripViews(t)
            case Void => true
            case Pointer(_) => true
            case Funptr(_) => true
            case Primitive(p) => !p.Sint? && !p.LDouble? && !p.Complexld?
            case _ => false
  {
    hide CoercionOf;
    CoercibleIff(h, t, t);
  }

  // ---- What a coercion does ----

  // Through the views of a type, outermost first, and back.
  function WriteAll(h: Views, t: Typ, v: V): V {
    match t case View(view, ty) => WriteAll(h, ty, h.write(view, v)) case _ => v
  }

  function ReadAll(h: Views, t: Typ, v: V): V {
    match t case View(view, ty) => h.read(view, ReadAll(h, ty, v)) case _ => v
  }

  // Equal up to the reference type a pointer carries.
  predicate Same(v: V, w: V) {
    v == w || (v.VPtr? && w.VPtr? && v.addr == w.addr) || (v.VFun? && w.VFun? && v.faddr == w.faddr)
  }

  // The views do not look at reference types.
  ghost predicate Respectful(h: Views) {
    forall view: ViewInfo, v: V, w: V :: Same(v, w) ==> Same(h.read(view, v), h.read(view, w)) && Same(h.write(view, v), h.write(view, w))
  }

  // The value of the stripped type, converted.
  function Convert(b: Typ, v: V): V {
    match b
    case Void => VUnit
    case Pointer(y) => AsPointer(y)(v)
    case Funptr(y) => AsFunptr(y)(v)
    case _ => v
  }

  // A value of the kind the type has; pointers and function pointers are told apart.
  predicate OfKind(t: Typ, v: V) {
    match t case Pointer(_) => v.VPtr? case Funptr(_) => v.VFun? case _ => true
  }

  lemma {:induction false} ReadAllSame(h: Views, t: Typ, v: V, w: V)
    requires Respectful(h) && Same(v, w)
    ensures Same(ReadAll(h, t, v), ReadAll(h, t, w))
  {
    match t case View(_, ty) => ReadAllSame(h, ty, v, w); case _ =>
  }

  lemma {:induction false} WriteAllSame(h: Views, t: Typ, v: V, w: V)
    requires Respectful(h) && Same(v, w)
    ensures Same(WriteAll(h, t, v), WriteAll(h, t, w))
  {
    match t case View(view, ty) => WriteAllSame(h, ty, h.write(view, v), h.write(view, w)); case _ =>
  }

  /** A coercion goes down through the first type's views, converts, and goes up through
      the second's. */
  lemma {:induction false} CoercionMeaning(h: Views, a: Typ, b: Typ, v: V)
    requires CoercionOf(h, a, b).Found? && Respectful(h) && OfKind(StripViews(a), WriteAll(h, a, v))
    ensures Same(Run(CoercionOf(h, a, b).c, v), ReadAll(h, b, Convert(StripViews(b), WriteAll(h, a, v))))
    decreases TypSize(a) + TypSize(b)
  {
    if b.Void? {} else if a.View? {
      hide CoercionOf;
      ViewDown(h, a.view, a.ty, b);
      CoercionMeaning(h, a.ty, b, h.write(a.view, v));
    } else if b.View? { ReadUp(h, a, b.view, b.ty, v); } else { BaseMeaning(h, a, b, v); }
  }

  lemma {:induction false} ReadUp(h: Views, a: Typ, view: ViewInfo, ty: Typ, v: V)
    requires var b := View(view, ty); CoercionOf(h, a, b).Found? && !a.View? && Respectful(h) && OfKind(a, v)
    ensures var b := View(view, ty); Same(Run(CoercionOf(h, a, b).c, v), ReadAll(h, b, Convert(StripViews(b), v)))
    decreases TypSize(a) + TypSize(View(view, ty)), 0
  {
    hide Convert;
    hide CoercionOf;
    ViewUp(h, a, view, ty);
    CoercionMeaning(h, a, ty, v);
    var inner := Run(CoercionOf(h, a, ty).c, v);
    var want := ReadAll(h, ty, Convert(StripViews(ty), v));
    assert Same(inner, want) && Same(h.read(view, inner), h.read(view, want));
  }

  lemma BaseMeaning(h: Views, a: Typ, b: Typ, v: V)
    requires CoercionOf(h, a, b).Found? && !a.View? && !b.View? && OfKind(a, v)
    ensures Same(Run(CoercionOf(h, a, b).c, v), Convert(b, v))
  {
    hide PrimCoerces;
  }

  /** Pointer and function-pointer coercions keep the address. */
  lemma AddressesKept(h: Views, a: Typ, b: Typ, v: V)
    requires PointerLike(a) && PointerLike(b) && OfKind(a, v)
    ensures CoercionOf(h, a, b).Found?
    ensures var w := Run(CoercionOf(h, a, b).c, v);
            && OfKind(b, w) && (if w.VPtr? then w.addr else w.faddr) == if v.VPtr? then v.addr else v.faddr
  {
  }

  /** The types between which nothing is converted: primitives read at the same OCaml
      type, pointers to such types, pointers to such functions. */
  predicate Identical(a: Typ, b: Typ)
    decreases TypSize(a) + TypSize(b)
  {
    match (a, b)
    case (Primitive(l), Primitive(r)) => PrimCoerces(l, r)
    case (Pointer(x), Pointer(y)) => Identical(x, y)
    case (Funptr(x), Funptr(y)) => IdenticalFn(x, y)
    case _ => false
  }

  predicate IdenticalFn(a: Fn, b: Fn)
    decreases FnSize(a) + FnSize(b)
  {
    match (a, b)
    case (Function(at, arest), Function(bt, brest)) => Identical(bt, at) && IdenticalFn(arest, brest)
    case (Returns(at), Returns(bt)) => Identical(at, bt)
    case _ => false
  }

  /** The coercion is the identity short cut between exactly those types. */
  lemma {:induction false} IdentityIff(h: Views, a: Typ, b: Typ)
    ensures CoercionOf(h, a, b) == Found(Id) <==> Identical(a, b)
    decreases TypSize(a) + TypSize(b)
  {
    hide PrimCoerces;
    match (a, b)
    case (Pointer(x), Pointer(y)) => IdentityIff(h, x, y);
    case (Funptr(x), Funptr(y)) => FnIdentityIff(h, x, y);
    case _ =>
  }

  lemma {:induction false} FnIdentityIff(h: Views, a: Fn, b: Fn)
    ensures FnCoercionOf(h, a, b) == Found(Id) <==> IdenticalFn(a, b)
    decreases FnSize(a) + FnSize(b)
  {
    hide PrimCoerces;
    match (a, b)
    case (Function(at, arest), Function(bt, brest)) => IdentityIff(h, bt, at); FnIdentityIff(h, arest, brest);
    case (Returns(at), Returns(bt)) => IdentityIff(h, at, bt);
    case _ =>
  }

  // A pointer that carries the type it is said to point at.
  predicate CarriesTarget(t: Typ, v: V) {
    match t case Pointer(y) => v.VPtr? && v.reftyp == y case Funptr(y) => v.VFun? && v.reffn == y case _ => false
  }

  /** Whatever the kinds of the two pointers, the coerced one carries its new target unless
      the types are identical, when it is returned as it is, with the target it had. */
  lemma ReferenceTypeIff(h: Views, a: Typ, b: Typ, v: V)
    requires PointerLike(a) && PointerLike(b) && OfKind(a, v)
    ensures CoercionOf(h, a, b).Found?
    ensures var w := Run(CoercionOf(h, a, b).c, v);
            && (CarriesTarget(b, w) <==> CarriesTarget(b, v) || !Identical(a, b))
            && (Identical(a, b) ==> w == v)
  {
    IdentityIff(h, a, b);
  }

  // From pointer to int to pointer to short nothing changes.
  lemma OldReferenceExample(h: Views, addr: int)
    ensures var v := VPtr(Primitive(Int), addr);
            var c := CoercionOf(h, Pointer(Primitive(Int)), Pointer(Primitive(Short)));
            c.Found? && Run(c.c, v) == v && Run(c.c, v).reftyp != Primitive(Short)
  {
    ReferenceTypeIff(h, Pointer(Primitive(Int)), Pointer(Primitive(Short)), VPtr(Primitive(Int), addr));
  }

  // Every view on the way in undoes its reading.
  ghost predicate WritesUndoReads(h: Views, t: Typ) {
    match t case View(view, ty) => (forall v: V :: h.write(view, h.read(view, v)) == v) && WritesUndoReads(h, ty) case _ => true
  }

  lemma {:induction false} WriteUndoesRead(h: Views, t: Typ, v: V)
    requires WritesUndoReads(h, t)
    ensures WriteAll(h, t, ReadAll(h, t, v)) == v
  {
    match t case View(view, ty) => WriteUndoesRead(h, ty, v); case _ =>
  }

  /** Composition: going by way of a middle type whose views' writes undo their reads the
      direct coercion, up to a pointer's reference type. */
  lemma CoercionsCompose(h: Views, a: Typ, b: Typ, c: Typ, v: V)
    requires CoercionOf(h, a, b).Found? && CoercionOf(h, b, c).Found?
    requires Respectful(h) && WritesUndoReads(h, b) && OfKind(StripViews(a), WriteAll(h, a, v))
    ensures CoercionOf(h, a, c).Found?
    ensures Same(Run(CoercionOf(h, b, c).c, Run(CoercionOf(h, a, b).c, v)), Run(CoercionOf(h, a, c).c, v))
  {
    hide CoercionOf;
    hide Convert;
    CoercibleTransitive(h, a, b, c);
    CoercibleIff(h, a, b);
    CoercibleIff(h, b, c);
    var x := WriteAll(h, a, v);
    var mid := Run(CoercionOf(h, a, b).c, v);
    CoercionMeaning(h, a, b, v);
    var y := Convert(StripViews(b), x);
    WriteUndoesRead(h, b, y);
    WriteAllSame(h, b, mid, ReadAll(h, b, y));
    var z := WriteAll(h, b, mid);
    ConvertKind(StripViews(a), StripViews(b), x);
    SameKind(StripViews(b), z, y);
    CoercionMeaning(h, b, c, mid);
    CoercionMeaning(h, a, c, v);
    ConvertTwice(StripViews(a), StripViews(b), StripViews(c), x, z);
    ReadAllSame(h, c, Convert(StripViews(c), z), Convert(StripViews(c), x));
    hide ReadAll;
    SameTransitive(Run(CoercionOf(h, b, c).c, mid), ReadAll(h, c, Convert(StripViews(c), z)), ReadAll(h, c, Convert(StripViews(c), x)));
    SameTransitive(Run(CoercionOf(h, b, c).c, mid), ReadAll(h, c, Convert(StripViews(c), x)), Run(CoercionOf(h, a, c).c, v));
  }

  lemma SameTransitive(u: V, v: V, w: V)
    requires Same(u, v) && Same(v, w)
    ensures Same(u, w) && Same(v, u) && Same(w, v)
  {
  }

  lemma ConvertKind(a: Typ, b: Typ, v: V)
    requires BaseCoerces(a, b) && OfKind(a, v)
    ensures OfKind(b, Convert(b, v))
  {
  }

  lemma SameKind(t: Typ, v: V, w: V)
    requires Same(v, w) && OfKind(t, w)
    ensures OfKind(t, v)
  {
  }

  lemma ConvertTwice(a: Typ, b: Typ, c: Typ, v: V, w: V)
    requires BaseCoerces(a, b) && BaseCoerces(b, c) && OfKind(a, v) && Same(w, Convert(b, v))
    ensures Same(Convert(c, w), Convert(c, v))
  {
    hide PrimCoerces;
  }

  // ---- Functions ----

  // Arguments coerced from the second type's parameters to the first's.
  function CoerceArgs(h: Views, a: Fn, b: Fn, xs: seq<V>): seq<V>
    requires FnCoerces(a, b) && |xs| == |Params(b)|
    decreases a
  {
    match a
    case Returns(_) => []
    case Function(at, arest) =>
      CoercibleIff(h, b.arg, at);
      [Run(CoercionOf(h, b.arg, at).c, xs[0])] + CoerceArgs(h, arest, b.rest, xs[1..])
  }

  lemma {:induction false} ResultCoerces(a: Fn, b: Fn)
    requires FnCoerces(a, b)
    ensures BaseCoerces(StripViews(ReturnType(a)), StripViews(ReturnType(b)))
  {
    match a case Returns(_) => case Function(_, rest) => ResultCoerces(rest, b.rest);
  }

  // Which shape a coercion of function types has.
  lemma ShapeIs(h: Views, a: Fn, b: Fn)
    requires a.Function? && b.Function? && FnCoercionOf(h, a, b).Found?
    ensures var x, k := CoercionOf(h, b.arg, a.arg), FnCoercionOf(h, a.rest, b.rest);
            && x.Found? && k.Found?
            && FnCoercionOf(h, a, b).c ==
               match (x.c, k.c)
               case (Id, Id) => Id
               case (Id, Coerces(g)) => Coerces(OnRest(g))
               case (Coerces(f), Id) => Coerces(OnArgument(f))
               case (Coerces(f), Coerces(g)) => Coerces(OnBoth(f, g))
  {
    hide CoercionOf;
  }

  lemma WholeCall(g: Fun, xs: seq<V>)
    requires xs != []
    ensures Applied(g, xs[0])(xs[1..]) == g(xs)
  {
    assert [xs[0]] + xs[1..] == xs;
  }

  lemma ShapesApplied(f: V -> V, k: Fun -> Fun, g: Fun, xs: seq<V>)
    requires xs != []
    ensures OnRest(k)(g)(xs) == k(Applied(g, xs[0]))(xs[1..])
    ensures OnArgument(f)(g)(xs) == Applied(g, f(xs[0]))(xs[1..])
    ensures OnBoth(f, k)(g)(xs) == k(Applied(g, f(xs[0])))(xs[1..])
  {
  }

  // The three shapes are the composed one, where the identity does nothing.
  lemma ShapesCompose(h: Views, a: Fn, b: Fn, g: Fun, xs: seq<V>)
    requires a.Function? && b.Function? && FnCoercionOf(h, a, b).Found? && xs != []
    ensures CoercionOf(h, b.arg, a.arg).Found? && FnCoercionOf(h, a.rest, b.rest).Found?
    ensures Run(FnCoercionOf(h, a, b).c, g)(xs) ==
            Run(FnCoercionOf(h, a.rest, b.rest).c, Applied(g, Run(CoercionOf(h, b.arg, a.arg).c, xs[0])))(xs[1..])
  {
    hide CoercionOf;
    hide FnCoercionOf;
    hide OnRest;
    hide OnArgument;
    hide OnBoth;
    hide Applied;
    ShapeIs(h, a, b);
    WholeCall(g, xs);
    match (CoercionOf(h, b.arg, a.arg).c, FnCoercionOf(h, a.rest, b.rest).c)
    case (Id, Id) =>
    case (Id, Coerces(k)) => ShapesApplied((v: V) => v, k, g, xs);
    case (Coerces(f), Id) => ShapesApplied(f, (u: Fun) => u, g, xs);
    case (Coerces(f), Coerces(k)) => ShapesApplied(f, k, g, xs);
  }

  /** `coerce_fn`, at any arity: the coerced function coerces each argument the other way
      round, calls the original, and coerces its result; the identity short cuts make no
      difference. */
  lemma {:induction false} CoercedFunction(h: Views, a: Fn, b: Fn, g: Fun, xs: seq<V>)
    requires FnCoerces(a, b) && |xs| == |Params(b)|
    ensures FnCoercionOf(h, a, b).Found? && CoercionOf(h, ReturnType(a), ReturnType(b)).Found?
    ensures Run(FnCoercionOf(h, a, b).c, g)(xs) ==
            Run(CoercionOf(h, ReturnType(a), ReturnType(b)).c, g(CoerceArgs(h, a, b, xs)))
    decreases a
  {
    hide CoercionOf;
    hide BaseCoerces;
    FnCoercibleIff(h, a, b);
    ResultCoerces(a, b);
    CoercibleIff(h, ReturnType(a), ReturnType(b));
    match a
    case Returns(_) => assert xs == [];
    case Function(at, arest) =>
      ShapesCompose(h, a, b, g, xs);
      hide FnCoercionOf;
      var x, rest := Run(CoercionOf(h, b.arg, at).c, xs[0]), CoerceArgs(h, arest, b.rest, xs[1..]);
      CoercedFunction(h, arest, b.rest, Applied(g, x), xs[1..]);
      assert Applied(g, x)(rest) == g([x] + rest);
  }

  // ---- Functions coerced twice ----

  // Equal, argument by argument, up to reference types.
  predicate SameAll(us: seq<V>, vs: seq<V>) {
    |us| == |vs| && forall i :: 0 <= i < |us| ==> Same(us[i], vs[i])
  }

  // The function does not look at reference types.
  ghost predicate RespectsSame(g: Fun) {
    forall us: seq<V>, vs: seq<V> :: SameAll(us, vs) ==> Same(g(us), g(vs))
  }

  // The function's results are of its return type's kind.
  ghost predicate ResultsOfKind(h: Views, f: Fn, g: Fun) {
    forall us: seq<V> :: OfKind(StripViews(ReturnType(f)), WriteAll(h, ReturnType(f), g(us)))
  }

  predicate ArgsOfKind(h: Views, f: Fn, xs: seq<V>) {
    match f
    case Returns(_) => xs == []
    case Function(t, rest) => xs != [] && OfKind(StripViews(t), WriteAll(h, t, xs[0])) && ArgsOfKind(h, rest, xs[1..])
  }

  ghost predicate FnWritesUndoReads(h: Views, f: Fn) {
    match f
    case Returns(t) => WritesUndoReads(h, t)
    case Function(t, rest) => WritesUndoReads(h, t) && FnWritesUndoReads(h, rest)
  }

  lemma {:induction false} ResultWritesUndoReads(h: Views, f: Fn)
    requires FnWritesUndoReads(h, f)
    ensures WritesUndoReads(h, ReturnType(f))
  {
    match f case Returns(_) => case Function(_, rest) => ResultWritesUndoReads(h, rest);
  }

  lemma {:induction false} AsManyArgs(h: Views, f: Fn, xs: seq<V>)
    requires ArgsOfKind(h, f, xs)
    ensures |xs| == |Params(f)|
  {
    match f case Returns(_) => case Function(_, rest) => AsManyArgs(h, rest, xs[1..]);
  }

  lemma {:induction false} AsManyCoerced(h: Views, a: Fn, b: Fn, xs: seq<V>)
    requires FnCoerces(a, b) && |xs| == |Params(b)|
    ensures |CoerceArgs(h, a, b, xs)| == |Params(a)|
  {
    hide BaseCoerces;
    match a case Returns(_) => case Function(_, arest) => AsManyCoerced(h, arest, b.rest, xs[1..]);
  }

  lemma SameAllCons(u: V, us: seq<V>, v: V, vs: seq<V>)
    requires Same(u, v) && SameAll(us, vs)
    ensures SameAll([u] + us, [v] + vs)
  {
    hide Same;
  }

  // Each argument, which goes from c's parameter to a's, by way of b's.
  lemma {:induction false} ArgsCompose(h: Views, a: Fn, b: Fn, c: Fn, xs: seq<V>)
    requires FnCoerces(a, b) && FnCoerces(b, c) && FnCoerces(a, c) && |xs| == |Params(c)|
    requires |CoerceArgs(h, b, c, xs)| == |Params(b)|
    requires Respectful(h) && FnWritesUndoReads(h, b) && ArgsOfKind(h, c, xs)
    ensures SameAll(CoerceArgs(h, a, b, CoerceArgs(h, b, c, xs)), CoerceArgs(h, a, c, xs))
    decreases a
  {
    hide CoercionOf;
    hide BaseCoerces;
    hide Same;
    hide Respectful;
    match a
    case Returns(_) =>
    case Function(at, arest) =>
      hide SameAll;
      CoercibleIff(h, b.arg, at);
      CoercibleIff(h, c.arg, b.arg);
      CoercibleIff(h, c.arg, at);
      CoercionsCompose(h, c.arg, b.arg, at, xs[0]);
      AsManyCoerced(h, b.rest, c.rest, xs[1..]);
      ArgsCompose(h, arest, b.rest, c.rest, xs[1..]);
      var mid := CoerceArgs(h, b, c, xs);
      assert mid[1..] == CoerceArgs(h, b.rest, c.rest, xs[1..]);
      SameAllCons(Run(CoercionOf(h, b.arg, at).c, mid[0]), CoerceArgs(h, arest, b.rest, mid[1..]),
                  Run(CoercionOf(h, c.arg, at).c, xs[0]), CoerceArgs(h, arest, c.rest, xs[1..]));
  }

  // A coercion does not look at reference types either.
  lemma CoercionRespects(h: Views, a: Typ, b: Typ, v: V, w: V)
    requires CoercionOf(h, a, b).Found? && Respectful(h) && Same(v, w) && OfKind(StripViews(a), WriteAll(h, a, w))
    ensures OfKind(StripViews(a), WriteAll(h, a, v))
    ensures Same(Run(CoercionOf(h, a, b).c, v), Run(CoercionOf(h, a, b).c, w))
  {
    hide CoercionOf;
    var x, y := WriteAll(h, a, v), WriteAll(h, a, w);
    WriteAllSame(h, a, v, w);
    SameKind(StripViews(a), x, y);
    CoercionMeaning(h, a, b, v);
    CoercionMeaning(h, a, b, w);
    var cx, cy := Convert(StripViews(b), x), Convert(StripViews(b), y);
    assert Same(cx, cy);
    hide Convert;
    ReadAllSame(h, b, cx, cy);
    hide ReadAll;
    SameTransitive(Run(CoercionOf(h, a, b).c, v), ReadAll(h, b, cx), ReadAll(h, b, cy));
    SameTransitive(Run(CoercionOf(h, a, b).c, v), ReadAll(h, b, cy), Run(CoercionOf(h, a, b).c, w));
  }

  /** Composition for function types, where the arguments go the other way: a function
      coerced by way of a middle type is the one coerced directly, on all arguments of
      c's parameters, up to the reference type of a pointer. */
  lemma FnCoercionsCompose(h: Views, a: Fn, b: Fn, c: Fn, g: Fun, xs: seq<V>)
    requires FnCoercionOf(h, a, b).Found? && FnCoercionOf(h, b, c).Found?
    requires Respectful(h) && FnWritesUndoReads(h, b)
    requires RespectsSame(g) && ResultsOfKind(h, a, g) && ArgsOfKind(h, c, xs)
    ensures FnCoercionOf(h, a, c).Found?
    ensures Same(Run(FnCoercionOf(h, b, c).c, Run(FnCoercionOf(h, a, b).c, g))(xs), Run(FnCoercionOf(h, a, c).c, g)(xs))
  {
    hide CoercionOf;
    hide FnCoercionOf;
    hide CoerceArgs;
    hide Same;
    hide SameAll;
    hide FnCoerces;
    hide BaseCoerces;
    hide OfKind;
    hide Respectful;
    FnCoercibleTransitive(h, a, b, c);
    FnCoercibleIff(h, a, b);
    FnCoercibleIff(h, b, c);
    FnCoercibleIff(h, a, c);
    AsManyArgs(h, c, xs);
    AsManyCoerced(h, b, c, xs);
    ArgsCompose(h, a, b, c, xs);
    var mid := CoerceArgs(h, b, c, xs);
    var ra, rb, rc := ReturnType(a), ReturnType(b), ReturnType(c);
    var u, v := g(CoerceArgs(h, a, b, mid)), g(CoerceArgs(h, a, c, xs));
    assert Same(u, v) && OfKind(StripViews(ra), WriteAll(h, ra, v));
    CoercedFunction(h, b, c, Run(FnCoercionOf(h, a, b).c, g), xs);
    CoercedFunction(h, a, b, g, mid);
    CoercedFunction(h, a, c, g, xs);
    ResultWritesUndoReads(h, b);
    CoercionRespects(h, ra, rc, u, v);
    CoercionsCompose(h, ra, rb, rc, u);
    SameTransitive(Run(CoercionOf(h, rb, rc).c, Run(CoercionOf(h, ra, rb).c, u)), Run(CoercionOf(h, ra, rc).c, u),
                   Run(CoercionOf(h, ra, rc).c, v));
  }
}

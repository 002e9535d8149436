/** The values primitives carry between OCaml and C: the tables of
    src/cstubs/cstubs_c_language.ml:164-232 against the OCaml types of
    src/ctypes/ctypes_primitive_types.ml:68-98 and the C types named by
    src/configure/gen_c_primitives.ml:28-66. */
module PrimitiveValues {
  import opened CtypesStatic
  import opened CLanguage
  import opened Projections
  import opened Declarator
  import Coerce

  type MlPrim = Coerce.MlPrim

  // ---- Representations in OCaml ----

  /** The functions that build and read the values of each OCaml type: those of the OCaml
      runtime, of the integers library and of ctypes itself. */
  predicate Boxes(ml: MlPrim, cons: string, acc: string) {
    match ml
    case MlChar => cons == "Ctypes_val_char" && acc == "Int_val"
    case MlBool => cons == "Val_bool" && acc == "Bool_val"
    case MlInt => (cons == "Val_int" && acc == "Int_val") || (cons == "Val_long" && acc == "Long_val")
    case MlInt32 => cons == "caml_copy_int32" && acc == "Int32_val"
    case MlInt64 => cons == "caml_copy_int64" && acc == "Int64_val"
    case MlNativeint => cons == "caml_copy_nativeint" && acc == "Nativeint_val"
    case MlSint => cons == "ctypes_copy_sint" && acc == "ctypes_sint_val"
    case MlLong => cons == "ctypes_copy_long" && acc == "ctypes_long_val"
    case MlLlong => cons == "ctypes_copy_llong" && acc == "ctypes_llong_val"
    case MlUshort => cons == "ctypes_copy_ushort" && acc == "ctypes_ushort_val"
    case MlUint => cons == "ctypes_copy_uint" && acc == "ctypes_uint_val"
    case MlUlong => cons == "ctypes_copy_ulong" && acc == "ctypes_ulong_val"
    case MlUllong => cons == "ctypes_copy_ullong" && acc == "ctypes_ullong_val"
    case MlSizeT => cons == "ctypes_copy_size_t" && acc == "ctypes_size_t_val"
    case MlUchar => cons == "Integers_val_uint8" && acc == "Uint8_val"
    case MlUint8 => cons == "Integers_val_uint8" && acc == "Uint8_val"
    case MlUint16 => cons == "Integers_val_uint16" && acc == "Uint16_val"
    case MlUint32 => cons == "integers_copy_uint32" && acc == "Uint32_val"
    case MlUint64 => cons == "integers_copy_uint64" && acc == "Uint64_val"
    case MlFloat => cons == "caml_copy_double" && acc == "Double_val"
    case MlLDouble => cons == "ctypes_copy_ldouble" && acc == "ctypes_ldouble_val"
    case MlComplex =>
      || (cons == "ctypes_copy_float_complex" && acc == "ctypes_float_complex_val")
      || (cons == "ctypes_copy_double_complex" && acc == "ctypes_double_complex_val")
    case MlComplexld => cons == "ctypes_copy_ldouble_complex" && acc == "ctypes_ldouble_complex_val"
  }

  /** A primitive is built by the one and read by the other of a pair of functions for its
      OCaml type. */
  lemma SameBox(p: Prim)
    ensures Boxes(Coerce.MlPrimOf(p), PrimInj(p).fname, PrimPrj(p).fname)
  {
    hide Boxes;
    hide PrimInj;
    hide PrimPrj;
    hide Coerce.MlPrimOf;
    if p in {Char, Schar, Uchar, Bool, Short, Int, Int8T, Int16T, Camlint} { SmallBox(p); }
    else if p in {Long, Llong, Ushort, Sint, Uint, Ulong, Ullong, SizeT} { MachineBox(p); }
    else if p in {Float, Double, LDouble, Complex32, Complex64, Complexld} { FloatingBox(p); }
    else { ExactBox(p); }
  }

  lemma SmallBox(p: Prim)
    requires p in {Char, Schar, Uchar, Bool, Short, Int, Int8T, Int16T, Camlint}
    ensures Boxes(Coerce.MlPrimOf(p), PrimInj(p).fname, PrimPrj(p).fname)
  {
  }

  lemma MachineBox(p: Prim)
    requires p in {Long, Llong, Ushort, Sint, Uint, Ulong, Ullong, SizeT}
    ensures Boxes(Coerce.MlPrimOf(p), PrimInj(p).fname, PrimPrj(p).fname)
  {
  }

  lemma FloatingBox(p: Prim)
    requires p in {Float, Double, LDouble, Complex32, Complex64, Complexld}
    ensures Boxes(Coerce.MlPrimOf(p), PrimInj(p).fname, PrimPrj(p).fname)
  {
  }

  lemma ExactBox(p: Prim)
    requires p in {Int32T, Int64T, Uint8T, Uint16T, Uint32T, Uint64T, Nativeint}
    ensures Boxes(Coerce.MlPrimOf(p), PrimInj(p).fname, PrimPrj(p).fname)
  {
  }

  /** What is read has the primitive's own C type, or a wider one of the same kind; only
      what is read for `camlint` has not: it is an `int`. */
  lemma ReadWideEnough(p: Prim)
    ensures PrimPrj(p).ret.Primitive?
    ensures NoNarrower(ArithOf(p), ArithOf(PrimPrj(p).ret.prim)) <==> !p.Camlint?
    ensures PrimPrj(Camlint).ret == Primitive(Int)
  {
    hide PrimPrj;
    ReadAt(p);
    ReadAt(Camlint);
  }

  // The primitives read at another C type than their own.
  lemma {:induction false} ReadAt(p: Prim)
    ensures PrimPrj(p).ret == Primitive(
      if p in {Char, Schar, Short, Int8T, Int16T, Camlint} then Int else if p == Uchar then Uint8T else if p == Float then Double else p)
  {
  }

  // Whether every value of the one C type is one of the other, on any machine.
  predicate NoNarrower(a: Arith, b: Arith) {
    match (a, b)
    case (PlainChar, Integer(s, rank)) => s && rank != CharRank
    case (Integer(s, rank), Integer(s', rank')) => s == s' && RankNumber(rank) <= RankNumber(rank')
    case (Integer(s, CharRank), Exact(s', n)) => s == s' && 8 <= n
    case (Exact(s, n), Integer(s', rank)) => s == s' && n <= 16 && RankNumber(rank) >= 1
    case (Real(SinglePrecision), Real(_)) => true
    case (_, _) => a == b
  }

  function RankNumber(r: Rank): nat {
    match r case CharRank => 0 case ShortRank => 1 case IntRank => 2 case LongRank => 3 case LongLongRank => 4
  }

  // ---- Numbers ----

  function Pow2(n: nat): (p: int)
    ensures p > 0
  {
    if n == 0 then 1 else 2 * Pow2(n - 1)
  }

  lemma {:induction false} PowersGrow(a: nat, b: nat)
    requires a <= b
    ensures Pow2(a) <= Pow2(b)
    decreases b
  {
    if a < b { PowersGrow(a, b - 1); }
  }

  // Widths in bits (5.2.4.2.1); those of `intnat` and of pointers are OCaml's word.
  datatype DataModel = DataModel(charSigned: bool, short: nat, int_: nat, long: nat, llong: nat, sizeT: nat, word: nat)

  predicate Sane(d: DataModel) {
    16 <= d.short <= d.int_ <= d.long <= d.llong && d.sizeT >= 16 && d.word >= 32
  }

  datatype Shape = Shape(signed: bool, bits: nat)

  function ShapeOf(d: DataModel, a: Arith): Option<Shape> {
    match a
    case PlainChar => Some(Shape(d.charSigned, 8))
    case Integer(s, CharRank) => Some(Shape(s, 8))
    case Integer(s, ShortRank) => Some(Shape(s, d.short))
    case Integer(s, IntRank) => Some(Shape(s, d.int_))
    case Integer(s, LongRank) => Some(Shape(s, d.long))
    case Integer(s, LongLongRank) => Some(Shape(s, d.llong))
    case Exact(s, n) => Some(Shape(s, n))
    case SizeInteger => Some(Shape(false, d.sizeT))
    case WordInteger => Some(Shape(true, d.word))
    case _ => None
  }

  predicate InShape(s: Shape, x: int)
    requires s.bits > 0
  {
    if s.signed then -Pow2(s.bits - 1) <= x < Pow2(s.bits - 1) else 0 <= x < Pow2(s.bits)
  }

  /** Conversion to an integer type (6.3.1.3): modulo its range, signed types included. */
  function Wrapped(s: Shape, x: int): (r: int)
    requires s.bits > 0
    ensures InShape(s, r)
  {
    var u := x % Pow2(s.bits);
    if s.signed && u >= Pow2(s.bits - 1) then u - Pow2(s.bits) else u
  }

  lemma InsideStays(s: Shape, x: int)
    requires s.bits > 0 && InShape(s, x)
    ensures Wrapped(s, x) == x
  {
    var m := Pow2(s.bits);
    assert m == 2 * Pow2(s.bits - 1);
    hide Pow2;
    RestOf(x, m);
  }

  lemma RestOf(x: int, m: int)
    requires m > 0 && -m <= x < m
    ensures x % m == if x < 0 then x + m else x
  {
    var q, r := x / m, x % m;
    assert x == q * m + r;
    Multiples(q, m);
  }

  lemma Multiples(q: int, m: int)
    requires m > 0
    ensures (q <= -2 ==> q * m <= -2 * m) && (q >= 1 ==> q * m >= m)
  {
    if q <= -2 { assert (-2 - q) * m >= 0; }
    if q >= 1 { assert (q - 1) * m >= 0; }
  }

  // The shape of an integer primitive on a machine.
  function PrimShape(d: DataModel, p: Prim): Option<Shape> { ShapeOf(d, ArithOf(p)) }

  // The numbers an OCaml type has; `int` is a bit narrower than a word.
  function MlShape(d: DataModel, ml: MlPrim): Option<Shape>
    requires Sane(d)
  {
    match ml
    case MlInt => Some(Shape(true, d.word - 1))
    case MlInt32 => Some(Shape(true, 32))
    case MlInt64 => Some(Shape(true, 64))
    case MlNativeint => Some(Shape(true, d.word))
    case MlSint => Some(Shape(true, d.int_))
    case MlLong => Some(Shape(true, d.long))
    case MlLlong => Some(Shape(true, d.llong))
    case MlUshort => Some(Shape(false, d.short))
    case MlUint => Some(Shape(false, d.int_))
    case MlUlong => Some(Shape(false, d.long))
    case MlUllong => Some(Shape(false, d.llong))
    case MlSizeT => Some(Shape(false, d.sizeT))
    case MlUchar => Some(Shape(false, 8))
    case MlUint8 => Some(Shape(false, 8))
    case MlUint16 => Some(Shape(false, 16))
    case MlUint32 => Some(Shape(false, 32))
    case MlUint64 => Some(Shape(false, 64))
    case _ => None
  }

  // The numbers both sides of a primitive have; an OCaml `char` is any byte.
  predicate Held(d: DataModel, p: Prim, x: int)
    requires Sane(d)
  {
    var c, o := PrimShape(d, p), MlShape(d, Coerce.MlPrimOf(p));
    c.Some? && c.value.bits > 0 && InShape(c.value, x) && (p.Char? || (o.Some? && o.value.bits > 0 && InShape(o.value, x)))
  }

  // C's conversions to integer types.
  ghost predicate ConvertsAs(m: Machine, d: DataModel) {
    forall p: Prim, x: int {:trigger m.convert(Primitive(p), CInt(x))} ::
      PrimShape(d, p).Some? && PrimShape(d, p).value.bits > 0 ==>
        m.convert(Primitive(p), CInt(x)) == CInt(Wrapped(PrimShape(d, p).value, x))
  }

  // What reading gives of a number built: `Int_val` is an `int`, and a `char` is its byte.
  predicate Carries(d: DataModel, ml: MlPrim, acc: string, x: int, y: int)
    requires Sane(d)
  {
    if ml.MlChar? then -128 <= x < 256 && y == x % 256
    else
      var o := MlShape(d, ml);
      y == x && o.Some? && o.value.bits > 0 && InShape(o.value, x) && (acc == "Int_val" ==> InShape(Shape(true, d.int_), x))
  }

  /** The runtime: a number built by one function of a pair is read by the other. */
  ghost predicate Unboxes(m: Machine, d: DataModel)
    requires Sane(d)
  {
    forall ml: MlPrim, f: CFunction, g: CFunction, x: int, y: int, w: World, w1: World
      {:trigger Carries(d, ml, g.fname, x, y), m.run(OCall(g), [m.run(OCall(f), [CInt(x)], w).v], w1)} ::
      Boxes(ml, f.fname, g.fname) && Carries(d, ml, g.fname, x, y) ==>
        m.run(OCall(g), [m.run(OCall(f), [CInt(x)], w).v], w1).v == CInt(y)
  }

  // C to OCaml and back, with anything happening in between.
  function ThereAndBack(m: Machine, t: Typ, x: int, w: World, w1: World): Val
    requires InjError(t).None? && PrjError(t).None? && !HasNoArgument(t)
  {
    Project(m, t, Inject(m, t, CInt(x), w).0, w1).0
  }

  lemma PrimitivesPass(t: Typ)
    requires StripViews(t).Primitive?
    ensures InjError(t).None? && PrjError(t).None? && !HasNoArgument(t)
  {
    PrjErrorStrip(t);
  }

  // What the two functions make of a number held by both sides.
  lemma Unfolded(m: Machine, d: DataModel, t: Typ, x: int, y: int, w: World, w1: World)
    requires Sane(d) && ConvertsAs(m, d) && Unboxes(m, d) && StripViews(t).Primitive?
    requires var p := StripViews(t).prim; Held(d, p, x) && Carries(d, Coerce.MlPrimOf(p), PrimPrj(p).fname, x, y)
    ensures InjError(t).None? && PrjError(t).None? && !HasNoArgument(t)
    ensures var p := StripViews(t).prim;
            ThereAndBack(m, t, x, w, w1) == m.convert(Primitive(p), m.convert(PrimPrj(p).ret, CInt(y)))
  {
    hide PrimPrj;
    hide PrimInj;
    hide Carries;
    hide Boxes;
    hide PrimShape;
    hide MlShape;
    hide Wrapped;
    hide InShape;
    PrimitivesPass(t);
    var p := StripViews(t).prim;
    SameBox(p);
    InsideStays(PrimShape(d, p).value, x);
    assert m.convert(Primitive(p), CInt(x)) == CInt(x);
    var v := m.run(OCall(PrimInj(p)), [CInt(x)], w).v;
    assert m.run(OCall(PrimPrj(p)), [v], w1).v == CInt(y);
  }

  lemma Bytes()
    ensures Pow2(7) == 128 && Pow2(8) == 256 && Pow2(15) == 32768 && Pow2(16) == 65536
  {
    assert Pow2(4) == 16;
    assert Pow2(8) == 256;
    assert Pow2(12) == 4096;
  }

  // A type at least as wide has all the numbers of the other.
  lemma WiderHasAll(d: DataModel, a: Arith, b: Arith, x: int)
    requires Sane(d) && NoNarrower(a, b) && ShapeOf(d, a).Some? && ShapeOf(d, a).value.bits > 0 && InShape(ShapeOf(d, a).value, x)
    ensures ShapeOf(d, b).Some? && ShapeOf(d, b).value.bits > 0 && InShape(ShapeOf(d, b).value, x)
  {
    var s, u := ShapeOf(d, a).value, ShapeOf(d, b).value;
    PowersGrow(s.bits, u.bits);
    PowersGrow(s.bits - 1, u.bits - 1);
    if !s.signed && u.signed { PowersGrow(s.bits, u.bits - 1); }
  }

  // A number held by both sides is carried from one to the other.
  lemma HeldIsCarried(d: DataModel, p: Prim, x: int)
    requires Sane(d) && Held(d, p, x)
    ensures Carries(d, Coerce.MlPrimOf(p), PrimPrj(p).fname, x, if p.Char? then x % 256 else x)
  {
    hide Pow2;
    hide PrimInj;
    Bytes();
    var acc := PrimPrj(p).fname;
    if p.Schar? || p.Short? || p.Int8T? || p.Int16T? {
      WiderHasAll(d, ArithOf(p), Integer(true, IntRank), x);
    } else if !p.Char? {
      NotIntVal(p);
    }
  }

  lemma NotIntVal(p: Prim)
    requires p != Schar && p != Short && p != Int8T && p != Int16T && p != Char
    ensures PrimPrj(p).fname != "Int_val"
  {
    hide Pow2;
    var name := PrimPrj(p).fname;
    assert |"Int_val"| == 7;
    if |name| == 7 { assert false; }
  }

  lemma CharComesBack(signed: bool, x: int)
    requires InShape(Shape(signed, 8), x)
    ensures Wrapped(Shape(signed, 8), x % 256) == x
  {
    Bytes();
  }

  // Read as an `int`, a byte becomes the `char` it was.
  lemma CharSurvives(m: Machine, d: DataModel, x: int)
    requires Sane(d) && ConvertsAs(m, d) && InShape(Shape(d.charSigned, 8), x)
    ensures m.convert(Primitive(Char), m.convert(Primitive(Int), CInt(x % 256))) == CInt(x)
  {
    Bytes();
    PowersGrow(15, d.int_ - 1);
    hide Pow2;
    InsideStays(Shape(true, d.int_), x % 256);
    CharComesBack(d.charSigned, x);
    assert PrimShape(d, Char) == Some(Shape(d.charSigned, 8)) && PrimShape(d, Int) == Some(Shape(true, d.int_));
  }

  // A conversion by way of a type that has the number keeps it.
  lemma ByWayOf(m: Machine, d: DataModel, p: Prim, q: Prim, x: int)
    requires Sane(d) && ConvertsAs(m, d) && NoNarrower(ArithOf(p), ArithOf(q))
    requires PrimShape(d, p).Some? && PrimShape(d, p).value.bits > 0 && InShape(PrimShape(d, p).value, x)
    ensures m.convert(Primitive(p), m.convert(Primitive(q), CInt(x))) == CInt(x)
  {
    WiderHasAll(d, ArithOf(p), ArithOf(q), x);
    hide Wrapped;
    hide InShape;
    hide ArithOf;
    InsideStays(PrimShape(d, p).value, x);
    InsideStays(PrimShape(d, q).value, x);
  }

  // All primitives but `camlint` are read at a type that has all their numbers.
  lemma OthersSurvive(m: Machine, d: DataModel, t: Typ, x: int, w: World, w1: World)
    requires Sane(d) && ConvertsAs(m, d) && Unboxes(m, d) && StripViews(t).Primitive? && !StripViews(t).prim.Camlint?
    requires Held(d, StripViews(t).prim, x)
    ensures InjError(t).None? && PrjError(t).None? && !HasNoArgument(t) && ThereAndBack(m, t, x, w, w1) == CInt(x)
  {
    var p := StripViews(t).prim;
    var y := if p.Char? then x % 256 else x;
    HeldIsCarried(d, p, x);
    Unfolded(m, d, t, x, y, w, w1);
    ReadWideEnough(p);
    hide ConvertsAs;
    hide Unboxes;
    hide NoNarrower;
    hide ThereAndBack;
    if p.Char? { CharSurvives(m, d, x); } else {
      hide PrimPrj;
      ByWayOf(m, d, p, PrimPrj(p).ret.prim, x);
    }
  }

  // An OCaml `int` that a C `int` has survives as a `camlint`; the first that it has not does not.
  lemma CamlintSurvivesIff(m: Machine, d: DataModel, t: Typ, x: int, w: World, w1: World)
    requires Sane(d) && ConvertsAs(m, d) && Unboxes(m, d) && StripViews(t).Primitive? && StripViews(t).prim.Camlint?
    requires Held(d, Camlint, x)
    ensures InjError(t).None? && PrjError(t).None? && !HasNoArgument(t)
    ensures ThereAndBack(m, t, x, w, w1) == CInt(x) <==> InShape(Shape(true, d.int_), x)
  {
    hide PrimPrj;
    hide PrimInj;
    hide Boxes;
    hide Pow2;
    hide Wrapped;
    hide StripViews;
    hide InjError;
    hide PrjError;
    hide HasNoArgument;
    hide ThereAndBack;
    HeldIsCarried(d, Camlint, x);
    Unfolded(m, d, t, x, x, w, w1);
    hide Unboxes;
    hide Carries;
    CamlintConverted(m, d, x);
    hide ConvertsAs;
    assert PrimShape(d, Camlint) == Some(Shape(true, d.word));
    ThroughInt(Shape(true, d.int_), Shape(true, d.word), x);
  }

  lemma CamlintConverted(m: Machine, d: DataModel, x: int)
    requires Sane(d) && ConvertsAs(m, d)
    ensures m.convert(Primitive(Camlint), m.convert(PrimPrj(Camlint).ret, CInt(x))) ==
            CInt(Wrapped(Shape(true, d.word), Wrapped(Shape(true, d.int_), x)))
  {
    hide PrimPrj;
    hide Wrapped;
    ReadWideEnough(Camlint);
    assert PrimShape(d, Camlint) == Some(Shape(true, d.word)) && PrimShape(d, Int) == Some(Shape(true, d.int_));
    assert m.convert(Primitive(Int), CInt(x)) == CInt(Wrapped(Shape(true, d.int_), x));
  }

  lemma ThroughInt(narrow: Shape, wide: Shape, x: int)
    requires narrow.signed && wide.signed && narrow.bits > 0 && wide.bits > 0 && InShape(wide, x)
    ensures Wrapped(wide, Wrapped(narrow, x)) == x <==> InShape(narrow, x)
  {
    hide Pow2;
    var r := Wrapped(narrow, x);
    hide Wrapped;
    if InShape(narrow, x) {
      InsideStays(narrow, x);
      InsideStays(wide, x);
    } else if narrow.bits <= wide.bits {
      PowersGrow(narrow.bits - 1, wide.bits - 1);
      InsideStays(wide, r);
    } else {
      PowersGrow(wide.bits - 1, narrow.bits - 1);
    }
  }

  // Every number that both sides have comes back as it went.
  ghost predicate NumbersSurvive(m: Machine, d: DataModel, t: Typ)
    requires Sane(d) && StripViews(t).Primitive? && InjError(t).None? && PrjError(t).None?
  {
    forall x: int, w: World, w1: World :: Held(d, StripViews(t).prim, x) ==> ThereAndBack(m, t, x, w, w1) == CInt(x)
  }

  /** Passing numbers between the two sides: through any views, every number that both C's
      and OCaml's type has comes back from OCaml as it went, exactly when the primitive is
      not `camlint` or a C `int` has every OCaml `int`. */
  lemma NumbersSurviveIff(m: Machine, d: DataModel, t: Typ)
    requires Sane(d) && ConvertsAs(m, d) && Unboxes(m, d) && StripViews(t).Primitive?
    ensures InjError(t).None? && PrjError(t).None?
    ensures NumbersSurvive(m, d, t) <==> (StripViews(t).prim == Camlint ==> d.int_ >= d.word - 1)
  {
    hide Unboxes;
    hide ConvertsAs;
    hide ThereAndBack;
    hide Held;
    PrimitivesPass(t);
    if StripViews(t).prim != Camlint {
      hide StripViews;
      forall x: int, w: World, w1: World | Held(d, StripViews(t).prim, x) ensures ThereAndBack(m, t, x, w, w1) == CInt(x) {
        OthersSurvive(m, d, t, x, w, w1);
      }
    } else {
      CamlintsSurviveIff(m, d, t);
    }
  }

  lemma CamlintsSurviveIff(m: Machine, d: DataModel, t: Typ)
    requires Sane(d) && ConvertsAs(m, d) && Unboxes(m, d) && StripViews(t) == Primitive(Camlint)
    ensures InjError(t).None? && PrjError(t).None?
    ensures NumbersSurvive(m, d, t) <==> d.int_ >= d.word - 1
  {
    hide Unboxes;
    hide ConvertsAs;
    hide ThereAndBack;
    hide Held;
    PrimitivesPass(t);
    if d.int_ >= d.word - 1 {
      hide StripViews;
      forall x: int, w: World, w1: World | Held(d, Camlint, x) ensures ThereAndBack(m, t, x, w, w1) == CInt(x) {
        CamlintSurvivesIff(m, d, t, x, w, w1);
        AllOfInt(d, x);
      }
    } else {
      var w := World([], UnitVal, map[], true, 0);
      TooWide(d);
      hide InShape;
      hide Pow2;
      CamlintSurvivesIff(m, d, t, Pow2(d.int_ - 1), w, w);
    }
  }

  lemma AllOfInt(d: DataModel, x: int)
    requires Sane(d) && d.int_ >= d.word - 1 && Held(d, Camlint, x)
    ensures InShape(Shape(true, d.int_), x)
  {
    PowersGrow(d.word - 2, d.int_ - 1);
  }

  lemma TooWide(d: DataModel)
    requires Sane(d) && d.int_ < d.word - 1
    ensures Held(d, Camlint, Pow2(d.int_ - 1)) && !InShape(Shape(true, d.int_), Pow2(d.int_ - 1))
  {
    PowersGrow(d.int_, d.word - 2);
    PowersGrow(d.word - 2, d.word - 1);
    assert Pow2(d.int_) == 2 * Pow2(d.int_ - 1);
  }

  lemma TwoToThe31()
    ensures Wrapped(Shape(true, 32), 0x8000_0000) == -0x8000_0000 && InShape(Shape(true, 64), -0x8000_0000)
  {
    EightMore(8);
    EightMore(16);
    EightMore(24);
    Bytes();
    assert Pow2(32) == 2 * Pow2(31);
    PowersGrow(32, 63);
  }

  lemma EightMore(n: nat)
    ensures Pow2(n + 8) == 256 * Pow2(n)
  {
    assert Pow2(n + 1) == 2 * Pow2(n) && Pow2(n + 2) == 2 * Pow2(n + 1) && Pow2(n + 3) == 2 * Pow2(n + 2);
    assert Pow2(n + 4) == 2 * Pow2(n + 3) && Pow2(n + 5) == 2 * Pow2(n + 4) && Pow2(n + 6) == 2 * Pow2(n + 5);
    assert Pow2(n + 7) == 2 * Pow2(n + 6);
  }

  /** On a machine with 32-bit `int` and 64-bit words, the OCaml `int` 2^31 passed as a
      `camlint` reaches C as -2^31. */
  lemma CamlintExample(m: Machine, d: DataModel)
    requires Sane(d) && d.int_ == 32 && d.word == 64 && ConvertsAs(m, d)
    ensures m.convert(Primitive(Camlint), m.convert(PrimPrj(Camlint).ret, CInt(0x8000_0000))) == CInt(-0x8000_0000)
  {
    hide PrimPrj;
    hide Wrapped;
    ReadWideEnough(Camlint);
    var int_, word := Shape(true, 32), Shape(true, 64);
    assert PrimShape(d, Camlint) == Some(word) && PrimShape(d, Int) == Some(int_);
    assert m.convert(Primitive(Int), CInt(0x8000_0000)) == CInt(Wrapped(int_, 0x8000_0000));
    TwoToThe31();
    InsideStays(word, -0x8000_0000);
  }

  // ---- The functions called, by name ----

  // The function that reads what is not a primitive.
  function ReaderName(t: Typ): string
    requires !t.Primitive?
  {
    match t
    case OCaml(OString) => "CTYPES_PTR_OF_OCAML_STRING"
    case OCaml(OBytes) => "CTYPES_PTR_OF_OCAML_BYTES"
    case OCaml(OFloatArray) => "CTYPES_PTR_OF_FLOAT_ARRAY"
    case _ => "CTYPES_ADDR_OF_FATPTR"
  }

  predicate CallsNamed(e: Event, name: string, args: seq<Val>) { e.op.OCall? && e.op.f.fname == name && e.args == args }

  /** The first thing projecting does is to call the reader of the type behind the views; a
      structure's memory is loaded next, and nothing else is done. */
  lemma ProjectionCalls(m: Machine, t: Typ, v: Val, w: World) returns (added: seq<Event>)
    requires PrjError(t).None? && !HasNoArgument(t)
    ensures Project(m, t, v, w).1.trace == w.trace + added
    ensures var s := StripViews(t);
            && |added| == (if s.Struct? || s.Union? then 2 else 1)
            && CallsNamed(added[0], if s.Primitive? then PrimPrj(s.prim).fname else ReaderName(s), [v])
            && (|added| == 2 ==> added[1].op.ODeref?)
  {
    hide PrimPrj;
    hide InteriorPointer;
    hide ReaderName;
    hide Do;
    hide CallsNamed;
    hide ProjectStructured;
    PrjErrorStrip(t);
    match StripViews(t)
    case Struct(_, _, _) => added := StructureLoads(m, t, v, w); ReadersNamed(StripViews(t));
    case Union(_, _, _) => added := StructureLoads(m, t, v, w); ReadersNamed(StripViews(t));
    case Primitive(p) => added := OneCall(m, PrimPrj(p), v, w);
    case OCaml(k) => added := OneCall(m, InteriorPointer(k), v, w); ReadersNamed(StripViews(t));
    case _ => added := OneCall(m, ADDR_OF_FATPTR, v, w); ReadersNamed(StripViews(t));
  }

  lemma OneCall(m: Machine, f: CFunction, v: Val, w: World) returns (added: seq<Event>)
    ensures Do(m, OCall(f), [v], w).1.trace == w.trace + added && |added| == 1 && CallsNamed(added[0], f.fname, [v])
  {
    added := [Event(OCall(f), [v], w.locked, w.slots, Do(m, OCall(f), [v], w).0)];
  }

  lemma ReadersNamed(s: Typ)
    requires !s.Primitive?
    ensures ReaderName(s) == (if s.OCaml? then InteriorPointer(s.okind) else ADDR_OF_FATPTR).fname
  {
  }

  lemma StructureLoads(m: Machine, t: Typ, v: Val, w: World) returns (added: seq<Event>)
    ensures ProjectStructured(m, t, v, w).1.trace == w.trace + added
    ensures |added| == 2 && CallsNamed(added[0], ADDR_OF_FATPTR.fname, [v]) && added[1].op.ODeref?
  {
    added := OneCall(m, ADDR_OF_FATPTR, v, w);
    var w1 := Do(m, OCall(ADDR_OF_FATPTR), [v], w).1;
    added := added + [ProjectStructured(m, t, v, w).1.trace[|w1.trace|]];
  }

  /** Injecting is one operation: `Val_unit`, the constructor of a primitive, a copy of a
      structure's bytes, as many as it has, or a pointer's wrapping. */
  lemma InjectionCalls(m: Machine, t: Typ, v: Val, w: World)
    requires InjError(t).None?
    ensures var s := StripViews(t); var w1 := Inject(m, t, v, w).1;
            && |w1.trace| == |w.trace| + 1 && w1.trace[..|w.trace|] == w.trace
            && var e := w1.trace[|w.trace|];
            && (s.Void? ==> e.op.OGlobal? && e.op.g.gname == "Val_unit")
            && (s.Primitive? ==> CallsNamed(e, PrimInj(s.prim).fname, [m.convert(s, v)]))
            && (s.Struct? ==> s.spec.Some? && CallsNamed(e, "ctypes_copy_bytes", [AddrOf(v), CInt(s.spec.value.size)]))
            && (s.Union? ==> s.uspec.Some? && CallsNamed(e, "ctypes_copy_bytes", [AddrOf(v), CInt(s.uspec.value.size)]))
            && (s.Pointer? || s.Funptr? ==> CallsNamed(e, "CTYPES_FROM_PTR", [v]))
  {
    hide PrimInj;
    hide PrjError;
    hide Do;
    PrjErrorStrip(t);
    match StripViews(t)
    case Void => OneMore(m, OGlobal(VAL_UNIT), [], w);
    case Primitive(p) => OneMore(m, OCall(PrimInj(p)), [m.convert(Primitive(p), v)], w);
    case Struct(_, spec, _) => OneMore(m, OCall(COPY_BYTES), [AddrOf(v), CInt(spec.value.size)], w);
    case Union(_, spec, _) => OneMore(m, OCall(COPY_BYTES), [AddrOf(v), CInt(spec.value.size)], w);
    case _ => OneMore(m, OCall(FROM_PTR), [v], w);
  }

  lemma OneMore(m: Machine, op: Op, args: seq<Val>, w: World)
    ensures var w1 := Do(m, op, args, w).1;
            && |w1.trace| == |w.trace| + 1 && w1.trace[..|w.trace|] == w.trace
            && w1.trace[|w.trace|].op == op && w1.trace[|w.trace|].args == args
  {
  }

  // The runtime's functions the stubs call besides.
  lemma RuntimeNames()
    ensures ACQUIRE_RUNTIME.fname == "caml_acquire_runtime_system" && RELEASE_RUNTIME.fname == "caml_release_runtime_system"
    ensures PAIR_WITH_ERRNO.fname == "ctypes_pair_with_errno" && ERRNO.gname == "errno"
  {
  }
}

/** Conversions between OCaml values and C values: the primitive tables, `prj` and
    `inj` (src/cstubs/cstubs_c_language.ml:138-232, cstubs_generate_c.ml:59-170). */
module Projections {
  import opened CtypesStatic
  import opened CLanguage
  import opened LetFloat

  function Reader(name: string, ret: Typ): CFunction { CFunction(name, false, true, ret) }
  function Conser(name: string, ret: Typ): CFunction { CFunction(name, true, false, ret) }
  function Immediater(name: string, ret: Typ): CFunction { CFunction(name, false, false, ret) }

  function PrimPrj(p: Prim): (f: CFunction)
    ensures !f.allocates && f.readsHeap && f.ret.Primitive?
  {
    match p
    case Char => Reader("Int_val", Primitive(Int))
    case Schar => Reader("Int_val", Primitive(Int))
    case Uchar => Reader("Uint8_val", Primitive(Uint8T))
    case Bool => Reader("Bool_val", Primitive(Bool))
    case Short => Reader("Int_val", Primitive(Int))
    case Int => Reader("Long_val", Primitive(Int))
    case Long => Reader("ctypes_long_val", Primitive(Long))
    case Llong => Reader("ctypes_llong_val", Primitive(Llong))
    case Ushort => Reader("ctypes_ushort_val", Primitive(Ushort))
    case Sint => Reader("ctypes_sint_val", Primitive(Sint))
    case Uint => Reader("ctypes_uint_val", Primitive(Uint))
    case Ulong => Reader("ctypes_ulong_val", Primitive(Ulong))
    case Ullong => Reader("ctypes_ullong_val", Primitive(Ullong))
    case SizeT => Reader("ctypes_size_t_val", Primitive(SizeT))
    case Int8T => Reader("Int_val", Primitive(Int))
    case Int16T => Reader("Int_val", Primitive(Int))
    case Int32T => Reader("Int32_val", Primitive(Int32T))
    case Int64T => Reader("Int64_val", Primitive(Int64T))
    case Uint8T => Reader("Uint8_val", Primitive(Uint8T))
    case Uint16T => Reader("Uint16_val", Primitive(Uint16T))
    case Uint32T => Reader("Uint32_val", Primitive(Uint32T))
    case Uint64T => Reader("Uint64_val", Primitive(Uint64T))
    case Camlint => Reader("Long_val", Primitive(Int))
    case Nativeint => Reader("Nativeint_val", Primitive(Nativeint))
    case Float => Reader("Double_val", Primitive(Double))
    case Double => Reader("Double_val", Primitive(Double))
    case LDouble => Reader("ctypes_ldouble_val", Primitive(LDouble))
    case Complex32 => Reader("ctypes_float_complex_val", Primitive(Complex32))
    case Complex64 => Reader("ctypes_double_complex_val", Primitive(Complex64))
    case Complexld => Reader("ctypes_ldouble_complex_val", Primitive(Complexld))
  }

  function PrimInj(p: Prim): (f: CFunction)
    ensures f.ret == VALUE && !f.readsHeap
  {
    match p
    case Char => Immediater("Ctypes_val_char", VALUE)
    case Schar => Immediater("Val_int", VALUE)
    case Uchar => Immediater("Integers_val_uint8", VALUE)
    case Bool => Immediater("Val_bool", VALUE)
    case Short => Immediater("Val_int", VALUE)
    case Int => Immediater("Val_long", VALUE)
    case Long => Conser("ctypes_copy_long", VALUE)
    case Llong => Conser("ctypes_copy_llong", VALUE)
    case Ushort => Conser("ctypes_copy_ushort", VALUE)
    case Sint => Conser("ctypes_copy_sint", VALUE)
    case Uint => Conser("ctypes_copy_uint", VALUE)
    case Ulong => Conser("ctypes_copy_ulong", VALUE)
    case Ullong => Conser("ctypes_copy_ullong", VALUE)
    case SizeT => Conser("ctypes_copy_size_t", VALUE)
    case Int8T => Immediater("Val_int", VALUE)
    case Int16T => Immediater("Val_int", VALUE)
    case Int32T => Conser("caml_copy_int32", VALUE)
    case Int64T => Conser("caml_copy_int64", VALUE)
    case Uint8T => Immediater("Integers_val_uint8", VALUE)
    case Uint16T => Immediater("Integers_val_uint16", VALUE)
    case Uint32T => Conser("integers_copy_uint32", VALUE)
    case Uint64T => Conser("integers_copy_uint64", VALUE)
    case Camlint => Immediater("Val_long", VALUE)
    case Nativeint => Conser("caml_copy_nativeint", VALUE)
    case Float => Conser("caml_copy_double", VALUE)
    case Double => Conser("caml_copy_double", VALUE)
    case LDouble => Conser("ctypes_copy_ldouble", VALUE)
    case Complex32 => Conser("ctypes_copy_float_complex", VALUE)
    case Complex64 => Conser("ctypes_copy_double_complex", VALUE)
    case Complexld => Conser("ctypes_copy_ldouble_complex", VALUE)
  }

  const ADDR_OF_FATPTR := Reader("CTYPES_ADDR_OF_FATPTR", Pointer(Void))
  const FROM_PTR := Conser("CTYPES_FROM_PTR", VALUE)
  const COPY_BYTES := CFunction("ctypes_copy_bytes", true, true, VALUE)
  const PAIR_WITH_ERRNO := Conser("ctypes_pair_with_errno", VALUE)
  const VAL_UNIT := CGlobal("Val_unit", true, VALUE)
  const ERRNO := CGlobal("errno", false, Primitive(Sint))

  function InteriorPointer(k: OCamlKind): CFunction {
    match k
    case OString => Reader("CTYPES_PTR_OF_OCAML_STRING", Pointer(Void))
    case OBytes => Reader("CTYPES_PTR_OF_OCAML_BYTES", Pointer(Void))
    case OFloatArray => Reader("CTYPES_PTR_OF_FLOAT_ARRAY", Pointer(Void))
  }

  /** The exception `prj` raises, if it does. */
  function PrjError(t: Typ): Option<Error> {
    match t
    case Abstract(_, _, _) => Some(Unsupported("cstubs does not support passing values of abstract type"))
    case Array(_, _) => Some(Unsupported("cstubs does not support passing arrays"))
    case Bigarray(_, _) => Some(Unsupported("cstubs does not support passing bigarrays"))
    case View(_, ty) => PrjError(ty)
    case _ => None
  }

  /** The exception `inj` raises, if it does. */
  function InjError(t: Typ): Option<Error> {
    match t
    case Abstract(_, _, _) => Some(Unsupported("cstubs does not support passing values of abstract type"))
    case Array(_, _) => Some(Unsupported("cstubs does not support passing arrays"))
    case Bigarray(_, _) => Some(Unsupported("cstubs does not support passing bigarrays"))
    case OCaml(_) => Some(Unsupported("cstubs does not support passing ocaml references as return values"))
    case View(_, ty) => InjError(ty)
    case Struct(_, None, _) => Some(IncompleteType)
    case Union(_, None, _) => Some(IncompleteType)
    case _ => None
  }

  /** `prj ty ~orig x`: code that turns the OCaml value x into a C value; None for a
      type that has no C argument. */
  function Prj(t: Typ, orig: Typ, x: CExp, n: nat): (r: Option<(CComp, nat)>)
    requires PrjError(t).None?
    ensures r.Some? ==> !EndsInReturn(r.value.0) && n <= r.value.1
  {
    match t
    case Void => None
    case Primitive(p) =>
      Some(Bind(Eff(App(PrimPrj(p), [x])), PrimPrj(p).ret, (y: CExp, j: nat) => (Eff(Exp(Cast(Primitive(p), y))), j), n))
    case Pointer(_) => Some((Eff(App(ADDR_OF_FATPTR, [x])), n))
    case Funptr(_) => Some((Eff(App(ADDR_OF_FATPTR, [x])), n))
    case Struct(_, _, _) =>
      Some(Bind(Eff(App(ADDR_OF_FATPTR, [x])), Pointer(Void), (y: CExp, j: nat) => (Eff(Deref(Cast(Pointer(orig), y))), j), n))
    case Union(_, _, _) =>
      Some(Bind(Eff(App(ADDR_OF_FATPTR, [x])), Pointer(Void), (y: CExp, j: nat) => (Eff(Deref(Cast(Pointer(orig), y))), j), n))
    case View(_, ty) => Prj(ty, orig, x, n)
    case OCaml(k) => Some((Eff(App(InteriorPointer(k), [x])), n))
  }

  /** `inj ty x`: code that turns the C local x into an OCaml value. */
  function Inj(t: Typ, x: Name, xt: Typ): (r: CEff)
    requires InjError(t).None?
    ensures !r.Exp? && TypeOfEff(r) == VALUE
  {
    match t
    case Void => Global(VAL_UNIT)
    case Primitive(p) => App(PrimInj(p), [Cast(Primitive(p), Local(x, xt))])
    case Pointer(_) => App(FROM_PTR, [Local(x, xt)])
    case Funptr(_) => App(FROM_PTR, [Local(x, xt)])
    case Struct(_, spec, _) => App(COPY_BYTES, [AddrLocal(x, xt), IntConst(spec.value.size)])
    case Union(_, uspec, _) => App(COPY_BYTES, [AddrLocal(x, xt), IntConst(uspec.value.size)])
    case View(_, ty) => Inj(ty, x, xt)
  }

  predicate HasNoArgument(t: Typ) { StripViews(t).Void? }

  // ---- Reference meanings, on values ----

  /** What projecting an OCaml value of type t means: the C value passed on. */
  function Project(m: Machine, t: Typ, v: Val, w: World): (Val, World)
    requires PrjError(t).None? && !HasNoArgument(t)
  {
    match StripViews(t)
    case Primitive(p) =>
      var (r, w1) := Do(m, OCall(PrimPrj(p)), [v], w);
      (m.convert(Primitive(p), m.convert(PrimPrj(p).ret, r)), w1)
    case Struct(_, _, _) => ProjectStructured(m, t, v, w)
    case Union(_, _, _) => ProjectStructured(m, t, v, w)
    case OCaml(k) => var (r, w1) := Do(m, OCall(InteriorPointer(k)), [v], w); (m.convert(t, r), w1)
    case _ => var (r, w1) := Do(m, OCall(ADDR_OF_FATPTR), [v], w); (m.convert(t, r), w1)
  }

  // The structure itself is passed: its address is read, then the memory there.
  function ProjectStructured(m: Machine, t: Typ, v: Val, w: World): (Val, World) {
    var (r, w1) := Do(m, OCall(ADDR_OF_FATPTR), [v], w);
    var (d, w2) := Do(m, ODeref, [m.convert(Pointer(t), m.convert(Pointer(Void), r))], w1);
    (m.convert(t, d), w2)
  }

  /** What injecting a C value of type t means: the OCaml value built. */
  function Inject(m: Machine, t: Typ, v: Val, w: World): (Val, World)
    requires InjError(t).None?
  {
    match StripViews(t)
    case Void => Do(m, OGlobal(VAL_UNIT), [], w)
    case Primitive(p) => Do(m, OCall(PrimInj(p)), [m.convert(Primitive(p), v)], w)
    case Struct(_, spec, _) => InjectStructured(m, spec, v, w)
    case Union(_, spec, _) => InjectStructured(m, spec, v, w)
    case _ => Do(m, OCall(FROM_PTR), [v], w)
  }

  function InjectStructured(m: Machine, spec: Option<Spec>, v: Val, w: World): (Val, World) {
    if spec.None? then (Stuck, w)
    else Do(m, OCall(COPY_BYTES), [AddrOf(v), CInt(spec.value.size)], w)
  }

  lemma {:induction false} PrjErrorStrip(t: Typ)
    ensures PrjError(t) == PrjError(StripViews(t)) && InjError(t) == InjError(StripViews(t))
  {
    match t case View(_, ty) => PrjErrorStrip(ty); case _ =>
  }

  lemma CallOne(m: Machine, f: CFunction, e: CExp, env: Env, w: World)
    ensures EvalEff(m, App(f, [e]), env, w) == Do(m, OCall(f), [EvalExp(m, e, env)], w)
  {
    assert EvalExps(m, [e], env) == [EvalExp(m, e, env)];
  }

  lemma CopyBytesMeaning(m: Machine, x: Name, xt: Typ, spec: Option<Spec>, env: Env, w: World)
    requires spec.Some?
    ensures EvalEff(m, App(COPY_BYTES, [AddrLocal(x, xt), IntConst(spec.value.size)]), env, w) ==
            InjectStructured(m, spec, Lookup(env, x), w)
  {
    assert EvalExps(m, [AddrLocal(x, xt), IntConst(spec.value.size)], env) == [AddrOf(Lookup(env, x)), CInt(spec.value.size)];
  }

  lemma CastCall(m: Machine, f: CFunction, p: Prim, x: Name, xt: Typ, env: Env, w: World)
    ensures EvalEff(m, App(f, [Cast(Primitive(p), Local(x, xt))]), env, w) ==
            Do(m, OCall(f), [m.convert(Primitive(p), Lookup(env, x))], w)
  {
    assert EvalExp(m, Local(x, xt), env) == Lookup(env, x);
    CallOne(m, f, Cast(Primitive(p), Local(x, xt)), env, w);
  }

  lemma UnitMeaning(m: Machine, env: Env, w: World)
    ensures EvalEff(m, Global(VAL_UNIT), env, w) == Do(m, OGlobal(VAL_UNIT), [], w)
  {
    assert |VAL_UNIT.gname| != |"errno"|;
  }

  lemma CallLocal(m: Machine, f: CFunction, x: Name, xt: Typ, env: Env, w: World)
    ensures EvalEff(m, App(f, [Local(x, xt)]), env, w) == Do(m, OCall(f), [Lookup(env, x)], w)
  {
    CallOne(m, f, Local(x, xt), env, w);
  }

  lemma {:induction false} InjMeaning(m: Machine, t: Typ, x: Name, xt: Typ, env: Env, w: World)
    requires InjError(t).None?
    ensures EvalEff(m, Inj(t, x, xt), env, w) == Inject(m, t, Lookup(env, x), w)
  {
    hide PrimInj;
    hide InjectStructured;
    hide Do;
    hide Lookup;
    hide EvalEff;
    hide EvalExp;
    match t
    case View(_, ty) => InjMeaning(m, ty, x, xt, env, w);
    case Primitive(p) =>
      CastCall(m, PrimInj(p), p, x, xt, env, w);
    case Struct(_, spec, _) => CopyBytesMeaning(m, x, xt, spec, env, w);
    case Union(_, spec, _) => CopyBytesMeaning(m, x, xt, spec, env, w);
    case Void => UnitMeaning(m, env, w);
    case _ => CallLocal(m, FROM_PTR, x, xt, env, w);
  }

  lemma DerefMeaning(m: Machine, t: Typ, x: CExp, n: nat, env: Env, w: World)
    ensures var (c, n1) := Bind(Eff(App(ADDR_OF_FATPTR, [x])), Pointer(Void),
                                (y: CExp, j: nat) => (Eff(Deref(Cast(Pointer(t), y))), j), n);
            var (r, j) := Tail(c, t, n1); var (env1, w1) := After(m, c, t, n1, env, w);
            && j == n + 3 && r == Local(Fresh(n + 3), t) && ExpBelow(r, j)
            && (Lookup(env1, Fresh(n + 3)), w1) == ProjectStructured(m, t, EvalExp(m, x, env), w)
            && forall y: Name {:trigger Lookup(env1, y)} :: (y.Fresh? ==> y.n <= n) ==> Lookup(env1, y) == Lookup(env, y)
  {
    hide Do;
    var v := EvalExp(m, x, env);
    assert EvalExps(m, [x], env) == [v];
    var (r, w1) := Do(m, OCall(ADDR_OF_FATPTR), [v], w);
    var y := Local(Fresh(n + 1), Pointer(Void));
    var env1 := env[Fresh(n + 1) := m.convert(Pointer(Void), r)];
    assert EvalExp(m, y, env1) == m.convert(Pointer(Void), r);
    var c := Let(Fresh(n + 1), Pointer(Void), App(ADDR_OF_FATPTR, [x]), Eff(Deref(Cast(Pointer(t), y))));
    assert Bind(Eff(App(ADDR_OF_FATPTR, [x])), Pointer(Void),
                (y: CExp, j: nat) => (Eff(Deref(Cast(Pointer(t), y))), j), n) == (c, n + 1);
    assert TypeOfComp(c) == t;
    assert After(m, c, t, n + 1, env, w) == After(m, Eff(Deref(Cast(Pointer(t), y))), t, n + 2, env1, w1);
  }

  lemma CastMeaning(m: Machine, f: CFunction, p: Prim, t: Typ, x: CExp, n: nat, env: Env, w: World)
    ensures var (c, n1) := Bind(Eff(App(f, [x])), f.ret, (y: CExp, j: nat) => (Eff(Exp(Cast(Primitive(p), y))), j), n);
            var (r, j) := Tail(c, t, n1); var (env1, w1) := After(m, c, t, n1, env, w);
            var (v, w2) := Do(m, OCall(f), [EvalExp(m, x, env)], w);
            && j > n && ExpBelow(r, j)
            && EvalExp(m, r, env1) == m.convert(Primitive(p), m.convert(f.ret, v)) && w1 == w2
            && forall y: Name {:trigger Lookup(env1, y)} :: (y.Fresh? ==> y.n <= n) ==> Lookup(env1, y) == Lookup(env, y)
  {
    CallOne(m, f, x, env, w);
    var (v, w1) := Do(m, OCall(f), [EvalExp(m, x, env)], w);
    var y := Local(Fresh(n + 1), f.ret);
    var env1 := env[Fresh(n + 1) := m.convert(f.ret, v)];
    assert EvalExp(m, y, env1) == m.convert(f.ret, v);
    assert ExpBelow(y, n + 2);
    var c := Let(Fresh(n + 1), f.ret, App(f, [x]), Eff(Exp(Cast(Primitive(p), y))));
    assert Bind(Eff(App(f, [x])), f.ret, (y: CExp, j: nat) => (Eff(Exp(Cast(Primitive(p), y))), j), n) == (c, n + 1);
    assert After(m, c, t, n + 1, env, w) == After(m, Eff(Exp(Cast(Primitive(p), y))), TypeOfComp(c), n + 2, env1, w1);
  }

  /** Binding a projection (`(projected, t) >>= k`) hands over an expression for the
      projected value, after exactly the projection's operations. */
  lemma {:induction false} PrjMeaning(m: Machine, t: Typ, orig: Typ, x: CExp, n: nat, env: Env, w: World)
    requires PrjError(t).None? && !HasNoArgument(t) && StripViews(orig) == StripViews(t)
    requires ExpBelow(x, n)
    ensures PrjError(orig).None? && !HasNoArgument(orig)
    ensures Prj(t, orig, x, n).Some?
    ensures var (c, n1) := Prj(t, orig, x, n).value;
            var (r, j) := Tail(c, orig, n1); var (env1, w1) := After(m, c, orig, n1, env, w);
            && j > n && ExpBelow(r, j)
            && (EvalExp(m, r, env1), w1) == Project(m, orig, EvalExp(m, x, env), w)
            && forall y: Name {:trigger Lookup(env1, y)} :: (y.Fresh? ==> y.n <= n) ==> Lookup(env1, y) == Lookup(env, y)
  {
    hide PrimPrj;
    hide InteriorPointer;
    hide ProjectStructured;
    hide Do;
    hide Bind;
    hide Tail;
    hide After;
    PrjErrorStrip(t);
    PrjErrorStrip(orig);
    match t
    case View(_, ty) => PrjMeaning(m, ty, orig, x, n, env, w);
    case Primitive(p) =>
      CastMeaning(m, PrimPrj(p), p, orig, x, n, env, w);
    case Struct(_, _, _) => DerefMeaning(m, orig, x, n, env, w);
    case Union(_, _, _) => DerefMeaning(m, orig, x, n, env, w);
    case OCaml(k) => ReadMeaning(m, InteriorPointer(k), orig, x, n, env, w);
    case _ => ReadMeaning(m, ADDR_OF_FATPTR, orig, x, n, env, w);
  }

  lemma ReadMeaning(m: Machine, f: CFunction, t: Typ, x: CExp, n: nat, env: Env, w: World)
    ensures var c := Eff(App(f, [x]));
            var (r, j) := Tail(c, t, n); var (env1, w1) := After(m, c, t, n, env, w);
            var (v, w2) := Do(m, OCall(f), [EvalExp(m, x, env)], w);
            && j > n && ExpBelow(r, j)
            && EvalExp(m, r, env1) == m.convert(t, v) && w1 == w2
            && forall y: Name {:trigger Lookup(env1, y)} :: (y.Fresh? ==> y.n <= n) ==> Lookup(env1, y) == Lookup(env, y)
  {
    hide Do;
    CallOne(m, f, x, env, w);
  }

  lemma {:induction false} NothingToProject(t: Typ, orig: Typ, x: CExp, n: nat)
    requires PrjError(t).None?
    ensures Prj(t, orig, x, n).None? <==> HasNoArgument(t)
  {
    match t case View(_, ty) => NothingToProject(ty, orig, x, n); case _ =>
  }
}

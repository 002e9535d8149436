/** The OCaml externals behind generated wrappers: their types (`ml_external_type_of_fn`,
    src/cstubs/cstubs_generate_ml.ml:218-330, src/cbuf/cbuf_generate_ml.ml:221-335) and the
    C functions they name, against what the C files define
    (cstubs_generate_c.ml:252-265, 344-352, 498-534). */
module Externals {
  import opened CtypesStatic
  import opened CLanguage
  import opened Projections
  import opened CStub
  import opened CbufStub
  import opened Coerce
  import ByteStub
  import LwtJob
  import EndToEnd
  import MLWrapper

  datatype MlType = Ident(path: string) | Appl(con: string, args: seq<MlType>) | Pair(fst: MlType, snd: MlType)

  datatype External = Prim(args: seq<MlType>, result: MlType)

  datatype Polarity = In | Out

  // `ident_of_ml_prim` (src/cstubs/cstubs_public_name.ml:12-36).
  function PrimPath(p: MlPrim): string {
    match p
    case MlChar => "char"
    case MlBool => "bool"
    case MlComplex => "Complex.t"
    case MlFloat => "float"
    case MlInt => "int"
    case MlInt32 => "int32"
    case MlInt64 => "int64"
    case MlLlong => "Signed.llong"
    case MlLong => "Signed.long"
    case MlSint => "Signed.sint"
    case MlNativeint => "nativeint"
    case MlSizeT => "Unsigned.size_t"
    case MlUchar => "Unsigned.uchar"
    case MlUint => "Unsigned.uint"
    case MlUint16 => "Unsigned.uint16"
    case MlUint32 => "Unsigned.uint32"
    case MlUint64 => "Unsigned.uint64"
    case MlUint8 => "Unsigned.uint8"
    case MlUllong => "Unsigned.ullong"
    case MlUlong => "Unsigned.ulong"
    case MlUshort => "Unsigned.ushort"
    case MlLDouble => "LDouble.t"
    case MlComplexld => "ComplexL.t"
  }

  /** The type an integer has in the external names the function that builds it in C, and,
      for those of ctypes itself, the one that reads it. */
  lemma RuntimeIntegerNames(p: Prim)
    requires p in {Int32T, Int64T, Nativeint}
    ensures PrimInj(p).fname == "caml_copy_" + PrimPath(MlPrimOf(p))
  {
  }

  lemma SignedIntegerNames(p: Prim)
    requires p in {Long, Llong, Sint}
    ensures var path := PrimPath(MlPrimOf(p));
            |path| > 7 && path == "Signed." + path[7..] && PrimInj(p).fname == "ctypes_copy_" + path[7..]
  {
  }

  lemma UnsignedIntegerNames(p: Prim)
    requires p in {Ushort, Uint, Ulong, Ullong, SizeT}
    ensures var path := PrimPath(MlPrimOf(p));
            |path| > 9 && path == "Unsigned." + path[9..] && PrimInj(p).fname == "ctypes_copy_" + path[9..]
  {
  }

  // The types that are OCaml's own, or kept in modules of their own.
  lemma OtherNames(p: Prim)
    ensures p == Char ==> PrimPath(MlPrimOf(p)) == "char"
    ensures p == Bool ==> PrimPath(MlPrimOf(p)) == "bool"
    ensures p == Uchar ==> PrimPath(MlPrimOf(p)) == "Unsigned.uchar"
    ensures p in {Schar, Short, Int, Int8T, Int16T, Camlint} ==> PrimPath(MlPrimOf(p)) == "int"
    ensures p in {Float, Double} ==> PrimPath(MlPrimOf(p)) == "float"
    ensures p == LDouble ==> PrimPath(MlPrimOf(p)) == "LDouble.t"
    ensures p in {Complex32, Complex64} ==> PrimPath(MlPrimOf(p)) == "Complex.t"
    ensures p == Complexld ==> PrimPath(MlPrimOf(p)) == "ComplexL.t"
  {
  }

  lemma ExactIntegerNames(p: Prim)
    requires p in {Uint8T, Uint16T, Uint32T, Uint64T}
    ensures var path := PrimPath(MlPrimOf(p));
            && |path| > 9 && path == "Unsigned." + path[9..]
            && PrimInj(p).fname == (if p in {Uint8T, Uint16T} then "Integers_val_" else "integers_copy_") + path[9..]
  {
  }

  const UNIT := Ident("unit")
  const MANAGED_BUFFER := Ident("CI.managed_buffer")
  const VOIDP := Ident("CI.voidp")
  const FATPTR := Appl("CI.fatptr", [Ident("_")])
  const FATFUNPTR := Appl("CI.fatfunptr", [Ident("_")])
  const INT_TYPE := Ident("Signed.sint")

  function OCamlType(k: OCamlKind): MlType {
    match k
    case OString => Ident("string")
    case OBytes => Ident("bytes")
    case OFloatArray => Appl("array", [Ident("float")])
  }

  /** `ml_typ_of_return_typ`. */
  function ReturnTypeOf(t: Typ): Result<MlType> {
    match t
    case Void => Ok(UNIT)
    case Primitive(p) => Ok(Ident(PrimPath(MlPrimOf(p))))
    case Struct(_, _, _) => Ok(MANAGED_BUFFER)
    case Union(_, _, _) => Ok(MANAGED_BUFFER)
    case Abstract(_, _, _) => Ok(MANAGED_BUFFER)
    case Pointer(_) => Ok(VOIDP)
    case Funptr(_) => Ok(VOIDP)
    case View(_, ty) => ReturnTypeOf(ty)
    case Array(_, _) => Raises(InternalError("Unexpected array type in the return type"))
    case Bigarray(_, _) => Raises(InternalError("Unexpected bigarray type in the return type"))
    case OCaml(OString) => Raises(Unsupported("cstubs does not support OCaml strings as return values"))
    case OCaml(OBytes) => Raises(Unsupported("cstubs does not support OCaml bytes values as return values"))
    case OCaml(OFloatArray) => Raises(Unsupported("cstubs does not support OCaml float arrays as return values"))
  }

  /** `ml_typ_of_arg_typ`. */
  function ArgTypeOf(t: Typ): Result<MlType> {
    match t
    case Void => Ok(UNIT)
    case Primitive(p) => Ok(Ident(PrimPath(MlPrimOf(p))))
    case Pointer(_) => Ok(FATPTR)
    case Funptr(_) => Ok(FATFUNPTR)
    case Struct(_, _, _) => Ok(FATPTR)
    case Union(_, _, _) => Ok(FATPTR)
    case Abstract(_, _, _) => Ok(FATPTR)
    case View(_, ty) => ArgTypeOf(ty)
    case Array(_, _) => Raises(InternalError("Unexpected array in an argument type"))
    case Bigarray(_, _) => Raises(InternalError("Unexpected bigarray in an argument type"))
    case OCaml(k) => Ok(Appl("CI.ocaml", [OCamlType(k)]))
  }

  function Flip(p: Polarity): Polarity { match p case In => Out case Out => In }

  function TypeAt(p: Polarity, t: Typ): Result<MlType> { match p case In => ArgTypeOf(t) case Out => ReturnTypeOf(t) }

  // What the policies make of a result type.
  function Wrap(c: Concurrency, errno: ErrnoPolicy, t: MlType): MlType {
    match (c, errno)
    case (LwtJobs, IgnoreErrno) => Appl("Lwt_unix.job", [t])
    case (LwtJobs, ReturnErrno) => Appl("Lwt_unix.job", [Pair(t, INT_TYPE)])
    case (_, IgnoreErrno) => t
    case (_, ReturnErrno) => Pair(t, INT_TYPE)
  }

  /** `ml_external_type_of_fn`; the rest of the description is converted before its first
      parameter. */
  function ExternalType(c: Concurrency, errno: ErrnoPolicy, f: Fn, p: Polarity): Result<External> {
    match f
    case Returns(t) =>
      (match TypeAt(p, t) case Raises(e) => Raises(e) case Ok(r) => Ok(Prim([], Wrap(c, errno, r))))
    case Function(t, rest) =>
      match ExternalType(c, errno, rest, p)
      case Raises(e) => Raises(e)
      case Ok(x) => AddArgument(Flip(p), t, x)
  }

  function AddArgument(p: Polarity, t: Typ, x: External): Result<External> {
    match TypeAt(p, t) case Raises(e) => Raises(e) case Ok(a) => Ok(Prim([a] + x.args, x.result))
  }

  const MAX_BYTE_ARGS := 5

  /** `byte_stub_name`. */
  function ByteStubName(name: string, x: External): Option<string> {
    if |x.args| > MAX_BYTE_ARGS then Some(name + "_byte" + ByteStub.Decimal(|x.args|)) else None
  }

  // The C functions an external names: the native stub, and the byte stub if there is one.
  function Primitives(name: string, x: External): seq<string> {
    match ByteStubName(name, x) case None => [name] case Some(b) => [name, b]
  }

  function NamesOf(ds: seq<CFundef>): (r: seq<string>)
    ensures |r| == |ds| && forall i :: 0 <= i < |ds| ==> r[i] == ds[i].name
  {
    seq(|ds|, i requires 0 <= i < |ds| => ds[i].name)
  }

  // ---- What the types say ----

  predicate ArrayLike(t: Typ) { StripViews(t).Array? || StripViews(t).Bigarray? }

  /** An argument is `unit` exactly when the C function has no argument for it, and an
      OCaml reference exactly when it lies in OCaml memory, through any views; arrays and
      bigarrays are what raises. */
  lemma {:induction false} ArgTypeSays(t: Typ)
    ensures ArgTypeOf(t).Ok? <==> !ArrayLike(t)
    ensures ArgTypeOf(t) == Ok(UNIT) <==> HasNoArgument(t)
    ensures ArgTypeOf(t).Ok? && ArgTypeOf(t).value.Appl? && ArgTypeOf(t).value.con == "CI.ocaml" <==> OCamlValue(t)
  {
    match t
    case View(_, ty) => ArgTypeSays(ty);
    case Primitive(p) => PrimIsNotUnit(MlPrimOf(p));
    case Pointer(_) => assert |"CI.fatptr"| != |"CI.ocaml"|;
    case Struct(_, _, _) => assert |"CI.fatptr"| != |"CI.ocaml"|;
    case Union(_, _, _) => assert |"CI.fatptr"| != |"CI.ocaml"|;
    case Abstract(_, _, _) => assert |"CI.fatptr"| != |"CI.ocaml"|;
    case Funptr(_) => assert |"CI.fatfunptr"| != |"CI.ocaml"|;
    case _ =>
  }

  lemma PrimIsNotUnit(p: MlPrim)
    ensures PrimPath(p) != "unit"
  {
    if p.MlChar? { assert "char"[0] != "unit"[0]; }
    if p.MlBool? { assert "bool"[0] != "unit"[0]; }
  }

  lemma {:induction false} ReturnTypeSays(t: Typ)
    ensures ReturnTypeOf(t).Ok? <==> !ArrayLike(t) && !OCamlValue(t)
  {
    match t case View(_, ty) => ReturnTypeSays(ty); case OCaml(k) => match k { case OString => case OBytes => case OFloatArray => } case _ =>
  }

  /** Which type each argument has, by what it is behind views: fat pointers for what C gets
      by address or from an address, the OCaml object itself for a reference. */
  lemma {:induction false} ArgTypeIs(t: Typ)
    ensures var s := StripViews(t);
            && (s.Pointer? || s.Struct? || s.Union? || s.Abstract? ==> ArgTypeOf(t) == Ok(Appl("CI.fatptr", [Ident("_")])))
            && (s.Funptr? ==> ArgTypeOf(t) == Ok(Appl("CI.fatfunptr", [Ident("_")])))
            && (s == OCaml(OString) ==> ArgTypeOf(t) == Ok(Appl("CI.ocaml", [Ident("string")])))
            && (s == OCaml(OBytes) ==> ArgTypeOf(t) == Ok(Appl("CI.ocaml", [Ident("bytes")])))
            && (s == OCaml(OFloatArray) ==> ArgTypeOf(t) == Ok(Appl("CI.ocaml", [Appl("array", [Ident("float")])])))
            && (s.Primitive? ==> ArgTypeOf(t) == Ok(Ident(PrimPath(MlPrimOf(s.prim)))))
  {
    hide PrimPath;
    match t case View(_, ty) => ArgTypeIs(ty); case _ =>
  }

  /** And each result: raw addresses, and managed memory for structures. */
  lemma {:induction false} ReturnTypeIs(t: Typ)
    ensures var s := StripViews(t);
            && (s.Void? ==> ReturnTypeOf(t) == Ok(Ident("unit")))
            && (s.Struct? || s.Union? || s.Abstract? ==> ReturnTypeOf(t) == Ok(Ident("CI.managed_buffer")))
            && (s.Pointer? || s.Funptr? ==> ReturnTypeOf(t) == Ok(Ident("CI.voidp")))
            && (s.Primitive? ==> ReturnTypeOf(t) == Ok(Ident(PrimPath(MlPrimOf(s.prim)))))
  {
    hide PrimPath;
    match t case View(_, ty) => ReturnTypeIs(ty); case _ =>
  }

  // What the wrapper generator accepts.
  lemma {:induction false} WrappableTypes(t: Typ)
    ensures MLWrapper.PatError(t, MLWrapper.In).None? <==> !ArrayLike(t) && !StripViews(t).Abstract?
    ensures MLWrapper.PatError(t, MLWrapper.Out).None? <==> !ArrayLike(t) && !OCamlValue(t) && !StripViews(t).Abstract?
  {
    match t
    case View(_, ty) => WrappableTypes(ty);
    case OCaml(k) => NoReferenceResults(k);
    case _ => hide OCamlValue;
  }

  lemma NoReferenceResults(k: OCamlKind)
    ensures MLWrapper.PatError(OCaml(k), MLWrapper.In).None? && MLWrapper.PatError(OCaml(k), MLWrapper.Out).Some?
  {
    match k case OString => case OBytes => case OFloatArray =>
  }

  /** The wrapper generator accepts the arguments and results the external's types are given
      for, but for abstract types. */
  lemma WrappedTypesIff(t: Typ)
    ensures MLWrapper.PatError(t, MLWrapper.In).None? <==> ArgTypeOf(t).Ok? && !StripViews(t).Abstract?
    ensures MLWrapper.PatError(t, MLWrapper.Out).None? <==> ReturnTypeOf(t).Ok? && !StripViews(t).Abstract?
  {
    hide MLWrapper.PatError;
    hide ArgTypeOf;
    hide ReturnTypeOf;
    hide ArrayLike;
    hide OCamlValue;
    WrappableTypes(t);
    ArgTypeSays(t);
    ReturnTypeSays(t);
  }

  // A result as the policies have it.
  lemma WrapIs(c: Concurrency, errno: ErrnoPolicy, t: MlType)
    ensures var paired := if errno.ReturnErrno? then Pair(t, Ident("Signed.sint")) else t;
            Wrap(c, errno, t) == if c.LwtJobs? then Appl("Lwt_unix.job", [paired]) else paired
  {
  }

  predicate AllPassable(ts: seq<Typ>) { forall t :: t in ts ==> !ArrayLike(t) }

  /** The external has one argument for each parameter, of that parameter's type, in order,
      and a result wrapped as the policies say; it raises exactly when a parameter is an
      array or bigarray or the result is one or lies in OCaml memory. */
  lemma {:induction false} ExternalShape(c: Concurrency, errno: ErrnoPolicy, f: Fn)
    ensures ExternalType(c, errno, f, Out).Ok? <==> AllPassable(Params(f)) && ReturnTypeOf(ReturnType(f)).Ok?
    ensures ExternalType(c, errno, f, Out).Ok? ==>
              var x := ExternalType(c, errno, f, Out).value;
              && |x.args| == |Params(f)| && (forall i :: 0 <= i < |x.args| ==> ArgTypeOf(Params(f)[i]) == Ok(x.args[i]))
              && x.result == Wrap(c, errno, ReturnTypeOf(ReturnType(f)).value)
              && var ret := ReturnTypeOf(ReturnType(f)).value;
              var paired := if errno.ReturnErrno? then Pair(ret, Ident("Signed.sint")) else ret;
              x.result == if c.LwtJobs? then Appl("Lwt_unix.job", [paired]) else paired
    decreases f
  {
    if ReturnTypeOf(ReturnType(f)).Ok? { WrapIs(c, errno, ReturnTypeOf(ReturnType(f)).value); }
    hide ArrayLike;
    hide ReturnTypeOf;
    hide ArgTypeOf;
    hide Wrap;
    match f
    case Returns(_) =>
    case Function(t, rest) =>
      ExternalShape(c, errno, rest);
      ArgTypeSays(t);
      assert forall u :: u in Params(f) <==> u == t || u in Params(rest);
  }

  /** What the C side refuses besides: abstract types either way, incomplete structures
      and unions as results. */
  lemma {:induction false} ProjectableIff(t: Typ)
    ensures PrjError(t).None? <==> ArgTypeOf(t).Ok? && !StripViews(t).Abstract?
  {
    match t case View(_, ty) => ProjectableIff(ty); case _ =>
  }

  predicate Incomplete(t: Typ) { (t.Struct? && t.spec.None?) || (t.Union? && t.uspec.None?) }

  lemma {:induction false} InjectableIff(t: Typ)
    ensures InjError(t).None? <==> ReturnTypeOf(t).Ok? && !StripViews(t).Abstract? && !Incomplete(StripViews(t))
  {
    match t case View(_, ty) => InjectableIff(ty); case OCaml(k) => ReturnTypeSays(t); case _ =>
  }

  /** Both files are generated from one description: the C file exactly when the OCaml file
      is, nothing abstract is passed or returned and no incomplete structure returned. */
  lemma BothGeneratedIff(c: Concurrency, errno: ErrnoPolicy, f: Fn)
    ensures FirstError(Params(f), ReturnType(f)).None? <==>
            && ExternalType(c, errno, f, Out).Ok?
            && (forall t :: t in Params(f) ==> !StripViews(t).Abstract?)
            && !StripViews(ReturnType(f)).Abstract? && !Incomplete(StripViews(ReturnType(f)))
  {
    hide ExternalType;
    hide FirstError;
    hide PrjError;
    hide InjError;
    hide StripViews;
    hide ArgTypeOf;
    hide ReturnTypeOf;
    hide Incomplete;
    hide ArrayLike;
    NoErrorMeans(Params(f), ReturnType(f));
    ExternalShape(c, errno, f);
    InjectableIff(ReturnType(f));
    forall t | t in Params(f) ensures PrjError(t).None? <==> !ArrayLike(t) && !StripViews(t).Abstract? {
      ProjectableIff(t);
      ArgTypeSays(t);
    }
  }

  // ---- The two files name the same functions ----

  // Where pairing with errno builds pairs, so does the stub.
  ghost predicate RepliesPairs(d: CFundef) {
    forall m: Machine, args: seq<Val>, w: World {:trigger RunBody(m, d, args, w)} ::
      |args| == |d.params| && KeepsValues(m) && EndToEnd.Pairs(m) ==>
        var v := RunBody(m, d, args, w).0; v.Tuple? && |v.elems| == 2
  }

  lemma DispatchedPairs(c: Concurrency, cname: string, stubName: string, f: Fn, n: nat)
    requires !c.LwtJobs? && Dispatch(c, ReturnErrno, cname, stubName, f, n).Ok?
    ensures RepliesPairs(Dispatch(c, ReturnErrno, cname, stubName, f, n).value)
  {
    hide Dispatch;
    hide RunBody;
    hide StubSpec;
    hide NoErrors;
    hide KeepsValues;
    hide EndToEnd.Pairs;
    EndToEnd.DispatchedParams(c, ReturnErrno, cname, stubName, f, n);
    var d := Dispatch(c, ReturnErrno, cname, stubName, f, n).value;
    forall m: Machine, args: seq<Val>, w: World | |args| == |d.params| && KeepsValues(m) && EndToEnd.Pairs(m)
      ensures var v := RunBody(m, d, args, w).0; v.Tuple? && |v.elems| == 2
    {
      StubRefinesSpec(m, c, ReturnErrno, cname, stubName, f, n, args, w);
      EndToEnd.RepliesPaired(m, Config(cname, !c.Sequential?, ReturnErrno), Params(f), ReturnType(f), args, w);
    }
  }

  // Before the policies wrap it, no result type is a pair.
  lemma {:induction false} PlainResult(t: Typ)
    ensures ReturnTypeOf(t).Ok? ==> !ReturnTypeOf(t).value.Pair?
  {
    match t case View(_, ty) => PlainResult(ty); case OCaml(k) => match k { case OString => case OBytes => case OFloatArray => } case _ =>
  }

  // A stub with as many parameters as its external has arguments.
  lemma SameFunctions(d: CFundef, n: nat, x: External)
    requires |d.params| == |x.args|
    ensures NamesOf(ByteStub.Emitted(d, n)) == Primitives(d.name, x)
    ensures Primitives(d.name, x) == if |x.args| > 5 then [d.name, d.name + "_byte" + ByteStub.Decimal(|x.args|)] else [d.name]
  {
    hide ByteStub.Decimal;
    hide ByteStub.ByteStubFor;
  }

  /** Outside Lwt jobs: whenever the C file is generated, so is the external; the stub takes
      as many arguments as the external has, replies with a pair when the external's result
      is one, which it is exactly when errno is returned, and the functions defined in C,
      byte stub included, are those the external names. */
  lemma ExternalMatchesStub(c: Concurrency, errno: ErrnoPolicy, cname: string, stubName: string, f: Fn, n: nat)
    requires !c.LwtJobs? && Dispatch(c, errno, cname, stubName, f, n).Ok?
    ensures ExternalType(c, errno, f, Out).Ok?
    ensures var d, x := Dispatch(c, errno, cname, stubName, f, n).value, ExternalType(c, errno, f, Out).value;
            && |d.params| == |x.args| && NamesOf(ByteStub.Emitted(d, n)) == Primitives(stubName, x)
            && Primitives(stubName, x) == (if |x.args| > 5 then [stubName, stubName + "_byte" + ByteStub.Decimal(|x.args|)] else [stubName])
            && (x.result.Pair? <==> errno.ReturnErrno?) && (x.result.Pair? ==> RepliesPairs(d))
  {
    hide RepliesPairs;
    hide ReturnTypeOf;
    hide ArgTypeOf;
    hide ExternalType;
    hide FirstError;
    hide Dispatch;
    hide Primitives;
    hide NamesOf;
    hide ByteStub.Emitted;
    hide ByteStub.Decimal;
    if errno.ReturnErrno? { DispatchedPairs(c, cname, stubName, f, n); }
    PlainResult(ReturnType(f));
    EndToEnd.DispatchedParams(c, errno, cname, stubName, f, n);
    BothGeneratedIff(c, errno, f);
    ExternalShape(c, errno, f);
    SameFunctions(Dispatch(c, errno, cname, stubName, f, n).value, n, ExternalType(c, errno, f, Out).value);
  }

  // ---- Lwt jobs ----

  // The names defined for a job: its stub, and `byte_stub`.
  function JobNames(stubName: string, args: seq<LwtJob.JobArg>): seq<string> {
    if |args| > ByteStub.MAX_BYTE_ARGS then [stubName, stubName + "_byte" + ByteStub.Decimal(|args|)] else [stubName]
  }

  predicate NoVoid(ts: seq<Typ>) { forall t :: t in ts ==> !HasNoArgument(t) }

  // A job drops the void parameters; a supported description has no others without a C argument.
  lemma {:induction false} JobArgsCount(f: Fn, counter: nat)
    requires LwtJob.Supported(f)
    ensures |LwtJob.JobArgs(f, counter)| <= |Params(f)|
    ensures |LwtJob.JobArgs(f, counter)| == |Params(f)| <==> NoVoid(Params(f))
    decreases f
  {
    hide LwtJob.ArgName;
    match f
    case Returns(_) =>
    case Function(t, rest) =>
      assert forall u :: u in Params(f) <==> u == t || u in Params(rest);
      JobArgsCount(rest, if t.Void? then counter else counter + 1);
      if !t.Void? { ProjectableHasArgument(t); }
      NoVoidCons(t, Params(rest));
  }

  lemma NoVoidCons(t: Typ, ts: seq<Typ>)
    ensures NoVoid([t] + ts) <==> !HasNoArgument(t) && NoVoid(ts)
  {
    hide HasNoArgument;
    if NoVoid([t] + ts) {
      assert ([t] + ts)[0] == t;
      forall u | u in ts ensures !HasNoArgument(u) { assert u in [t] + ts; }
    }
  }

  lemma {:induction false} ProjectableHasArgument(t: Typ)
    requires LwtJob.Projectable(t)
    ensures !HasNoArgument(t) && ArgTypeOf(t).Ok?
  {
    match t case View(_, ty) => ProjectableHasArgument(ty); case _ =>
  }

  lemma {:induction false} SupportedExternal(errno: ErrnoPolicy, f: Fn)
    requires LwtJob.Supported(f)
    ensures ExternalType(LwtJobs, errno, f, Out).Ok?
    decreases f
  {
    hide ReturnTypeOf;
    hide ArgTypeOf;
    match f
    case Returns(t) => if t.Void? { VoidResult(); } else { InjectableIff(t); }
    case Function(t, rest) =>
      SupportedExternal(errno, rest);
      if t.Void? { ArgTypeSays(Void); } else { ProjectableHasArgument(t); }
  }

  lemma VoidResult()
    ensures ReturnTypeOf(Void) == Ok(UNIT)
  {
  }

  /** The external of a job keeps the void parameters its stub drops: the two take as many
      arguments exactly when no parameter is void, and name the same functions exactly when
      none is or the external has too few arguments for a byte stub. */
  lemma JobArityIff(errno: ErrnoPolicy, stubName: string, f: Fn)
    requires LwtJob.Supported(f)
    ensures ExternalType(LwtJobs, errno, f, Out).Ok?
    ensures var args, x := LwtJob.JobArgs(f, 0), ExternalType(LwtJobs, errno, f, Out).value;
            && (|args| == |x.args| <==> NoVoid(Params(f)))
            && (JobNames(stubName, args) == Primitives(stubName, x) <==> NoVoid(Params(f)) || |x.args| <= MAX_BYTE_ARGS)
  {
    hide ExternalType;
    hide LwtJob.JobArgs;
    hide LwtJob.Supported;
    hide NoVoid;
    SupportedExternal(errno, f);
    ExternalShape(LwtJobs, errno, f);
    JobArgsCount(f, 0);
    var a, b := |LwtJob.JobArgs(f, 0)|, |ExternalType(LwtJobs, errno, f, Out).value.args|;
    if a > ByteStub.MAX_BYTE_ARGS && a != b { ByteNamesDiffer(stubName, a, b); }
  }

  lemma ByteNamesDiffer(name: string, a: nat, b: nat)
    requires a != b
    ensures name + "_byte" + ByteStub.Decimal(a) != name + "_byte" + ByteStub.Decimal(b)
  {
    var front := name + "_byte";
    if front + ByteStub.Decimal(a) == front + ByteStub.Decimal(b) {
      assert (front + ByteStub.Decimal(a))[|front|..] == ByteStub.Decimal(a);
      assert (front + ByteStub.Decimal(b))[|front|..] == ByteStub.Decimal(b);
      ByteStub.DecimalInjective(a, b);
    }
  }

  // One void argument is enough.
  lemma VoidJobExample(errno: ErrnoPolicy)
    ensures var f := Function(Void, Returns(Primitive(Int)));
            && LwtJob.Supported(f) && |LwtJob.JobArgs(f, 0)| == 0
            && ExternalType(LwtJobs, errno, f, Out).Ok? && |ExternalType(LwtJobs, errno, f, Out).value.args| == 1
  {
    var f := Function(Void, Returns(Primitive(Int)));
    ExternalShape(LwtJobs, errno, f);
    SupportedExternal(errno, f);
  }

  // ---- Return buffers ----

  /** `ml_external_type_of_cbuffers`: the result is given the type of an argument. */
  function BuffersType(b: CBuffers, ret: BufFn, p: Polarity): Result<External> {
    match b
    case LastBuf(_, t) =>
      if !ret.BReturns? then Raises(Unsupported("retbuf should specify return type"))
      else (match ArgTypeOf(ret.ret) case Raises(e) => Raises(e) case Ok(r) => AddArgument(Flip(p), t, Prim([], r)))
    case ConBuf(LastBuf(_, t), b2) =>
      (match BuffersType(b2, ret, p) case Raises(e) => Raises(e) case Ok(x) => AddArgument(Flip(p), t, x))
    case _ => Raises(Unsupported("left arg shouldn't be ConBuf"))
  }

  /** `ml_external_type_of_fn` for descriptions with buffers. */
  function BufExternalType(errno: ErrnoPolicy, f: BufFn, p: Polarity): Result<External> {
    match f
    case BReturns(t) =>
      (match TypeAt(p, t) case Raises(e) => Raises(e) case Ok(r) => Ok(Prim([], Wrap(Sequential, errno, r))))
    case BFunction(t, rest) =>
      (match BufExternalType(errno, rest, p) case Raises(e) => Raises(e) case Ok(x) => AddArgument(Flip(p), t, x))
    case BBuffers(_, b, r) => BuffersType(b, r, p)
  }

  // The parameters of a description, each buffer one.
  function BufferTypes(b: CBuffers): seq<Typ> {
    match b case LastBuf(_, t) => [t] case ConBuf(l, r) => BufferTypes(l) + BufferTypes(r)
  }

  function BufParams(f: BufFn): seq<Typ> {
    match f
    case BReturns(_) => []
    case BFunction(t, rest) => [t] + BufParams(rest)
    case BBuffers(_, b, _) => BufferTypes(b)
  }

  predicate ArgsAre(x: External, ts: seq<Typ>) {
    |x.args| == |ts| && forall i :: 0 <= i < |ts| ==> ArgTypeOf(ts[i]) == Ok(x.args[i])
  }

  lemma ArgsCons(t: Typ, a: MlType, x: External, ts: seq<Typ>)
    requires ArgsAre(x, ts) && ArgTypeOf(t) == Ok(a)
    ensures ArgsAre(Prim([a] + x.args, x.result), [t] + ts)
  {
    hide ArgTypeOf;
  }

  lemma {:induction false} BuffersTypeShape(b: CBuffers, ret: BufFn)
    requires BuffersType(b, ret, Out).Ok?
    ensures ArgsAre(BuffersType(b, ret, Out).value, BufferTypes(b))
    ensures ret.BReturns? && ArgTypeOf(ret.ret) == Ok(BuffersType(b, ret, Out).value.result)
    decreases b
  {
    hide ArgTypeOf;
    match b
    case LastBuf(_, _) =>
    case ConBuf(l, b2) =>
      BuffersTypeShape(b2, ret);
      ArgsCons(l.ty, ArgTypeOf(l.ty).value, BuffersType(b2, ret, Out).value, BufferTypes(b2));
  }

  /** With buffers too the external has one argument for each parameter and buffer, in
      order. */
  lemma {:induction false} BufExternalShape(errno: ErrnoPolicy, f: BufFn)
    requires BufExternalType(errno, f, Out).Ok?
    ensures ArgsAre(BufExternalType(errno, f, Out).value, BufParams(f))
    decreases f
  {
    hide ArgTypeOf;
    match f
    case BReturns(_) =>
    case BFunction(t, rest) =>
      BufExternalShape(errno, rest);
      ArgsCons(t, ArgTypeOf(t).value, BufExternalType(errno, rest, Out).value, BufParams(rest));
    case BBuffers(_, b, r) => BuffersTypeShape(b, r);
  }

  lemma {:induction false} BuffersNamed(b: CBuffers, n: nat)
    ensures |BufferParams(NameBuffers(b, n).0)| == |BufferTypes(b)|
    decreases b
  {
    match b
    case LastBuf(_, _) =>
    case ConBuf(l, r) => BuffersNamed(l, n); BuffersNamed(r, NameBuffers(l, n).1);
  }

  lemma {:induction false} ParamsNamed(f: BufFn, n: nat)
    ensures |BufValueParams(NameBufParams(f, n).0)| == |BufParams(f)|
    decreases f
  {
    match f
    case BReturns(_) =>
    case BFunction(_, rest) => ParamsNamed(rest, n + 1);
    case BBuffers(_, b, _) => BuffersNamed(b, n);
  }

  /** Whenever both files of a description with buffers are generated, the stub takes as
      many arguments as the external has, and the functions defined are those named. */
  lemma BufExternalMatchesStub(errno: ErrnoPolicy, cname: string, stubName: string, f: BufFn, n: nat)
    requires GenerateBuf(errno, cname, stubName, f, n).Ok? && BufExternalType(errno, f, Out).Ok?
    ensures var d, x := GenerateBuf(errno, cname, stubName, f, n).value, BufExternalType(errno, f, Out).value;
            |d.params| == |x.args| && NamesOf(ByteStub.Emitted(d, n)) == Primitives(stubName, x)
  {
    hide BufExternalType;
    hide BufError;
    hide BufBody;
    hide ByteStub.ByteStubFor;
    hide ByteStub.Decimal;
    NoBufError(NameBufParams(f, n).0);
    BufExternalShape(errno, f);
    ParamsNamed(f, n);
  }

  /** The result of a buffer external, typed as an argument, has the type the same result
      has elsewhere exactly when it is void or a primitive. */
  lemma {:induction false} BufResultTypeIff(t: Typ)
    requires ReturnTypeOf(t).Ok?
    ensures ArgTypeOf(t).Ok?
    ensures ArgTypeOf(t) == ReturnTypeOf(t) <==> StripViews(t).Void? || StripViews(t).Primitive?
  {
    match t case View(_, ty) => BufResultTypeIff(ty); case OCaml(k) => ReturnTypeSays(t); case _ =>
  }
}

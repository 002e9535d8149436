/** The type language shared by the generators, the printer, the layout engine
    and the coercions (src/ctypes/ctypes_static.ml). */
module CtypesStatic {

  newtype Byte = x: int | 0 <= x < 256

  datatype Option<+T> = None | Some(value: T)

  /** Results of operations that raise in the original. */
  datatype Result<+T> = Ok(value: T) | Raises(error: Error)

  datatype Error =
    | IncompleteType
    | ModifyingSealedType(tag: string)
    | Unsupported(msg: string)
    | InternalError(msg: string)
    | DivisionByZero
    | InvalidArgument(msg: string)
    | NotFound

  datatype Prim =
    | Char | Schar | Uchar | Bool | Short | Int | Long | Llong | Ushort | Sint
    | Uint | Ulong | Ullong | SizeT | Int8T | Int16T | Int32T | Int64T | Uint8T
    | Uint16T | Uint32T | Uint64T | Camlint | Nativeint | Float | Double
    | LDouble | Complex32 | Complex64 | Complexld

  datatype OCamlKind = OString | OBytes | OFloatArray

  /** A view is known by the identity of its read and write functions; `typedef`
      is the name its custom printer writes, when it has one. */
  datatype ViewInfo = ViewInfo(id: nat, typedef: Option<string>)

  datatype Spec = Spec(size: nat, align: nat)

  datatype Field = Field(fname: string, ftype: Typ, foffset: nat)

  datatype Typ =
    | Void
    | Primitive(prim: Prim)
    | Pointer(target: Typ)
    | Funptr(fn: Fn)
    | Struct(tag: string, spec: Option<Spec>, fields: seq<Field>)
    | Union(utag: string, uspec: Option<Spec>, ufields: seq<Field>)
    | Abstract(aname: string, asize: nat, aalign: nat)
    | View(view: ViewInfo, ty: Typ)
    | Array(elem: Typ, length: nat)
    | Bigarray(kind: Prim, dims: seq<nat>)
    | OCaml(okind: OCamlKind)

  datatype Fn = Returns(ret: Typ) | Function(arg: Typ, rest: Fn)

  function StripViews(t: Typ): (r: Typ)
    ensures !r.View?
  {
    match t case View(_, ty) => StripViews(ty) case _ => t
  }

  /** Whether a value of the type lives in memory the OCaml collector may move. */
  predicate OCamlValue(t: Typ) {
    match t
    case OCaml(_) => true
    case View(_, ty) => OCamlValue(ty)
    case _ => false
  }

  predicate HasOCamlArgument(f: Fn) {
    match f
    case Returns(_) => false
    case Function(t, rest) => OCamlValue(t) || HasOCamlArgument(rest)
  }

  function Params(f: Fn): seq<Typ> {
    match f
    case Returns(_) => []
    case Function(t, rest) => [t] + Params(rest)
  }

  // The parameters C is passed an argument for when no view stands before a void.
  function NonVoid(ts: seq<Typ>): seq<Typ> {
    if ts == [] then [] else (if ts[0].Void? then [] else [ts[0]]) + NonVoid(ts[1..])
  }

  function ReturnType(f: Fn): Typ {
    match f
    case Returns(t) => t
    case Function(_, rest) => ReturnType(rest)
  }

  function Reverse<T>(s: seq<T>): (r: seq<T>)
    ensures |r| == |s|
  {
    if s == [] then [] else Reverse(s[1..]) + [s[0]]
  }
}

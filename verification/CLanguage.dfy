/** The C fragment the stub generators emit (src/cstubs/cstubs_c_language.ml)
    and a meaning for it.

    Every operation a stub performs on the outside world - a call, a load, a
    root registration - goes through one uninterpreted function of the machine,
    which sees the operation, its arguments and the whole world so far, so what is
    proved below holds whatever those operations do. */
module CLanguage {
  import opened CtypesStatic

  // `Fresh(n)` is the name "xn" printed by fresh_var; `Named` covers all others.
  datatype Name = Fresh(n: nat) | Named(s: string)

  datatype CFunction = CFunction(fname: string, allocates: bool, readsHeap: bool, ret: Typ)

  datatype CGlobal = CGlobal(gname: string, onHeap: bool, gtyp: Typ)

  datatype CExp =
    | IntConst(n: int)
    | Local(x: Name, ty: Typ)
    | Cast(into: Typ, e: CExp)
    | AddrLocal(x: Name, ty: Typ)
    | AddrGlobal(g: CGlobal)

  datatype CLValue =
    | LLocal(x: Name)
    | LGlobal(g: CGlobal)
    | LIndex(base: CLValue, idx: CExp)
    | LField(base: CLValue, field: string)
    | LPointerField(base: CLValue, field: string)

  datatype CEff =
    | Exp(e: CExp)
    | CamlParam0
    | CamlLocalN(arr: CExp, count: CExp)
    | CamlDrop
    | Global(g: CGlobal)
    | App(f: CFunction, args: seq<CExp>)
    | Index(base: CEff, idx: CExp)
    | Deref(ptr: CExp)
    | DerefField(ptr: CExp, field: string)

  datatype CComp =
    | Eff(eff: CEff)
    | CamlParam(roots: seq<Name>, body: CComp)
    | LetConst(x: Name, n: int, body: CComp)
    | LetAssign(lv: CLValue, rhs: CEff, body: CComp)
    | CamlReturnT(rty: Typ, res: CExp)
    | Return(rty: Typ, res: CExp)
    | Let(x: Name, ty: Typ, rhs: CEff, body: CComp)

  datatype CFundef = CFundef(name: string, params: seq<(Name, Typ)>, ret: Typ, body: CComp)

  // ---- Types of C terms (module Type_C) ----

  function TypeOfExp(e: CExp): Typ {
    match e
    case IntConst(_) => Primitive(Sint)
    case Local(_, ty) => ty
    case Cast(ty, _) => ty
    case AddrLocal(_, ty) => Pointer(ty)
    case AddrGlobal(g) => Pointer(g.gtyp)
  }

  // The element type behind a pointer or array; the original stops with an
  // internal error on any other type, which no generated program reaches.
  function Referenced(t: Typ): Typ {
    match t case Pointer(ty) => ty case Array(ty, _) => ty case _ => Void
  }

  function FieldType(t: Typ, f: string): Typ {
    match t
    case Pointer(Struct(_, _, fields)) => LookupField(fields, f)
    case _ => Void
  }

  function LookupField(fields: seq<Field>, f: string): Typ {
    if fields == [] then Void
    else if fields[0].fname == f then fields[0].ftype
    else LookupField(fields[1..], f)
  }

  function TypeOfEff(e: CEff): Typ {
    match e
    case Exp(x) => TypeOfExp(x)
    case CamlParam0 => Void
    case CamlLocalN(_, _) => Void
    case CamlDrop => Void
    case Global(g) => g.gtyp
    case App(f, _) => f.ret
    case Index(b, _) => Referenced(TypeOfEff(b))
    case Deref(p) => Referenced(TypeOfExp(p))
    case DerefField(p, f) => FieldType(TypeOfExp(p), f)
  }

  function TypeOfComp(c: CComp): Typ {
    match c
    case Eff(e) => TypeOfEff(e)
    case CamlParam(_, b) => TypeOfComp(b)
    case LetConst(_, _, b) => TypeOfComp(b)
    case LetAssign(_, _, b) => TypeOfComp(b)
    case Let(_, _, _, b) => TypeOfComp(b)
    case CamlReturnT(ty, _) => ty
    case Return(ty, _) => ty
  }

  // ---- Values and the world ----

  /** Values of both generated languages: C scalars and addresses, and the OCaml
      values that cross the boundary. */
  datatype Val =
    | CInt(n: int)
    | Word(w: int)
    | Unbound(x: Name)
    | AddrOf(contents: Val)
    | GlobalAddr(gname: string)
    | UnitVal
    | Tuple(elems: seq<Val>)
    | Fat(reftyp: Typ, addr: Val)
    | FatFun(reffn: Fn, addr: Val)
    | CPointer(fat: Val)
    | StaticFunptr(fat: Val)
    | Structured(ptr: Val)
    | OCamlRef(offset: int, obj: Val, okind: OCamlKind)
    | BytesBlock(id: nat, length: nat)
    | TypeDescr(descr: Typ)
    | FnDescr(fndescr: Fn)
    | ViewWrite(view: ViewInfo)
    | ViewRead(view: ViewInfo)
    | Applied(head: Builtin, args: seq<Val>)
    | Stuck

  // The OCaml functions generated wrappers mention by a path.
  datatype Builtin = External | MapResult | CIMakePtr | CIMakeFunPtr | CIMakeStructured | CtypesAddr | BytesCreate | OCamlBytesStart

  type Env = map<Name, Val>

  function Lookup(env: Env, x: Name): Val {
    if x in env then env[x] else Unbound(x)
  }

  datatype Op =
    | OCall(f: CFunction)
    | OGlobal(g: CGlobal)
    | OIndex
    | ODeref
    | OField(field: string)
    | OStore(field: string)
    | ORoots
    | OParam0
    | OLocalN
    | ODrop

  datatype Event = Event(op: Op, args: seq<Val>, locked: bool, slots: map<int, Val>, reply: Val)

  /** `errno` is the C variable, `slots` the array declared by CAMLlocalN, `locked`
      whether this thread holds the runtime lock, `roots` the number of open root
      frames. */
  datatype World = World(trace: seq<Event>, errno: Val, slots: map<int, Val>, locked: bool, roots: int)

  datatype Reply = Reply(v: Val, errno: Val)

  /** The outside world: what operations reply, and C's conversion of a value to the
      type it is bound at or cast to. */
  datatype Machine = Machine(run: (Op, seq<Val>, World) -> Reply, convert: (Typ, Val) -> Val)

  // The type of OCaml values in C.
  const VALUE := Abstract("value", 0, 0)

  // C leaves an OCaml value alone when it is bound at type `value`.
  ghost predicate KeepsValues(m: Machine) {
    forall v: Val :: m.convert(VALUE, v) == v
  }

  const ACQUIRE_RUNTIME := CFunction("caml_acquire_runtime_system", true, false, Void)
  const RELEASE_RUNTIME := CFunction("caml_release_runtime_system", true, false, Void)

  predicate IsAcquire(op: Op) { op == OCall(ACQUIRE_RUNTIME) }
  predicate IsRelease(op: Op) { op == OCall(RELEASE_RUNTIME) }

  lemma AcquireIsNotRelease()
    ensures ACQUIRE_RUNTIME != RELEASE_RUNTIME
  {
    assert ACQUIRE_RUNTIME.fname[5] != RELEASE_RUNTIME.fname[5];
  }

  function UnitSlots(n: int): map<int, Val> {
    if n <= 0 then map[] else UnitSlots(n - 1)[n - 1 := UnitVal]
  }

  /** Performs one operation: consults the machine, logs the event, and applies
      the operation's own effect on errno, lock, roots and slots. */
  function Do(m: Machine, op: Op, args: seq<Val>, w: World): (Val, World) {
    var r := m.run(op, args, w);
    (r.v, World(
      w.trace + [Event(op, args, w.locked, w.slots, r.v)],
      r.errno,
      if op.OLocalN? && |args| == 2 && args[1].CInt? then UnitSlots(args[1].n) else w.slots,
      if IsAcquire(op) then true else if IsRelease(op) then false else w.locked,
      if op.ORoots? || op.OParam0? then w.roots + 1 else if op.ODrop? then w.roots - 1 else w.roots))
  }

  // ---- Evaluation ----

  function EvalExp(m: Machine, e: CExp, env: Env): Val {
    match e
    case IntConst(n) => CInt(n)
    case Local(x, _) => Lookup(env, x)
    case Cast(ty, e') => m.convert(ty, EvalExp(m, e', env))
    case AddrLocal(x, _) => AddrOf(Lookup(env, x))
    case AddrGlobal(g) => GlobalAddr(g.gname)
  }

  function EvalExps(m: Machine, es: seq<CExp>, env: Env): (vs: seq<Val>)
    ensures |vs| == |es|
    ensures forall i :: 0 <= i < |es| ==> vs[i] == EvalExp(m, es[i], env)
  {
    seq(|es|, i requires 0 <= i < |es| => EvalExp(m, es[i], env))
  }

  function EvalEff(m: Machine, e: CEff, env: Env, w: World): (Val, World) {
    match e
    case Exp(x) => (EvalExp(m, x, env), w)
    case CamlParam0 => Do(m, OParam0, [], w)
    case CamlLocalN(a, n) => Do(m, OLocalN, [EvalExp(m, a, env), EvalExp(m, n, env)], w)
    case CamlDrop => Do(m, ODrop, [], w)
    case Global(g) => if g.gname == "errno" then (w.errno, w) else Do(m, OGlobal(g), [], w)
    case App(f, args) => Do(m, OCall(f), EvalExps(m, args, env), w)
    case Index(b, i) =>
      var (bv, w1) := EvalEff(m, b, env, w);
      Do(m, OIndex, [bv, EvalExp(m, i, env)], w1)
    case Deref(p) => Do(m, ODeref, [EvalExp(m, p, env)], w)
    case DerefField(p, f) => Do(m, OField(f), [EvalExp(m, p, env)], w)
  }

  // The address an assignment through a pointer or field goes to.
  function EvalLValue(m: Machine, lv: CLValue, env: Env): Val {
    match lv
    case LLocal(x) => Lookup(env, x)
    case LGlobal(g) => GlobalAddr(g.gname)
    case LIndex(b, _) => EvalLValue(m, b, env)
    case LField(b, _) => EvalLValue(m, b, env)
    case LPointerField(b, _) => EvalLValue(m, b, env)
  }

  /** Assignment: to errno, to a slot of the rooted local array, or to memory. */
  function Assign(m: Machine, lv: CLValue, v: Val, env: Env, w: World): (Env, World) {
    match lv
    case LLocal(x) => (env[x := v], w)
    case LGlobal(g) =>
      if g.gname == "errno" then (env, w.(errno := v))
      else (env, Do(m, OStore(g.gname), [v], w).1)
    case LIndex(b, i) =>
      var iv := EvalExp(m, i, env);
      if iv.CInt? then (env, w.(slots := w.slots[iv.n := v]))
      else (env, Do(m, OStore("[]"), [EvalLValue(m, b, env), iv, v], w).1)
    case LField(b, f) => (env, Do(m, OStore(f), [EvalLValue(m, b, env), v], w).1)
    case LPointerField(b, f) => (env, Do(m, OStore(f), [EvalLValue(m, b, env), v], w).1)
  }

  datatype Exit = Plain | ByReturn | ByCamlReturn

  datatype Outcome = Outcome(v: Val, w: World, exit: Exit)

  function EvalComp(m: Machine, c: CComp, env: Env, w: World): Outcome {
    match c
    case Eff(e) => var (v, w1) := EvalEff(m, e, env, w); Outcome(v, w1, Plain)
    case CamlParam(xs, b) =>
      EvalComp(m, b, env, Do(m, ORoots, seq(|xs|, i requires 0 <= i < |xs| => Lookup(env, xs[i])), w).1)
    case LetConst(x, n, b) => EvalComp(m, b, env[x := CInt(n)], w)
    case LetAssign(lv, e, b) =>
      var (v, w1) := EvalEff(m, e, env, w);
      var (env2, w2) := Assign(m, lv, v, env, w1);
      EvalComp(m, b, env2, w2)
    case CamlReturnT(_, e) => Outcome(EvalExp(m, e, env), w, ByCamlReturn)
    case Return(_, e) => Outcome(EvalExp(m, e, env), w, ByReturn)
    case Let(x, ty, e, b) =>
      var (v, w1) := EvalEff(m, e, env, w);
      EvalComp(m, b, env[x := m.convert(ty, v)], w1)
  }

  /** Running a function body on actual arguments; leaving by CAMLreturn closes
      the root frame that CAMLparam opened. */
  function RunBody(m: Machine, d: CFundef, args: seq<Val>, w: World): (Val, World)
    requires |args| == |d.params|
  {
    var o := EvalComp(m, d.body, BindParams(d.params, args), w);
    (o.v, if o.exit.ByCamlReturn? then o.w.(roots := o.w.roots - 1) else o.w)
  }

  function BindParams(ps: seq<(Name, Typ)>, args: seq<Val>): Env
    requires |ps| == |args|
  {
    if ps == [] then map[] else BindParams(ps[1..], args[1..])[ps[0].0 := args[0]]
  }
}

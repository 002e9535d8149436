/** The OCaml fragment of the generated wrappers (src/cstubs/cstubs_generate_ml.ml:20-46)
    and its meaning. */
module MLLanguage {
  import opened CtypesStatic
  import opened CLanguage

  // The constructors the patterns mention.
  datatype Con =
    | KVoid | KPrimitive(p: Prim) | KPointer | KFunptr | KStruct | KUnion | KView | KOCaml(k: OCamlKind)
    | KCPointer | KStaticFunptr | KReturns | KFunction | KBuffers | KLastBuf | KConBuf

  datatype Label = LRead | LWrite

  // `PView(p, l, x)` is the record pattern {CI.ty = p; l = x; _} under View.
  datatype Pat =
    | PVar(x: Name)
    | PAny
    | PInt(n: int)
    | PAs(p: Pat, x: Name)
    | PCon0(c: Con)
    | PCon1(c: Con, p: Pat)
    | PCon2(c: Con, p: Pat, q: Pat)
    | PCon3(c: Con, p: Pat, q: Pat, r: Pat)
    | PView(p: Pat, l: Label, x: Name)

  datatype Exp =
    | Ident(x: Name)
    | Path(b: Builtin)
    | MakePtr(t: Exp, e: Exp)
    | MakeFunPtr(t: Exp, e: Exp)
    | MakeStructured(t: Exp, e: Exp)
    | Appl(f: Exp, a: Exp)
    | Pair(e1: Exp, e2: Exp)
    | LetIn(p: Pat, e1: Exp, e2: Exp)
    | Fun(xs: seq<Name>, body: Exp)
    | ConstInt(n: int)

  type Binding = (Pat, Exp)

  /** What the wrapper's surroundings do: the views' functions, and the external it
      calls once it has `arity` arguments. */
  datatype Host = Host(
    write: (ViewInfo, Val) -> Val,
    read: (ViewInfo, Val) -> Val,
    ext: (seq<Val>, World) -> (Val, World),
    arity: nat)

  // The C world, how many byte strings have been created, how often a view's write
  // function has run.
  datatype State = State(w: World, created: nat, writes: nat)

  function Wrote(s: State, k: nat): State { s.(writes := s.writes + k) }

  function MkPtr(t: Val, v: Val): Val { if t.TypeDescr? then CPointer(Fat(t.descr, v)) else Stuck }
  function MkFunPtr(t: Val, v: Val): Val { if t.FnDescr? then StaticFunptr(FatFun(t.fndescr, v)) else Stuck }
  function MkStructured(t: Val, v: Val): Val { if t.TypeDescr? then Structured(CPointer(Fat(t.descr, v))) else Stuck }

  // Applying a function that has no effect; the only ones handed to map_result.
  function ApplyPure(h: Host, f: Val, a: Val): Val {
    match f
    case ViewRead(view) => h.read(view, a)
    case Applied(CIMakePtr, args) => if |args| == 1 then MkPtr(args[0], a) else Stuck
    case Applied(CIMakeFunPtr, args) => if |args| == 1 then MkFunPtr(args[0], a) else Stuck
    case Applied(CIMakeStructured, args) => if |args| == 1 then MkStructured(args[0], a) else Stuck
    case _ => Stuck
  }

  // A known function with one more argument.
  function Feed(h: Host, b: Builtin, args: seq<Val>, s: State): (Val, State) {
    match b
    case External =>
      if |args| == h.arity then var (r, w1) := h.ext(args, s.w); (r, s.(w := w1)) else (Applied(b, args), s)
    case MapResult =>
      if |args| != 2 then (Applied(b, args), s)
      else if args[1].Tuple? && |args[1].elems| == 2
      then (Tuple([ApplyPure(h, args[0], args[1].elems[0]), args[1].elems[1]]), s)
      else (Stuck, s)
    case CtypesAddr => (if |args| == 1 && args[0].Structured? then args[0].ptr else Stuck, s)
    case BytesCreate =>
      if |args| == 1 && args[0].CInt? && args[0].n >= 0
      then (BytesBlock(s.created, args[0].n), s.(created := s.created + 1))
      else (Stuck, s)
    case OCamlBytesStart => (if |args| == 1 then OCamlRef(0, args[0], OBytes) else Stuck, s)
    case CIMakePtr => (if |args| == 1 then Applied(b, args) else if |args| == 2 then MkPtr(args[0], args[1]) else Stuck, s)
    case CIMakeFunPtr => (if |args| == 1 then Applied(b, args) else if |args| == 2 then MkFunPtr(args[0], args[1]) else Stuck, s)
    case CIMakeStructured => (if |args| == 1 then Applied(b, args) else if |args| == 2 then MkStructured(args[0], args[1]) else Stuck, s)
  }

  function Apply(h: Host, f: Val, a: Val, s: State): (Val, State) {
    match f
    case Applied(b, args) => Feed(h, b, args + [a], s)
    case ViewWrite(view) => (h.write(view, a), Wrote(s, 1))
    case _ => (ApplyPure(h, f, a), s)
  }

  /** Matching a value against the patterns of generated lets. */
  function MatchVal(p: Pat, v: Val): Option<Env> {
    match p
    case PVar(x) => Some(map[x := v])
    case PCon1(KCPointer, PVar(x)) => if v.CPointer? then Some(map[x := v.fat]) else None
    case PCon1(KStaticFunptr, PVar(x)) => if v.StaticFunptr? then Some(map[x := v.fat]) else None
    case _ => None
  }

  /** Evaluation, right to left; a failed match gives Stuck. */
  function EvalML(h: Host, e: Exp, env: Env, s: State): (Val, State)
    decreases e
  {
    match e
    case Ident(x) => (Lookup(env, x), s)
    case Path(b) => (Applied(b, []), s)
    case MakePtr(t, a) => var (v, s1) := EvalML(h, a, env, s); var (d, s2) := EvalML(h, t, env, s1); (MkPtr(d, v), s2)
    case MakeFunPtr(t, a) => var (v, s1) := EvalML(h, a, env, s); var (d, s2) := EvalML(h, t, env, s1); (MkFunPtr(d, v), s2)
    case MakeStructured(t, a) => var (v, s1) := EvalML(h, a, env, s); var (d, s2) := EvalML(h, t, env, s1); (MkStructured(d, v), s2)
    case Appl(f, a) =>
      var (v, s1) := EvalML(h, a, env, s);
      var (g, s2) := EvalML(h, f, env, s1);
      Apply(h, g, v, s2)
    case Pair(a, b) =>
      var (v2, s1) := EvalML(h, b, env, s);
      var (v1, s2) := EvalML(h, a, env, s1);
      (Tuple([v1, v2]), s2)
    case LetIn(p, a, b) =>
      var (v, s1) := EvalML(h, a, env, s);
      (match MatchVal(p, v)
       case None => (Stuck, s1)
       case Some(sigma) => EvalML(h, b, env + sigma, s1))
    case Fun(_, _) => (Stuck, s)
    case ConstInt(n) => (CInt(n), s)
  }

  /** Matching a type against a generated type pattern. */
  function MatchTyp(p: Pat, t: Typ): Option<Env>
    decreases p
  {
    match p
    case PAny => Some(map[])
    case PAs(q, x) => (match MatchTyp(q, t) case None => None case Some(sigma) => Some(sigma[x := TypeDescr(t)]))
    case PCon0(KVoid) => if t.Void? then Some(map[]) else None
    case PCon0(KPrimitive(q)) => if t == Primitive(q) then Some(map[]) else None
    case PCon0(KOCaml(k)) => if t == OCaml(k) then Some(map[]) else None
    case PCon1(KPointer, PVar(x)) => if t.Pointer? then Some(map[x := TypeDescr(t.target)]) else None
    case PCon1(KPointer, PAny) => if t.Pointer? then Some(map[]) else None
    case PCon1(KFunptr, PVar(x)) => if t.Funptr? then Some(map[x := FnDescr(t.fn)]) else None
    case PCon1(KFunptr, PAny) => if t.Funptr? then Some(map[]) else None
    case PCon1(KStruct, PAny) => if t.Struct? then Some(map[]) else None
    case PCon1(KUnion, PAny) => if t.Union? then Some(map[]) else None
    case PCon1(KView, PView(q, l, x)) =>
      if !t.View? then None
      else (match MatchTyp(q, t.ty)
            case None => None
            case Some(sigma) => Some(sigma[x := if l.LRead? then ViewRead(t.view) else ViewWrite(t.view)]))
    case _ => None
  }

  function MatchFn(p: Pat, f: Fn): Option<Env>
    decreases p
  {
    match p
    case PCon1(KReturns, q) => if f.Returns? then MatchTyp(q, f.ret) else None
    case PCon2(KFunction, q, r) =>
      if !f.Function? then None
      else (match (MatchTyp(q, f.arg), MatchFn(r, f.rest))
            case (Some(a), Some(b)) => Some(a + b)
            case _ => None)
    case _ => None
  }

  // ---- Binding lists ----

  /** `let_bind`: a left fold, so the last binding of the list ends up outermost. */
  function LetBind(binds: seq<Binding>, e: Exp): Exp
    decreases |binds|
  {
    if binds == [] then e else LetBind(binds[1..], LetIn(binds[0].0, binds[0].1, e))
  }

  /** Running the bindings in the order they take effect, last one first. */
  function RunBinds(h: Host, binds: seq<Binding>, env: Env, s: State): Option<(Env, State)>
    decreases |binds|
  {
    if binds == [] then Some((env, s))
    else
      var (p, e) := binds[|binds| - 1];
      var (v, s1) := EvalML(h, e, env, s);
      match MatchVal(p, v)
      case None => None
      case Some(sigma) => RunBinds(h, binds[..|binds| - 1], env + sigma, s1)
  }

  lemma {:induction false} LetBindSnoc(binds: seq<Binding>, b: Binding, e: Exp)
    ensures LetBind(binds + [b], e) == LetIn(b.0, b.1, LetBind(binds, e))
    decreases |binds|
  {
    if binds == [] {
      assert (binds + [b])[1..] == [];
    } else {
      assert (binds + [b])[1..] == binds[1..] + [b];
      LetBindSnoc(binds[1..], b, LetIn(binds[0].0, binds[0].1, e));
    }
  }

  /** The let expression means: run the bindings, then the body. */
  lemma {:induction false} LetBindMeaning(h: Host, binds: seq<Binding>, e: Exp, env: Env, s: State)
    requires RunBinds(h, binds, env, s).Some?
    ensures var (env1, s1) := RunBinds(h, binds, env, s).value; EvalML(h, LetBind(binds, e), env, s) == EvalML(h, e, env1, s1)
    decreases |binds|
  {
    if binds != [] {
      var front, b := binds[..|binds| - 1], binds[|binds| - 1];
      assert binds == front + [b];
      LetBindSnoc(front, b, e);
      var (v, s1) := EvalML(h, b.1, env, s);
      LetBindMeaning(h, front, e, env + MatchVal(b.0, v).value, s1);
    }
  }

  lemma {:induction false} RunBindsAppend(h: Host, a: seq<Binding>, b: seq<Binding>, env: Env, s: State)
    ensures RunBinds(h, a + b, env, s) ==
            match RunBinds(h, b, env, s) { case None => None case Some((env1, s1)) => RunBinds(h, a, env1, s1) }
    decreases |b|
  {
    if b == [] {
      assert a + b == a;
    } else {
      var front, last := b[..|b| - 1], b[|b| - 1];
      assert (a + b)[..|a + b| - 1] == a + front;
      var (v, s1) := EvalML(h, last.1, env, s);
      if MatchVal(last.0, v).Some? {
        RunBindsAppend(h, a, front, env + MatchVal(last.0, v).value, s1);
      }
    }
  }
}

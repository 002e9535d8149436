/** The wrapper compiler: src/cstubs/cstubs_generate_ml.ml:358-522, 574-640, 672-689,
    for the policies without Lwt. */
module MLWrapper {
  import opened CtypesStatic
  import opened CLanguage
  import opened MLLanguage

  datatype Polarity = In | Out

  function Flip(pol: Polarity): Polarity { if pol.In? then Out else In }

  /** The exception `pattern_and_exp_of_typ` raises, if it does. */
  function PatError(t: Typ, pol: Polarity): Option<Error> {
    match t
    case Abstract(_, _, _) => Some(InternalError("Unexpected abstract type encountered during ML code generation"))
    case Array(_, _) => Some(InternalError("Unexpected array type encountered during ML code generation"))
    case Bigarray(_, _) => Some(InternalError("Unexpected bigarray type encountered during ML code generation"))
    case OCaml(OString) => if pol.In? then None else Some(Unsupported("cstubs does not support OCaml strings as return values"))
    case OCaml(OBytes) => if pol.In? then None else Some(Unsupported("cstubs does not support OCaml bytes values as return values"))
    case OCaml(OFloatArray) => if pol.In? then None else Some(Unsupported("cstubs does not support OCaml float arrays as return values"))
    case View(_, ty) => PatError(ty, pol)
    case _ => None
  }

  // How a result is raised: by one of the three constructors or a view's read function.
  datatype Raiser = ByPtr | ByFunPtr | ByStructured | ByFunction

  /** `map_result`: plain application, or application to the first component of the
      pair that carries errno. */
  function MapResultExp(errno: bool, r: Raiser, x: Name, e: Exp): Exp {
    if !errno then
      match r
      case ByPtr => MakePtr(Ident(x), e)
      case ByFunPtr => MakeFunPtr(Ident(x), e)
      case ByStructured => MakeStructured(Ident(x), e)
      case ByFunction => Appl(Ident(x), e)
    else
      var f := match r
        case ByPtr => Appl(Path(CIMakePtr), Ident(x))
        case ByFunPtr => Appl(Path(CIMakeFunPtr), Ident(x))
        case ByStructured => Appl(Path(CIMakeStructured), Ident(x))
        case ByFunction => Ident(x);
      Appl(Appl(Path(MapResult), f), e)
  }

  // A pattern for the type, an expression if the value has to be converted, the
  // bindings it needs, and the counter.
  datatype PatExp = PatExp(pat: Pat, exp: Option<Exp>, binds: seq<Binding>, n: nat)

  /** `pattern_and_exp_of_typ`. */
  function PatAndExp(errno: bool, t: Typ, e: Exp, pol: Polarity, binds: seq<Binding>, n: nat): (r: PatExp)
    requires PatError(t, pol).None?
    ensures r.n >= n
    decreases t
  {
    match t
    case Void => PatExp(PCon0(KVoid), None, binds, n)
    case Primitive(p) => PatExp(PCon0(KPrimitive(p)), None, binds, n)
    case Pointer(_) =>
      var x := Fresh(n + 1);
      if pol.In? then PatExp(PCon1(KPointer, PAny), Some(Ident(x)), binds + [(PCon1(KCPointer, PVar(x)), e)], n + 1)
      else PatExp(PCon1(KPointer, PVar(x)), Some(MapResultExp(errno, ByPtr, x, e)), binds, n + 1)
    case Funptr(_) =>
      var x := Fresh(n + 1);
      if pol.In? then PatExp(PCon1(KFunptr, PAny), Some(Ident(x)), binds + [(PCon1(KStaticFunptr, PVar(x)), e)], n + 1)
      else PatExp(PCon1(KFunptr, PVar(x)), Some(MapResultExp(errno, ByFunPtr, x, e)), binds, n + 1)
    case Struct(_, _, _) => Structure(errno, KStruct, e, pol, binds, n)
    case Union(_, _, _) => Structure(errno, KUnion, e, pol, binds, n)
    case View(_, ty) =>
      if pol.In? then
        var x, y := Fresh(n + 1), Fresh(n + 2);
        var e1 := Appl(Ident(x), e);
        var r := PatAndExp(errno, ty, e1, pol, binds, n + 2);
        var e2 := if r.exp.Some? then r.exp.value else e1;
        PatExp(PCon1(KView, PView(r.pat, LWrite, x)), Some(Ident(y)), [(PVar(y), e2)] + r.binds, r.n)
      else
        var r := PatAndExp(errno, ty, e, pol, binds, n);
        var x := Fresh(r.n + 1);
        var e2 := if r.exp.Some? then r.exp.value else e;
        PatExp(PCon1(KView, PView(r.pat, LRead, x)), Some(MapResultExp(errno, ByFunction, x, e2)), r.binds, r.n + 1)
    case OCaml(k) => PatExp(PCon0(KOCaml(k)), None, binds, n)
  }

  function Structure(errno: bool, k: Con, e: Exp, pol: Polarity, binds: seq<Binding>, n: nat): PatExp {
    var x := Fresh(n + 1);
    if pol.In? then
      PatExp(PCon1(k, PAny), Some(Ident(x)), binds + [(PCon1(KCPointer, PVar(x)), Appl(Path(CtypesAddr), e))], n + 1)
    else PatExp(PAs(PCon1(k, PAny), x), Some(MapResultExp(errno, ByStructured, x, e)), binds, n + 1)
  }

  /** The record wrapper_state. */
  datatype Wrapper = Wrapper(pat: Pat, exp: Exp, args: seq<Name>, trivial: bool, binds: seq<Binding>, n: nat)

  // Whether every type of the description is supported at its polarity.
  predicate Wrappable(f: Fn, pol: Polarity) {
    match f
    case Returns(t) => PatError(t, Flip(pol)).None?
    case Function(t, rest) => PatError(t, pol).None? && Wrappable(rest, pol)
  }

  /** `wrapper_body`. */
  function WrapperBody(errno: bool, f: Fn, e: Exp, pol: Polarity, binds: seq<Binding>, n: nat): Wrapper
    requires Wrappable(f, pol)
    decreases f
  {
    match f
    case Returns(t) =>
      var r := PatAndExp(errno, t, e, Flip(pol), binds, n);
      (match r.exp
       case None => Wrapper(PCon1(KReturns, r.pat), e, [], true, r.binds, r.n)
       case Some(e1) => Wrapper(PCon1(KReturns, r.pat), e1, [], false, r.binds, r.n))
    case Function(t, rest) =>
      var x := Fresh(n + 1);
      var r := PatAndExp(errno, t, Ident(x), pol, binds, n + 1);
      var arg := if r.exp.Some? then r.exp.value else Ident(x);
      var w := WrapperBody(errno, rest, Appl(e, arg), pol, r.binds, r.n);
      Wrapper(PCon2(KFunction, r.pat, w.pat), w.exp, [x] + w.args, w.trivial && r.exp.None?, w.binds, w.n)
  }

  /** `wrapper`: the external itself when nothing has to be converted. */
  function WrapperFor(errno: bool, f: Fn, pol: Polarity, n: nat): (Pat, Exp)
    requires Wrappable(f, pol)
  {
    var w := WrapperBody(errno, f, Path(External), pol, [], n);
    (w.pat, if w.trivial then LetBind(w.binds, Path(External)) else Fun(w.args, LetBind(w.binds, w.exp)))
  }

  // ---- Reference meaning ----

  /** The OCaml values a type describes, as far as conversions look at them. */
  predicate Fits(h: Host, t: Typ, v: Val) {
    match t
    case Pointer(_) => v.CPointer?
    case Funptr(_) => v.StaticFunptr?
    case Struct(_, _, _) => v.Structured? && v.ptr.CPointer?
    case Union(_, _, _) => v.Structured? && v.ptr.CPointer?
    case View(view, ty) => Fits(h, ty, h.write(view, v))
    case _ => true
  }

  /** From OCaml to what the stub expects. */
  function Lower(h: Host, t: Typ, v: Val): Val
    requires Fits(h, t, v)
  {
    match t
    case Pointer(_) => v.fat
    case Funptr(_) => v.fat
    case Struct(_, _, _) => v.ptr.fat
    case Union(_, _, _) => v.ptr.fat
    case View(view, ty) => Lower(h, ty, h.write(view, v))
    case _ => v
  }

  /** From what the stub returns to OCaml. */
  function Raise(h: Host, t: Typ, v: Val): Val {
    match t
    case Pointer(target) => CPointer(Fat(target, v))
    case Funptr(fn) => StaticFunptr(FatFun(fn, v))
    case Struct(_, _, _) => Structured(CPointer(Fat(t, v)))
    case Union(_, _, _) => Structured(CPointer(Fat(t, v)))
    case View(view, ty) => h.read(view, Raise(h, ty, v))
    case _ => v
  }

  // Under the errno policy the result is a pair and its first component is raised.
  function RaiseResult(h: Host, errno: bool, t: Typ, v: Val): Val
    requires errno ==> v.Tuple? && |v.elems| == 2
  {
    if errno then Tuple([Raise(h, t, v.elems[0]), v.elems[1]]) else Raise(h, t, v)
  }

  // How many views a value of the type goes through.
  function ViewDepth(t: Typ): nat { match t case View(_, ty) => 1 + ViewDepth(ty) case _ => 0 }

  // ---- Names: what patterns bind, what bindings bind ----

  predicate Converted(t: Typ) {
    t.Pointer? || t.Funptr? || t.Struct? || t.Union? || t.View?
  }

  function NextIn(t: Typ, n: nat): (r: nat)
    ensures r >= n
  {
    match t
    case View(_, ty) => NextIn(ty, n + 2)
    case _ => if Converted(t) then n + 1 else n
  }

  function NextOut(t: Typ, n: nat): (r: nat)
    ensures r >= n
  {
    match t
    case View(_, ty) => NextOut(ty, n) + 1
    case _ => if Converted(t) then n + 1 else n
  }

  // The environment a type pattern of an argument, or of a result, binds.
  function InSigma(t: Typ, n: nat): Env {
    match t
    case View(view, ty) => InSigma(ty, n + 2)[Fresh(n + 1) := ViewWrite(view)]
    case _ => map[]
  }

  function OutSigma(t: Typ, n: nat): Env {
    match t
    case Pointer(target) => map[Fresh(n + 1) := TypeDescr(target)]
    case Funptr(fn) => map[Fresh(n + 1) := FnDescr(fn)]
    case Struct(_, _, _) => map[Fresh(n + 1) := TypeDescr(t)]
    case Union(_, _, _) => map[Fresh(n + 1) := TypeDescr(t)]
    case View(view, ty) => OutSigma(ty, n)[Fresh(NextOut(ty, n) + 1) := ViewRead(view)]
    case _ => map[]
  }

  // What the bindings for an argument of value v bind.
  function InEnv(h: Host, t: Typ, v: Val, n: nat): Env
    requires Fits(h, t, v)
  {
    match t
    case View(view, ty) => InEnv(h, ty, h.write(view, v), n + 2)[Fresh(n + 2) := Lower(h, ty, h.write(view, v))]
    case _ => if Converted(t) then map[Fresh(n + 1) := Lower(h, t, v)] else map[]
  }

  predicate Within(env: Env, lo: nat, hi: nat) {
    forall x :: x in env ==> x.Fresh? && lo < x.n <= hi
  }

  lemma {:induction false} InRanges(h: Host, t: Typ, v: Val, n: nat)
    requires Fits(h, t, v)
    ensures Within(InSigma(t, n), n, NextIn(t, n)) && Within(InEnv(h, t, v, n), n, NextIn(t, n))
    ensures InSigma(t, n).Keys !! InEnv(h, t, v, n).Keys
  {
    match t case View(view, ty) => InRanges(h, ty, h.write(view, v), n + 2); case _ =>
  }

  lemma {:induction false} OutRange(t: Typ, n: nat)
    ensures Within(OutSigma(t, n), n, NextOut(t, n))
  {
    match t case View(_, ty) => OutRange(ty, n); case _ =>
  }

  /** A generated pattern matches the type it was generated from, and binds just the
      variables the expression part counts on. */
  lemma {:induction false} PatternMatches(errno: bool, t: Typ, e: Exp, pol: Polarity, binds: seq<Binding>, n: nat)
    requires PatError(t, pol).None?
    ensures var r := PatAndExp(errno, t, e, pol, binds, n);
            && MatchTyp(r.pat, t) == Some(if pol.In? then InSigma(t, n) else OutSigma(t, n))
            && r.n == (if pol.In? then NextIn(t, n) else NextOut(t, n))
            && (r.exp.Some? <==> Converted(t))
            && (pol.Out? || !Converted(t) ==> r.binds == binds)
    decreases t
  {
    if t.View? {
      PatternMatchesView(errno, t, e, pol, binds, n);
    } else {
      PatternMatchesPlain(errno, t, e, pol, binds, n);
    }
  }

  lemma {:induction false} PatternMatchesPlain(errno: bool, t: Typ, e: Exp, pol: Polarity, binds: seq<Binding>, n: nat)
    requires PatError(t, pol).None? && !t.View?
    ensures var r := PatAndExp(errno, t, e, pol, binds, n);
            && MatchTyp(r.pat, t) == Some(if pol.In? then InSigma(t, n) else OutSigma(t, n))
            && r.n == (if pol.In? then NextIn(t, n) else NextOut(t, n))
            && (r.exp.Some? <==> Converted(t))
            && (pol.Out? || !Converted(t) ==> r.binds == binds)
  {
    hide MapResultExp;
    if t.Struct? || t.Union? {
      hide InSigma;
      hide OutSigma;
      StructurePattern(errno, t, e, pol, binds, n);
    } else {
      hide Structure;
    }
  }

  lemma StructurePattern(errno: bool, t: Typ, e: Exp, pol: Polarity, binds: seq<Binding>, n: nat)
    requires t.Struct? || t.Union?
    ensures PatError(t, pol).None?
    ensures var r := PatAndExp(errno, t, e, pol, binds, n);
            && MatchTyp(r.pat, t) == Some(if pol.In? then InSigma(t, n) else OutSigma(t, n))
            && r.exp.Some? && r.n == n + 1 && (pol.Out? ==> r.binds == binds)
  {
    hide MapResultExp;
    if t.Struct? { assert MatchTyp(PCon1(KStruct, PAny), t) == Some(map[]); }
    else { assert MatchTyp(PCon1(KUnion, PAny), t) == Some(map[]); }
  }

  lemma {:induction false} PatternMatchesView(errno: bool, t: Typ, e: Exp, pol: Polarity, binds: seq<Binding>, n: nat)
    requires PatError(t, pol).None? && t.View?
    ensures var r := PatAndExp(errno, t, e, pol, binds, n);
            && MatchTyp(r.pat, t) == Some(if pol.In? then InSigma(t, n) else OutSigma(t, n))
            && r.n == (if pol.In? then NextIn(t, n) else NextOut(t, n))
            && r.exp.Some? && (pol.Out? ==> r.binds == binds)
    decreases t, 0
  {
    hide MatchTyp;
    hide PatAndExp;
    hide PatError;
    PatErrorView(t, pol);
    if pol.In? {
      var e1 := Appl(Ident(Fresh(n + 1)), e);
      ViewPattern(errno, t.view, t.ty, e, binds, n);
      PatternMatches(errno, t.ty, e1, pol, binds, n + 2);
      MatchView(PatAndExp(errno, t.ty, e1, pol, binds, n + 2).pat, LWrite, Fresh(n + 1), t);
    } else {
      ViewPatternOut(errno, t.view, t.ty, e, binds, n);
      PatternMatches(errno, t.ty, e, pol, binds, n);
      MatchView(PatAndExp(errno, t.ty, e, pol, binds, n).pat, LRead, Fresh(NextOut(t.ty, n) + 1), t);
    }
  }

  lemma MatchView(q: Pat, l: Label, x: Name, t: Typ)
    requires t.View? && MatchTyp(q, t.ty).Some?
    ensures MatchTyp(PCon1(KView, PView(q, l, x)), t) ==
            Some(MatchTyp(q, t.ty).value[x := if l.LRead? then ViewRead(t.view) else ViewWrite(t.view)])
  {
  }

  lemma ViewPatternOut(errno: bool, view: ViewInfo, ty: Typ, e: Exp, binds: seq<Binding>, n: nat)
    requires PatError(View(view, ty), Out).None? && PatError(ty, Out).None?
    ensures var r := PatAndExp(errno, ty, e, Out, binds, n);
            var x := Fresh(r.n + 1);
            PatAndExp(errno, View(view, ty), e, Out, binds, n) ==
              PatExp(PCon1(KView, PView(r.pat, LRead, x)),
                     Some(MapResultExp(errno, ByFunction, x, if r.exp.Some? then r.exp.value else e)), r.binds, r.n + 1)
  {
    hide MapResultExp;
  }

  lemma PatErrorView(t: Typ, pol: Polarity)
    requires t.View? && PatError(t, pol).None?
    ensures PatError(t.ty, pol).None?
  {
  }

  // ---- Lowering ----

  ghost predicate Sub(a: Env, b: Env) {
    forall x :: x in a ==> x in b && b[x] == a[x]
  }

  // The bindings bind exactly `m`, with `k` runs of view writes, wherever `base` holds.
  ghost predicate Pure(h: Host, binds: seq<Binding>, base: Env, m: Env, k: nat) {
    forall env: Env, s: State {:trigger RunBinds(h, binds, env, s)} ::
      Sub(base, env) ==> RunBinds(h, binds, env, s) == Some((env + m, Wrote(s, k)))
  }

  ghost predicate Evals(h: Host, e: Exp, base: Env, v: Val, k: nat) {
    forall env: Env, s: State {:trigger EvalML(h, e, env, s)} :: Sub(base, env) ==> EvalML(h, e, env, s) == (v, Wrote(s, k))
  }

  /** A binding put at the end of the list takes effect before the others. */
  lemma AppendBinding(h: Host, binds: seq<Binding>, base: Env, m: Env, k: nat, p: Pat, x: Name, e: Exp, v: Val, low: Val, ke: nat)
    requires Pure(h, binds, base, m, k) && Evals(h, e, base, v, ke)
    requires MatchVal(p, v) == Some(map[x := low]) && x !in base && x !in m
    ensures Pure(h, binds + [(p, e)], base, m[x := low], k + ke)
  {
    forall env: Env, s: State | Sub(base, env)
      ensures RunBinds(h, binds + [(p, e)], env, s) == Some((env + m[x := low], Wrote(s, k + ke)))
    {
      hide EvalML;
      assert (binds + [(p, e)])[..|binds|] == binds;
      var env1 := env + map[x := low];
      assert Sub(base, env1);
      assert RunBinds(h, binds, env1, Wrote(s, ke)) == Some((env1 + m, Wrote(s, ke + k)));
      assert env1 + m == env + m[x := low];
    }
  }

  /** A binding put at the front takes effect after the others and may use them. */
  lemma {:induction false} PrependBinding(h: Host, binds: seq<Binding>, base: Env, m: Env, k: nat, y: Name, e: Exp, v: Val, ke: nat)
    requires Pure(h, binds, base, m, k) && Evals(h, e, base + m, v, ke)
    requires m.Keys !! base.Keys
    ensures Pure(h, [(PVar(y), e)] + binds, base, m[y := v], k + ke)
  {
    forall env: Env, s: State | Sub(base, env)
      ensures RunBinds(h, [(PVar(y), e)] + binds, env, s) == Some((env + m[y := v], Wrote(s, k + ke)))
    {
      hide EvalML;
      hide RunBinds;
      assert Sub(base + m, env + m);
      assert EvalML(h, e, env + m, Wrote(s, k)) == (v, Wrote(s, k + ke));
      PrependOne(h, binds, env, s, m, Wrote(s, k), y, e, v, Wrote(s, k + ke));
    }
  }

  lemma {:induction false} PrependOne(h: Host, binds: seq<Binding>, env: Env, s: State, m: Env, s1: State, y: Name, e: Exp, v: Val, s2: State)
    requires RunBinds(h, binds, env, s) == Some((env + m, s1)) && EvalML(h, e, env + m, s1) == (v, s2)
    ensures RunBinds(h, [(PVar(y), e)] + binds, env, s) == Some((env + m[y := v], s2))
  {
    hide EvalML;
    hide RunBinds;
    RunBindsAppend(h, [(PVar(y), e)], binds, env, s);
    OneBinding(h, PVar(y), e, env + m, s1);
    assert env + m + map[y := v] == env + m[y := v];
  }

  lemma IdentEvals(h: Host, x: Name, base: Env, v: Val)
    requires x in base && base[x] == v
    ensures Evals(h, Ident(x), base, v, 0)
  {
    forall env: Env, s: State | Sub(base, env) ensures EvalML(h, Ident(x), env, s) == (v, Wrote(s, 0)) {
      assert env[x] == base[x];
    }
  }

  lemma WriteEvals(h: Host, x: Name, view: ViewInfo, e: Exp, base: Env, v: Val, ke: nat)
    requires x in base && base[x] == ViewWrite(view) && Evals(h, e, base, v, ke)
    ensures Evals(h, Appl(Ident(x), e), base, h.write(view, v), ke + 1)
  {
    forall env: Env, s: State | Sub(base, env)
      ensures EvalML(h, Appl(Ident(x), e), env, s) == (h.write(view, v), Wrote(s, ke + 1)) {
      assert env[x] == base[x];
      assert EvalML(h, e, env, s) == (v, Wrote(s, ke));
    }
  }

  lemma AddrEvals(h: Host, e: Exp, base: Env, v: Val, ke: nat)
    requires Evals(h, e, base, v, ke) && v.Structured?
    ensures Evals(h, Appl(Path(CtypesAddr), e), base, v.ptr, ke)
  {
    forall env: Env, s: State | Sub(base, env)
      ensures EvalML(h, Appl(Path(CtypesAddr), e), env, s) == (v.ptr, Wrote(s, ke)) {
      assert EvalML(h, e, env, s) == (v, Wrote(s, ke));
    }
  }

  lemma EvalsMore(h: Host, e: Exp, base: Env, more: Env, v: Val, k: nat)
    requires Evals(h, e, base, v, k) && base.Keys !! more.Keys
    ensures Evals(h, e, base + more, v, k)
  {
    forall env: Env, s: State | Sub(base + more, env) ensures EvalML(h, e, env, s) == (v, Wrote(s, k)) {
      forall x | x in base ensures x in env && env[x] == base[x] { assert (base + more)[x] == base[x]; }
      assert Sub(base, env);
    }
  }

  /** Lowering one argument: its bindings compute the lowered value, running each of
      its views' write functions once, and disturb nothing else. */
  lemma {:induction false} LowerMeaning(h: Host, errno: bool, t: Typ, e: Exp, binds: seq<Binding>, n: nat,
                                        base: Env, m: Env, v: Val, k: nat, ke: nat)
    requires PatError(t, In).None? && Fits(h, t, v) && Converted(t)
    requires Pure(h, binds, base, m, k) && Evals(h, e, base, v, ke) && Sub(InSigma(t, n), base)
    requires m.Keys !! base.Keys && InEnv(h, t, v, n).Keys !! base.Keys && InEnv(h, t, v, n).Keys !! m.Keys
    ensures var r := PatAndExp(errno, t, e, In, binds, n);
            && r.exp.Some?
            && Pure(h, r.binds, base, m + InEnv(h, t, v, n), k + ke + ViewDepth(t))
            && Evals(h, r.exp.value, base + (m + InEnv(h, t, v, n)), Lower(h, t, v), 0)
    decreases t
  {
    hide Pure;
    hide Evals;
    hide MatchTyp;
    hide MapResultExp;
    hide Sub;
    hide RunBinds;
    var x := Fresh(n + 1);
    match t
    case Pointer(_) => LowerSimple(h, binds, base, m, k, PCon1(KCPointer, PVar(x)), x, e, v, v.fat, ke);
    case Funptr(_) => LowerSimple(h, binds, base, m, k, PCon1(KStaticFunptr, PVar(x)), x, e, v, v.fat, ke);
    case Struct(_, _, _) =>
      AddrEvals(h, e, base, v, ke);
      LowerSimple(h, binds, base, m, k, PCon1(KCPointer, PVar(x)), x, Appl(Path(CtypesAddr), e), v.ptr, v.ptr.fat, ke);
    case Union(_, _, _) =>
      AddrEvals(h, e, base, v, ke);
      LowerSimple(h, binds, base, m, k, PCon1(KCPointer, PVar(x)), x, Appl(Path(CtypesAddr), e), v.ptr, v.ptr.fat, ke);
    case View(view, ty) => LowerView(h, errno, view, ty, e, binds, n, base, m, v, k, ke);
  }

  lemma LowerSimple(h: Host, binds: seq<Binding>, base: Env, m: Env, k: nat, p: Pat, x: Name, e: Exp, v: Val, low: Val, ke: nat)
    requires Pure(h, binds, base, m, k) && Evals(h, e, base, v, ke)
    requires MatchVal(p, v) == Some(map[x := low]) && x !in base && x !in m
    ensures Pure(h, binds + [(p, e)], base, m + map[x := low], k + ke)
    ensures Evals(h, Ident(x), base + (m + map[x := low]), low, 0)
  {
    AppendBinding(h, binds, base, m, k, p, x, e, v, low, ke);
    assert m[x := low] == m + map[x := low];
    IdentEvals(h, x, base + (m + map[x := low]), low);
  }

  lemma ViewNames(h: Host, view: ViewInfo, ty: Typ, v: Val, n: nat, base: Env)
    requires Fits(h, View(view, ty), v) && Sub(InSigma(View(view, ty), n), base)
    ensures Fresh(n + 1) in base && base[Fresh(n + 1)] == ViewWrite(view)
    ensures Sub(InSigma(ty, n + 2), base)
    ensures var wv := h.write(view, v); var inner := InEnv(h, ty, wv, n + 2);
            && InEnv(h, View(view, ty), v, n) == inner[Fresh(n + 2) := Lower(h, ty, wv)]
            && Within(inner, n + 2, NextIn(ty, n + 2))
    ensures Fits(h, ty, h.write(view, v)) && Lower(h, View(view, ty), v) == Lower(h, ty, h.write(view, v))
    ensures ViewDepth(View(view, ty)) == 1 + ViewDepth(ty)
  {
    InRanges(h, ty, h.write(view, v), n + 2);
    assert InSigma(View(view, ty), n)[Fresh(n + 1)] == ViewWrite(view);
    forall z | z in InSigma(ty, n + 2) ensures z in base && base[z] == InSigma(ty, n + 2)[z] {
      assert InSigma(View(view, ty), n)[z] == InSigma(ty, n + 2)[z];
    }
  }

  lemma {:induction false} LowerView(h: Host, errno: bool, view: ViewInfo, ty: Typ, e: Exp, binds: seq<Binding>, n: nat,
                                     base: Env, m: Env, v: Val, k: nat, ke: nat)
    requires var t := View(view, ty);
      && PatError(t, In).None? && Fits(h, t, v)
      && Pure(h, binds, base, m, k) && Evals(h, e, base, v, ke) && Sub(InSigma(t, n), base)
      && m.Keys !! base.Keys && InEnv(h, t, v, n).Keys !! base.Keys && InEnv(h, t, v, n).Keys !! m.Keys
    ensures var t := View(view, ty);
            var r := PatAndExp(errno, t, e, In, binds, n);
            && r.exp.Some?
            && Pure(h, r.binds, base, m + InEnv(h, t, v, n), k + ke + ViewDepth(t))
            && Evals(h, r.exp.value, base + (m + InEnv(h, t, v, n)), Lower(h, t, v), 0)
    decreases View(view, ty), 0
  {
    hide PatAndExp;
    hide MapResultExp;
    hide Pure;
    hide Evals;
    hide InSigma;
    hide InEnv;
    hide Lower;
    hide Fits;
    hide ViewDepth;
    hide MatchTyp;
    hide PatError;
    hide Sub;
    var t := View(view, ty);
    PatErrorView(t, In);
    ViewPattern(errno, view, ty, e, binds, n);
    var x, y, wv := Fresh(n + 1), Fresh(n + 2), h.write(view, v);
    var e1 := Appl(Ident(x), e);
    ViewNames(h, view, ty, v, n, base);
    var inner := InEnv(h, ty, wv, n + 2);
    var low := Lower(h, ty, wv);
    WriteEvals(h, x, view, e, base, v, ke);
    PatternMatches(errno, ty, e1, In, binds, n + 2);
    var r := PatAndExp(errno, ty, e1, In, binds, n + 2);
    if Converted(ty) {
      LowerMeaning(h, errno, ty, e1, binds, n + 2, base, m, wv, k, ke + 1);
      PrependBinding(h, r.binds, base, m + inner, k + ke + 1 + ViewDepth(ty), y, r.exp.value, low, 0);
    } else {
      EvalsMore(h, e1, base, m, wv, ke + 1);
      PrependBinding(h, binds, base, m, k, y, e1, wv, ke + 1);
      NothingConverted(h, ty, wv, n + 2);
      assert m[y := wv] == m + map[y := wv];
    }
    assert (m + inner)[y := low] == m + inner[y := low];
    IdentEvals(h, y, base + (m + inner[y := low]), low);
  }

  lemma ViewPattern(errno: bool, view: ViewInfo, ty: Typ, e: Exp, binds: seq<Binding>, n: nat)
    requires PatError(View(view, ty), In).None? && PatError(ty, In).None?
    ensures var e1 := Appl(Ident(Fresh(n + 1)), e);
            var r := PatAndExp(errno, ty, e1, In, binds, n + 2);
            PatAndExp(errno, View(view, ty), e, In, binds, n) ==
              PatExp(PCon1(KView, PView(r.pat, LWrite, Fresh(n + 1))), Some(Ident(Fresh(n + 2))),
                     [(PVar(Fresh(n + 2)), if r.exp.Some? then r.exp.value else e1)] + r.binds, r.n)
  {
    hide MapResultExp;
  }

  lemma NothingConverted(h: Host, t: Typ, v: Val, n: nat)
    requires !Converted(t)
    ensures Fits(h, t, v) && InEnv(h, t, v, n) == map[] && Lower(h, t, v) == v && ViewDepth(t) == 0
  {
  }

  // ---- Raising ----

  // An expression whose value is the external's reply, or not yet a value.
  lemma {:induction false} RaiseMeaning(h: Host, errno: bool, t: Typ, e: Exp, binds: seq<Binding>, n: nat,
                                        env: Env, s: State, v: Val, s1: State)
    requires PatError(t, Out).None? && EvalML(h, e, env, s) == (v, s1) && Sub(OutSigma(t, n), env)
    requires errno ==> v.Tuple? && |v.elems| == 2
    ensures var r := PatAndExp(errno, t, e, Out, binds, n);
            EvalML(h, if r.exp.Some? then r.exp.value else e, env, s) == (RaiseResult(h, errno, t, v), s1)
    decreases t
  {
    hide MatchTyp;
    hide MapResultExp;
    hide EvalML;
    PatternMatches(errno, t, e, Out, binds, n);
    if errno { assert v.elems == [v.elems[0], v.elems[1]]; }
    match t
    case View(view, ty) => RaiseView(h, errno, view, ty, e, binds, n, env, s, v, s1);
    case Pointer(_) => RaiseOne(h, errno, ByPtr, t, Fresh(n + 1), e, env, s, v, s1);
    case Funptr(_) => RaiseOne(h, errno, ByFunPtr, t, Fresh(n + 1), e, env, s, v, s1);
    case Struct(_, _, _) => RaiseOne(h, errno, ByStructured, t, Fresh(n + 1), e, env, s, v, s1);
    case Union(_, _, _) => RaiseOne(h, errno, ByStructured, t, Fresh(n + 1), e, env, s, v, s1);
    case _ =>
  }

  // What a variable bound by a type pattern must hold for each way of raising.
  predicate RaisesWith(r: Raiser, t: Typ, d: Val) {
    match r
    case ByPtr => t.Pointer? && d == TypeDescr(t.target)
    case ByFunPtr => t.Funptr? && d == FnDescr(t.fn)
    case ByStructured => (t.Struct? || t.Union?) && d == TypeDescr(t)
    case ByFunction => false
  }

  lemma RaiseOne(h: Host, errno: bool, r: Raiser, t: Typ, x: Name, e: Exp, env: Env, s: State, v: Val, s1: State)
    requires EvalML(h, e, env, s) == (v, s1) && RaisesWith(r, t, Lookup(env, x))
    requires errno ==> v.Tuple? && |v.elems| == 2
    ensures EvalML(h, MapResultExp(errno, r, x, e), env, s) == (RaiseResult(h, errno, t, v), s1)
  {
    var d := Lookup(env, x);
    if errno {
      var f := match r
        case ByPtr => CIMakePtr case ByFunPtr => CIMakeFunPtr case ByStructured => CIMakeStructured;
      assert [] + [d] == [d];
      assert EvalML(h, Appl(Path(f), Ident(x)), env, s1) == (Applied(f, [d]), s1);
      MapResultMeaning(h, Appl(Path(f), Ident(x)), Applied(f, [d]), e, env, s, v, s1);
    }
  }

  lemma ApplEvals(h: Host, f: Exp, e: Exp, env: Env, s: State)
    ensures var (v, s1) := EvalML(h, e, env, s); var (g, s2) := EvalML(h, f, env, s1);
            EvalML(h, Appl(f, e), env, s) == Apply(h, g, v, s2)
  {
  }

  lemma MapResultMeaning(h: Host, f: Exp, fv: Val, e: Exp, env: Env, s: State, v: Val, s1: State)
    requires EvalML(h, e, env, s) == (v, s1) && EvalML(h, f, env, s1) == (fv, s1) && v.Tuple? && |v.elems| == 2
    ensures EvalML(h, Appl(Appl(Path(MapResult), f), e), env, s) == (Tuple([ApplyPure(h, fv, v.elems[0]), v.elems[1]]), s1)
  {
    hide ApplyPure;
    assert EvalML(h, Appl(Path(MapResult), f), env, s1) == (Applied(MapResult, [fv]), s1) by { assert [] + [fv] == [fv]; }
    hide EvalML;
    assert [fv] + [v] == [fv, v];
    ApplEvals(h, Appl(Path(MapResult), f), e, env, s);
  }

  lemma OutNames(view: ViewInfo, ty: Typ, n: nat, env: Env)
    requires Sub(OutSigma(View(view, ty), n), env)
    ensures Sub(OutSigma(ty, n), env) && Lookup(env, Fresh(NextOut(ty, n) + 1)) == ViewRead(view)
  {
    OutRange(ty, n);
    var sigma := OutSigma(View(view, ty), n);
    assert sigma == OutSigma(ty, n)[Fresh(NextOut(ty, n) + 1) := ViewRead(view)];
    hide OutSigma;
    hide NextOut;
    forall z | z in OutSigma(ty, n) ensures z in env && env[z] == OutSigma(ty, n)[z] {
      assert sigma[z] == OutSigma(ty, n)[z];
    }
    assert sigma[Fresh(NextOut(ty, n) + 1)] == ViewRead(view);
  }

  lemma {:induction false} RaiseView(h: Host, errno: bool, view: ViewInfo, ty: Typ, e: Exp, binds: seq<Binding>, n: nat,
                                     env: Env, s: State, v: Val, s1: State)
    requires PatError(View(view, ty), Out).None? && EvalML(h, e, env, s) == (v, s1) && Sub(OutSigma(View(view, ty), n), env)
    requires errno ==> v.Tuple? && |v.elems| == 2
    ensures var r := PatAndExp(errno, View(view, ty), e, Out, binds, n);
            EvalML(h, if r.exp.Some? then r.exp.value else e, env, s) == (RaiseResult(h, errno, View(view, ty), v), s1)
    decreases View(view, ty), 0
  {
    hide PatAndExp;
    hide MatchTyp;
    hide PatError;
    hide InSigma;
    hide NextIn;
    PatErrorView(View(view, ty), Out);
    ViewPatternOut(errno, view, ty, e, binds, n);
    PatternMatches(errno, ty, e, Out, binds, n);
    var x := Fresh(NextOut(ty, n) + 1);
    OutNames(view, ty, n, env);
    hide Sub;
    hide OutSigma;
    hide NextOut;
    RaiseMeaning(h, errno, ty, e, binds, n, env, s, v, s1);
    var r := PatAndExp(errno, ty, e, Out, binds, n);
    var inner := if r.exp.Some? then r.exp.value else e;
    if errno { MapResultMeaning(h, Ident(x), ViewRead(view), inner, env, s, RaiseResult(h, errno, ty, v), s1); }
  }

  // ---- A result at polarity In: a callback's result on its way to C ----

  lemma {:induction false} ReturnLowered(h: Host, errno: bool, t: Typ, e: Exp, n: nat, env: Env, s: State, v: Val, s1: State)
    requires PatError(t, In).None? && Fits(h, t, v) && EvalML(h, e, env, s) == (v, s1) && Sub(InSigma(t, n), env)
    requires Converted(t)
    ensures var r := PatAndExp(errno, t, e, In, [], n);
            && r.exp.Some?
            && RunBinds(h, r.binds, env, s) == Some((env + InEnv(h, t, v, n), Wrote(s1, ViewDepth(t))))
            && forall s2: State {:trigger EvalML(h, r.exp.value, env + InEnv(h, t, v, n), s2)} ::
                 EvalML(h, r.exp.value, env + InEnv(h, t, v, n), s2) == (Lower(h, t, v), s2)
    decreases t
  {
    hide MapResultExp;
    hide RunBinds;
    var x := Fresh(n + 1);
    assert [] + [(PCon1(KCPointer, PVar(x)), e)] == [(PCon1(KCPointer, PVar(x)), e)];
    match t
    case Pointer(_) => OneResult(h, PCon1(KCPointer, PVar(x)), x, e, env, s, v, v.fat, s1);
    case Funptr(_) => OneResult(h, PCon1(KStaticFunptr, PVar(x)), x, e, env, s, v, v.fat, s1);
    case Struct(_, _, _) => OneStructure(h, x, e, env, s, v, s1);
    case Union(_, _, _) => OneStructure(h, x, e, env, s, v, s1);
    case View(view, ty) => ReturnView(h, errno, view, ty, e, n, env, s, v, s1);
  }

  lemma OneBinding(h: Host, p: Pat, e: Exp, env: Env, s: State)
    ensures [] + [(p, e)] == [(p, e)]
    ensures RunBinds(h, [(p, e)], env, s) ==
            var (v, s1) := EvalML(h, e, env, s);
            match MatchVal(p, v) case None => None case Some(sigma) => Some((env + sigma, s1))
  {
    assert [(p, e)][..0] == [];
  }

  lemma OneResult(h: Host, p: Pat, x: Name, e: Exp, env: Env, s: State, v: Val, low: Val, s1: State)
    requires EvalML(h, e, env, s) == (v, s1) && MatchVal(p, v) == Some(map[x := low])
    ensures [] + [(p, e)] == [(p, e)]
    ensures RunBinds(h, [(p, e)], env, s) == Some((env + map[x := low], Wrote(s1, 0)))
    ensures forall s2: State {:trigger EvalML(h, Ident(x), env + map[x := low], s2)} ::
              EvalML(h, Ident(x), env + map[x := low], s2) == (low, s2)
  {
    OneBinding(h, p, e, env, s);
  }

  lemma OneStructure(h: Host, x: Name, e: Exp, env: Env, s: State, v: Val, s1: State)
    requires EvalML(h, e, env, s) == (v, s1) && v.Structured? && v.ptr.CPointer?
    ensures var b := (PCon1(KCPointer, PVar(x)), Appl(Path(CtypesAddr), e));
            && [] + [b] == [b]
            && RunBinds(h, [b], env, s) == Some((env + map[x := v.ptr.fat], Wrote(s1, 0)))
    ensures forall s2: State {:trigger EvalML(h, Ident(x), env + map[x := v.ptr.fat], s2)} ::
              EvalML(h, Ident(x), env + map[x := v.ptr.fat], s2) == (v.ptr.fat, s2)
  {
    assert [] + [v] == [v];
    OneResult(h, PCon1(KCPointer, PVar(x)), x, Appl(Path(CtypesAddr), e), env, s, v.ptr, v.ptr.fat, s1);
  }

  lemma {:induction false} ReturnView(h: Host, errno: bool, view: ViewInfo, ty: Typ, e: Exp, n: nat,
                                      env: Env, s: State, v: Val, s1: State)
    requires PatError(View(view, ty), In).None? && Fits(h, View(view, ty), v) && EvalML(h, e, env, s) == (v, s1)
    requires Sub(InSigma(View(view, ty), n), env)
    ensures var t := View(view, ty);
            var r := PatAndExp(errno, t, e, In, [], n);
            && r.exp.Some?
            && RunBinds(h, r.binds, env, s) == Some((env + InEnv(h, t, v, n), Wrote(s1, ViewDepth(t))))
            && forall s2: State {:trigger EvalML(h, r.exp.value, env + InEnv(h, t, v, n), s2)} ::
                 EvalML(h, r.exp.value, env + InEnv(h, t, v, n), s2) == (Lower(h, t, v), s2)
    decreases View(view, ty), 0
  {
    hide PatAndExp;
    hide InSigma;
    hide InEnv;
    hide Lower;
    hide Fits;
    hide ViewDepth;
    hide MatchTyp;
    hide PatError;
    hide Sub;
    var t := View(view, ty);
    PatErrorView(t, In);
    ViewPattern(errno, view, ty, e, [], n);
    var x, y, wv := Fresh(n + 1), Fresh(n + 2), h.write(view, v);
    var e1 := Appl(Ident(x), e);
    ViewNames(h, view, ty, v, n, env);
    assert EvalML(h, e1, env, s) == (wv, Wrote(s1, 1));
    hide EvalML;
    PatternMatches(errno, ty, e1, In, [], n + 2);
    var r := PatAndExp(errno, ty, e1, In, [], n + 2);
    var inner, low := InEnv(h, ty, wv, n + 2), Lower(h, ty, wv);
    if Converted(ty) {
      ReturnLowered(h, errno, ty, e1, n + 2, env, s, wv, Wrote(s1, 1));
      ReturnFront(h, r.binds, y, r.exp.value, low, env, s, inner, Wrote(s1, 1 + ViewDepth(ty)));
    } else {
      NothingConverted(h, ty, wv, n + 2);
      assert env + inner == env;
      assert RunBinds(h, [], env, s) == Some((env, s));
      OneResult(h, PVar(y), y, e1, env, s, wv, wv, Wrote(s1, 1));
      assert [(PVar(y), e1)] + [] == [(PVar(y), e1)];
      assert inner[y := low] == map[y := wv];
    }
  }

  lemma ReturnFront(h: Host, binds: seq<Binding>, y: Name, e: Exp, low: Val, env: Env, s: State, inner: Env, s1: State)
    requires RunBinds(h, binds, env, s) == Some((env + inner, s1)) && EvalML(h, e, env + inner, s1) == (low, s1)
    ensures RunBinds(h, [(PVar(y), e)] + binds, env, s) == Some((env + inner[y := low], s1))
    ensures forall s2: State {:trigger EvalML(h, Ident(y), env + inner[y := low], s2)} ::
              EvalML(h, Ident(y), env + inner[y := low], s2) == (low, s2)
  {
    RunBindsAppend(h, [(PVar(y), e)], binds, env, s);
    OneBinding(h, PVar(y), e, env + inner, s1);
    assert env + inner[y := low] == (env + inner) + map[y := low];
  }

  // ---- Whole descriptions ----

  predicate FitsAll(h: Host, f: Fn, args: seq<Val>) {
    match f
    case Returns(_) => args == []
    case Function(t, rest) => args != [] && Fits(h, t, args[0]) && FitsAll(h, rest, args[1..])
  }

  function LowerAll(h: Host, f: Fn, args: seq<Val>): (r: seq<Val>)
    requires FitsAll(h, f, args)
    ensures |r| == |args|
  {
    match f
    case Returns(_) => []
    case Function(t, rest) => [Lower(h, t, args[0])] + LowerAll(h, rest, args[1..])
  }

  function RaiseAll(h: Host, f: Fn, args: seq<Val>): (r: seq<Val>)
    requires |args| == |Params(f)|
    ensures |r| == |args|
  {
    match f
    case Returns(_) => []
    case Function(t, rest) => [Raise(h, t, args[0])] + RaiseAll(h, rest, args[1..])
  }

  function AllViews(f: Fn): nat {
    match f case Returns(_) => 0 case Function(t, rest) => ViewDepth(t) + AllViews(rest)
  }

  // The variables generated for a description at polarity In: arguments, pattern
  // variables, bound variables.
  function ArgNames(f: Fn, pol: Polarity, n: nat): seq<Name> {
    match f
    case Returns(_) => []
    case Function(t, rest) => [Fresh(n + 1)] + ArgNames(rest, pol, Next(t, pol, n + 1))
  }

  function Next(t: Typ, pol: Polarity, n: nat): nat { if pol.In? then NextIn(t, n) else NextOut(t, n) }

  function Sigma(t: Typ, pol: Polarity, n: nat): Env { if pol.In? then InSigma(t, n) else OutSigma(t, n) }

  function FnSigma(f: Fn, pol: Polarity, n: nat): Env {
    match f
    case Returns(t) => Sigma(t, Flip(pol), n)
    case Function(t, rest) => Sigma(t, pol, n + 1) + FnSigma(rest, pol, Next(t, pol, n + 1))
  }

  function AllInEnv(h: Host, f: Fn, args: seq<Val>, n: nat): Env
    requires FitsAll(h, f, args)
  {
    match f
    case Returns(_) => map[]
    case Function(t, rest) => InEnv(h, t, args[0], n + 1) + AllInEnv(h, rest, args[1..], NextIn(t, n + 1))
  }

  function ArgEnv(xs: seq<Name>, args: seq<Val>): Env
    requires |xs| == |args|
  {
    if xs == [] then map[] else map[xs[0] := args[0]] + ArgEnv(xs[1..], args[1..])
  }

  predicate Above(env: Env, n: nat) { forall x :: x in env ==> x.Fresh? && x.n > n }

  lemma {:induction false} SigmaRange(t: Typ, pol: Polarity, n: nat)
    ensures Within(Sigma(t, pol, n), n, Next(t, pol, n)) && Next(t, pol, n) >= n
  {
    if pol.In? { InSigmaRange(t, n); } else { OutRange(t, n); }
  }

  lemma {:induction false} InSigmaRange(t: Typ, n: nat)
    ensures Within(InSigma(t, n), n, NextIn(t, n))
  {
    match t case View(_, ty) => InSigmaRange(ty, n + 2); case _ =>
  }

  lemma {:induction false} ArgNamesAbove(f: Fn, pol: Polarity, n: nat)
    ensures |ArgNames(f, pol, n)| == |Params(f)|
    ensures forall x :: x in ArgNames(f, pol, n) ==> x.Fresh? && x.n > n
    decreases f
  {
    match f
    case Returns(_) =>
    case Function(t, rest) => ArgNamesAbove(rest, pol, Next(t, pol, n + 1)); SigmaRange(t, pol, n + 1);
  }

  lemma {:induction false} ArgEnvKeys(xs: seq<Name>, args: seq<Val>)
    requires |xs| == |args|
    ensures forall x :: x in ArgEnv(xs, args) <==> x in xs
  {
    if xs != [] { ArgEnvKeys(xs[1..], args[1..]); assert xs == [xs[0]] + xs[1..]; }
  }

  lemma {:induction false} FnSigmaAbove(f: Fn, pol: Polarity, n: nat)
    ensures Above(FnSigma(f, pol, n), n)
    decreases f
  {
    match f
    case Returns(t) => SigmaRange(t, Flip(pol), n);
    case Function(t, rest) =>
      FnSigmaAbove(rest, pol, Next(t, pol, n + 1));
      SigmaRange(t, pol, n + 1);
  }

  lemma {:induction false} AllInEnvAbove(h: Host, f: Fn, args: seq<Val>, n: nat)
    requires FitsAll(h, f, args)
    ensures Above(AllInEnv(h, f, args, n), n)
    decreases f
  {
    match f
    case Returns(_) =>
    case Function(t, rest) =>
      AllInEnvAbove(h, rest, args[1..], NextIn(t, n + 1));
      InRanges(h, t, args[0], n + 1);
  }

  /** Hygiene: the three groups of generated variables never meet. */
  lemma {:induction false} NamesNeverMeet(h: Host, f: Fn, args: seq<Val>, n: nat)
    requires FitsAll(h, f, args)
    ensures |ArgNames(f, In, n)| == |args|
    ensures var arg := ArgEnv(ArgNames(f, In, n), args);
            && FnSigma(f, In, n).Keys !! arg.Keys
            && AllInEnv(h, f, args, n).Keys !! (FnSigma(f, In, n) + arg).Keys
    decreases f
  {
    match f
    case Returns(_) =>
    case Function(t, rest) =>
      var n1 := NextIn(t, n + 1);
      NamesNeverMeet(h, rest, args[1..], n1);
      InRanges(h, t, args[0], n + 1);
      ArgNamesAbove(rest, In, n1);
      ArgEnvKeys(ArgNames(rest, In, n1), args[1..]);
      FnSigmaAbove(rest, In, n1);
      AllInEnvAbove(h, rest, args[1..], n1);
      assert ArgNames(f, In, n)[1..] == ArgNames(rest, In, n1);
      DisjointRanges(n + 1, n1, args[0], InSigma(t, n + 1), InEnv(h, t, args[0], n + 1),
        FnSigma(rest, In, n1), ArgEnv(ArgNames(rest, In, n1), args[1..]), AllInEnv(h, rest, args[1..], n1));
  }

  // One argument's names and the names of the rest.
  lemma DisjointRanges(x: nat, n1: nat, v: Val, s0: Env, b0: Env, s1: Env, a1: Env, b1: Env)
    requires x <= n1 && Within(s0, x, n1) && Within(b0, x, n1) && s0.Keys !! b0.Keys
    requires Above(s1, n1) && Above(a1, n1) && Above(b1, n1)
    requires s1.Keys !! a1.Keys && b1.Keys !! (s1 + a1).Keys
    ensures var a := map[Fresh(x) := v] + a1;
            && (s0 + s1).Keys !! a.Keys && (b0 + b1).Keys !! (s0 + s1 + a).Keys
  {
    assert (s1 + a1).Keys == s1.Keys + a1.Keys;
  }

  // ---- Every generated variable is bound once ----

  // How often a name is bound.
  function One(x: Name, y: Name): nat { if x == y then 1 else 0 }

  function InPat(x: Name, p: Pat): nat {
    match p
    case PVar(y) => One(x, y)
    case PAs(q, y) => InPat(x, q) + One(x, y)
    case PCon1(_, q) => InPat(x, q)
    case PCon2(_, q, r) => InPat(x, q) + InPat(x, r)
    case PCon3(_, q, r, s) => InPat(x, q) + InPat(x, r) + InPat(x, s)
    case PView(q, _, y) => InPat(x, q) + One(x, y)
    case _ => 0
  }

  function InBinds(x: Name, binds: seq<Binding>): nat {
    if binds == [] then 0 else InPat(x, binds[0].0) + InBinds(x, binds[1..])
  }

  function InNames(x: Name, xs: seq<Name>): nat { if xs == [] then 0 else One(x, xs[0]) + InNames(x, xs[1..]) }

  lemma {:induction false} InBindsAppend(x: Name, a: seq<Binding>, b: seq<Binding>)
    ensures InBinds(x, a + b) == InBinds(x, a) + InBinds(x, b)
    decreases |a|
  {
    hide InPat;
    if a == [] { assert a + b == b; } else {
      InBindsAppend(x, a[1..], b);
      assert (a + b)[1..] == a[1..] + b;
    }
  }

  lemma OneBind(x: Name, p: Pat, e: Exp)
    ensures InBinds(x, [(p, e)]) == InPat(x, p)
  {
    hide InPat;
    assert InBinds(x, [(p, e)][1..]) == 0;
  }

  // At most once, and then the name was given out by the counter between the two values.
  predicate Given(x: Name, times: int, lo: nat, hi: nat) {
    0 <= times <= 1 && (times == 1 ==> x.Fresh? && lo < x.n <= hi)
  }

  lemma {:induction false} PatExpGives(x: Name, errno: bool, t: Typ, e: Exp, pol: Polarity, binds: seq<Binding>, n: nat)
    requires PatError(t, pol).None?
    ensures var r := PatAndExp(errno, t, e, pol, binds, n);
            Given(x, InPat(x, r.pat) + InBinds(x, r.binds) - InBinds(x, binds), n, r.n)
    decreases t, 1
  {
    if t.View? { ViewGives(x, errno, t.view, t.ty, e, pol, binds, n); } else { PlainGives(x, errno, t, e, pol, binds, n); }
  }

  lemma SmallPatterns(x: Name, y: Name, k: Con)
    ensures InPat(x, PVar(y)) == One(x, y) && InPat(x, PCon1(k, PVar(y))) == One(x, y)
    ensures InPat(x, PAny) == 0 && InPat(x, PCon1(k, PAny)) == 0 && InPat(x, PAs(PCon1(k, PAny), y)) == One(x, y)
  {
  }

  // A type without views: one variable, in the pattern or in a binding.
  lemma {:induction false} PlainGives(x: Name, errno: bool, t: Typ, e: Exp, pol: Polarity, binds: seq<Binding>, n: nat)
    requires PatError(t, pol).None? && !t.View?
    ensures var r := PatAndExp(errno, t, e, pol, binds, n);
            Given(x, InPat(x, r.pat) + InBinds(x, r.binds) - InBinds(x, binds), n, r.n)
  {
    hide MapResultExp;
    hide InBinds;
    var r := PatAndExp(errno, t, e, pol, binds, n);
    if Converted(t) {
      var k := match t case Pointer(_) => KPointer case Funptr(_) => KFunptr case Struct(_, _, _) => KStruct case _ => KUnion;
      SmallPatterns(x, Fresh(n + 1), k);
      SmallPatterns(x, Fresh(n + 1), KCPointer);
      SmallPatterns(x, Fresh(n + 1), KStaticFunptr);
      hide InPat;
      if pol.In? {
        var b := r.binds[|binds|];
        assert r.binds == binds + [b] && InPat(x, b.0) == One(x, Fresh(n + 1)) && r.pat == PCon1(k, PAny) && r.n == n + 1;
        hide PatAndExp;
        InBindsAppend(x, binds, [b]);
        OneBind(x, b.0, b.1);
      }
    }
  }

  lemma InViewPattern(x: Name, q: Pat, l: Label, y: Name)
    ensures InPat(x, PCon1(KView, PView(q, l, y))) == InPat(x, q) + One(x, y)
  {
    assert InPat(x, PView(q, l, y)) == InPat(x, q) + One(x, y);
  }

  lemma {:induction false} ViewGives(x: Name, errno: bool, view: ViewInfo, ty: Typ, e: Exp, pol: Polarity, binds: seq<Binding>, n: nat)
    requires PatError(ty, pol).None?
    ensures PatError(View(view, ty), pol).None?
    ensures var r := PatAndExp(errno, View(view, ty), e, pol, binds, n);
            Given(x, InPat(x, r.pat) + InBinds(x, r.binds) - InBinds(x, binds), n, r.n)
    decreases View(view, ty), 0
  {
    hide PatAndExp;
    hide InBinds;
    hide InPat;
    if pol.In? {
      ViewPattern(errno, view, ty, e, binds, n);
      var e1, z := Appl(Ident(Fresh(n + 1)), e), Fresh(n + 2);
      var r := PatAndExp(errno, ty, e1, In, binds, n + 2);
      var e2 := if r.exp.Some? then r.exp.value else e1;
      PatExpGives(x, errno, ty, e1, In, binds, n + 2);
      InViewPattern(x, r.pat, LWrite, Fresh(n + 1));
      InBindsAppend(x, [(PVar(z), e2)], r.binds);
      OneBind(x, PVar(z), e2);
      SmallPatterns(x, z, KView);
    } else {
      ViewPatternOut(errno, view, ty, e, binds, n);
      var r := PatAndExp(errno, ty, e, Out, binds, n);
      PatExpGives(x, errno, ty, e, Out, binds, n);
      InViewPattern(x, r.pat, LRead, Fresh(r.n + 1));
    }
  }

  lemma BodyStep(errno: bool, f: Fn, e: Exp, pol: Polarity, binds: seq<Binding>, n: nat)
    requires f.Function? && Wrappable(f, pol)
    ensures var r := PatAndExp(errno, f.arg, Ident(Fresh(n + 1)), pol, binds, n + 1);
            var w := WrapperBody(errno, f.rest, Appl(e, if r.exp.Some? then r.exp.value else Ident(Fresh(n + 1))), pol, r.binds, r.n);
            var all := WrapperBody(errno, f, e, pol, binds, n);
            all.pat == PCon2(KFunction, r.pat, w.pat) && all.binds == w.binds && all.n == w.n && all.args == [Fresh(n + 1)] + w.args
  {
    hide PatAndExp;
  }

  lemma {:induction false} BodyGives(x: Name, errno: bool, f: Fn, e: Exp, pol: Polarity, binds: seq<Binding>, n: nat)
    requires Wrappable(f, pol)
    ensures var w := WrapperBody(errno, f, e, pol, binds, n);
            n <= w.n && Given(x, InNames(x, w.args) + InPat(x, w.pat) + InBinds(x, w.binds) - InBinds(x, binds), n, w.n)
    decreases f
  {
    hide PatAndExp;
    hide InBinds;
    hide WrapperBody;
    if f.Returns? { LastGives(x, errno, f, e, pol, binds, n); } else {
      var t, rest := f.arg, f.rest;
      assert PatError(t, pol).None? && Wrappable(rest, pol);
      hide Wrappable;
      hide PatError;
      var r := PatAndExp(errno, t, Ident(Fresh(n + 1)), pol, binds, n + 1);
      var arg := if r.exp.Some? then r.exp.value else Ident(Fresh(n + 1));
      BodyStep(errno, f, e, pol, binds, n);
      PatExpGives(x, errno, t, Ident(Fresh(n + 1)), pol, binds, n + 1);
      BodyGives(x, errno, rest, Appl(e, arg), pol, r.binds, r.n);
      var w := WrapperBody(errno, rest, Appl(e, arg), pol, r.binds, r.n);
      NameFirst(x, Fresh(n + 1), w.args);
      BothPatterns(x, r.pat, w.pat);
      hide InPat;
      hide InNames;
    }
  }

  lemma BothPatterns(x: Name, p: Pat, q: Pat)
    ensures InPat(x, PCon2(KFunction, p, q)) == InPat(x, p) + InPat(x, q)
  {
  }

  lemma NameFirst(x: Name, y: Name, ys: seq<Name>)
    ensures InNames(x, [y] + ys) == One(x, y) + InNames(x, ys)
  {
    assert ([y] + ys)[1..] == ys;
  }

  lemma LastGives(x: Name, errno: bool, f: Fn, e: Exp, pol: Polarity, binds: seq<Binding>, n: nat)
    requires f.Returns? && Wrappable(f, pol)
    ensures var w := WrapperBody(errno, f, e, pol, binds, n);
            n <= w.n && Given(x, InNames(x, w.args) + InPat(x, w.pat) + InBinds(x, w.binds) - InBinds(x, binds), n, w.n)
  {
    hide PatAndExp;
    hide InBinds;
    PatExpGives(x, errno, f.ret, e, Flip(pol), binds, n);
  }

  /** No name is bound twice in a wrapper, whether as parameter, by a pattern or by a let,
      and every name bound was given out by the counter while it was generated. */
  lemma BoundOnce(x: Name, errno: bool, f: Fn, e: Exp, pol: Polarity, n: nat)
    requires Wrappable(f, pol)
    ensures var w := WrapperBody(errno, f, e, pol, [], n);
            Given(x, InNames(x, w.args) + InPat(x, w.pat) + InBinds(x, w.binds), n, w.n)
  {
    BodyGives(x, errno, f, e, pol, [], n);
  }

  // ---- Calls ----

  /** The external applied to the arguments so far: it runs once it has them all. */
  function CallVal(h: Host, acc: seq<Val>, s: State): (Val, State) {
    if acc != [] && |acc| == h.arity then var (r, w1) := h.ext(acc, s.w); (r, s.(w := w1)) else (Applied(External, acc), s)
  }

  ghost predicate EvalsCall(h: Host, e: Exp, base: Env, acc: seq<Val>) {
    forall env: Env, s: State {:trigger EvalML(h, e, env, s)} :: Sub(base, env) ==> EvalML(h, e, env, s) == CallVal(h, acc, s)
  }

  lemma ApplyOne(h: Host, e: Exp, arg: Exp, base: Env, acc: seq<Val>, v: Val)
    requires EvalsCall(h, e, base, acc) && Evals(h, arg, base, v, 0) && |acc| < h.arity
    ensures EvalsCall(h, Appl(e, arg), base, acc + [v])
  {
    forall env: Env, s: State | Sub(base, env) ensures EvalML(h, Appl(e, arg), env, s) == CallVal(h, acc + [v], s) {
      assert EvalML(h, arg, env, s) == (v, Wrote(s, 0));
      assert EvalML(h, e, env, s) == CallVal(h, acc, s);
    }
  }

  lemma EvalsCallMore(h: Host, e: Exp, base: Env, more: Env, acc: seq<Val>)
    requires EvalsCall(h, e, base, acc) && Sub(base, more)
    ensures EvalsCall(h, e, more, acc)
  {
    forall env: Env, s: State | Sub(more, env) ensures EvalML(h, e, env, s) == CallVal(h, acc, s) {
      assert Sub(base, env) by {
        forall x | x in base ensures x in env && env[x] == base[x] { assert more[x] == base[x]; }
      }
    }
  }

  // The external replies with a pair when errno is asked for.
  ghost predicate RepliesFit(h: Host, errno: bool) {
    errno ==> forall args: seq<Val>, w: World {:trigger h.ext(args, w)} ::
      |args| == h.arity ==> h.ext(args, w).0.Tuple? && |h.ext(args, w).0.elems| == 2
  }

  // What one argument contributes: its bindings, and the expression passed on.
  lemma ArgumentMeaning(h: Host, errno: bool, t: Typ, x: Name, binds: seq<Binding>, n: nat, base: Env, m: Env, v: Val, k: nat)
    requires PatError(t, In).None? && Fits(h, t, v) && Pure(h, binds, base, m, k)
    requires x in base && base[x] == v && Sub(InSigma(t, n), base)
    requires m.Keys !! base.Keys && InEnv(h, t, v, n).Keys !! base.Keys && InEnv(h, t, v, n).Keys !! m.Keys
    ensures var r := PatAndExp(errno, t, Ident(x), In, binds, n);
            var arg := if r.exp.Some? then r.exp.value else Ident(x);
            && Pure(h, r.binds, base, m + InEnv(h, t, v, n), k + ViewDepth(t))
            && Evals(h, arg, base + (m + InEnv(h, t, v, n)), Lower(h, t, v), 0)
  {
    hide Pure;
    hide Evals;
    hide PatAndExp;
    IdentEvals(h, x, base, v);
    PatternMatches(errno, t, Ident(x), In, binds, n);
    if Converted(t) {
      LowerMeaning(h, errno, t, Ident(x), binds, n, base, m, v, k, 0);
    } else {
      NothingConverted(h, t, v, n);
      assert m + map[] == m;
      IdentEvals(h, x, base + m, v);
    }
  }

  // `base` holds the description's pattern variables and arguments, `m` the variables
  // bound so far, and the names still to come are fresh for both.
  ghost predicate NamesReady(h: Host, f: Fn, args: seq<Val>, n: nat, base: Env, m: Env)
    requires FitsAll(h, f, args)
  {
    && |ArgNames(f, In, n)| == |args|
    && Sub(FnSigma(f, In, n), base) && Sub(ArgEnv(ArgNames(f, In, n), args), base)
    && m.Keys !! base.Keys && AllInEnv(h, f, args, n).Keys !! base.Keys
    && forall x :: x in m ==> x.Fresh? && x.n <= n
  }

  lemma NamesStep(h: Host, f: Fn, args: seq<Val>, n: nat, base: Env, m: Env)
    requires f.Function? && FitsAll(h, f, args) && NamesReady(h, f, args, n, base, m)
    ensures var inner := InEnv(h, f.arg, args[0], n + 1);
            && Fresh(n + 1) in base && base[Fresh(n + 1)] == args[0]
            && Sub(InSigma(f.arg, n + 1), base)
            && inner.Keys !! base.Keys && inner.Keys !! m.Keys
            && NamesReady(h, f.rest, args[1..], NextIn(f.arg, n + 1), base, m + inner)
  {
    var t, rest := f.arg, f.rest;
    var n1 := NextIn(t, n + 1);
    InRanges(h, t, args[0], n + 1);
    ArgNamesAbove(rest, In, n1);
    ArgEnvKeys(ArgNames(rest, In, n1), args[1..]);
    FnSigmaAbove(rest, In, n1);
    assert ArgNames(f, In, n)[1..] == ArgNames(rest, In, n1);
    var inner, more := InEnv(h, t, args[0], n + 1), AllInEnv(h, rest, args[1..], n1);
    assert (inner + more).Keys == inner.Keys + more.Keys;
    var sigma, sigmas := InSigma(t, n + 1), FnSigma(rest, In, n1);
    SubSplit(sigma, sigmas, base);
    SubSplit(map[Fresh(n + 1) := args[0]], ArgEnv(ArgNames(rest, In, n1), args[1..]), base);
    assert map[Fresh(n + 1) := args[0]][Fresh(n + 1)] == args[0];
  }

  lemma SubSplit(a: Env, b: Env, base: Env)
    requires Sub(a + b, base) && a.Keys !! b.Keys
    ensures Sub(a, base) && Sub(b, base)
  {
    forall x | x in a ensures x in base && base[x] == a[x] { assert (a + b)[x] == a[x]; }
    forall x | x in b ensures x in base && base[x] == b[x] { assert (a + b)[x] == b[x]; }
  }

  // The expression calls the external on `acc` and raises its reply.
  ghost predicate RaisesReply(h: Host, errno: bool, e: Exp, base: Env, acc: seq<Val>, ret: Typ) {
    forall env: Env, s: State {:trigger EvalML(h, e, env, s)} :: Sub(base, env) ==>
      var (r, s1) := CallVal(h, acc, s);
      && (errno ==> r.Tuple? && |r.elems| == 2)
      && EvalML(h, e, env, s) == (RaiseResult(h, errno, ret, r), s1)
  }

  /** The body of a wrapper at polarity In: running its bindings and its expression
      calls the external on the lowered arguments and raises the reply. */
  lemma {:induction false} BodyMeaning(h: Host, errno: bool, f: Fn, e: Exp, binds: seq<Binding>, n: nat,
                                       base: Env, m: Env, k: nat, acc: seq<Val>, args: seq<Val>)
    requires Wrappable(f, In) && FitsAll(h, f, args) && RepliesFit(h, errno) && NamesReady(h, f, args, n, base, m)
    requires Pure(h, binds, base, m, k) && EvalsCall(h, e, base + m, acc) && |acc| + |args| == h.arity > 0
    ensures var w := WrapperBody(errno, f, e, In, binds, n);
            && Pure(h, w.binds, base, m + AllInEnv(h, f, args, n), k + AllViews(f))
            && RaisesReply(h, errno, w.exp, base + (m + AllInEnv(h, f, args, n)), acc + LowerAll(h, f, args), ReturnType(f))
    decreases f
  {
    hide Pure;
    hide EvalsCall;
    hide RaisesReply;
    hide NamesReady;
    hide PatAndExp;
    hide PatError;
    hide RepliesFit;
    hide Fits;
    hide Lower;
    hide InEnv;
    hide InSigma;
    hide OutSigma;
    hide MatchTyp;
    hide ViewDepth;
    hide Converted;
    match f
    case Returns(t) =>
      assert acc + [] == acc;
      assert m + map[] == m;
      FinalMeaning(h, errno, t, e, binds, n, base, m, k, acc);
    case Function(t, rest) =>
      NamesStep(h, f, args, n, base, m);
      var x := Fresh(n + 1);
      var r := PatAndExp(errno, t, Ident(x), In, binds, n + 1);
      PatternMatches(errno, t, Ident(x), In, binds, n + 1);
      var arg := if r.exp.Some? then r.exp.value else Ident(x);
      var m1 := m + InEnv(h, t, args[0], n + 1);
      var low := Lower(h, t, args[0]);
      CallStep(h, errno, t, e, binds, n, base, m, k, acc, args[0]);
      BodyMeaning(h, errno, rest, Appl(e, arg), r.binds, r.n, base, m1, k + ViewDepth(t), acc + [low], args[1..]);
      Regroup(m, InEnv(h, t, args[0], n + 1), AllInEnv(h, rest, args[1..], r.n), acc, low, LowerAll(h, rest, args[1..]));
  }

  lemma Regroup(a: Env, b: Env, c: Env, acc: seq<Val>, low: Val, lows: seq<Val>)
    ensures a + b + c == a + (b + c) && acc + [low] + lows == acc + ([low] + lows)
  {
  }

  lemma CallStep(h: Host, errno: bool, t: Typ, e: Exp, binds: seq<Binding>, n: nat,
                 base: Env, m: Env, k: nat, acc: seq<Val>, v: Val)
    requires PatError(t, In).None? && Fits(h, t, v) && Pure(h, binds, base, m, k) && EvalsCall(h, e, base + m, acc)
    requires |acc| < h.arity
    requires Fresh(n + 1) in base && base[Fresh(n + 1)] == v && Sub(InSigma(t, n + 1), base) && m.Keys !! base.Keys
    requires InEnv(h, t, v, n + 1).Keys !! base.Keys && InEnv(h, t, v, n + 1).Keys !! m.Keys
    ensures var r := PatAndExp(errno, t, Ident(Fresh(n + 1)), In, binds, n + 1);
            var arg := if r.exp.Some? then r.exp.value else Ident(Fresh(n + 1));
            var m1 := m + InEnv(h, t, v, n + 1);
            && Pure(h, r.binds, base, m1, k + ViewDepth(t))
            && EvalsCall(h, Appl(e, arg), base + m1, acc + [Lower(h, t, v)])
  {
    hide Pure;
    hide EvalsCall;
    hide Evals;
    hide PatAndExp;
    var inner := InEnv(h, t, v, n + 1);
    ArgumentMeaning(h, errno, t, Fresh(n + 1), binds, n + 1, base, m, v, k);
    var r := PatAndExp(errno, t, Ident(Fresh(n + 1)), In, binds, n + 1);
    var arg := if r.exp.Some? then r.exp.value else Ident(Fresh(n + 1));
    assert Sub(base + m, base + (m + inner));
    EvalsCallMore(h, e, base + m, base + (m + inner), acc);
    ApplyOne(h, e, arg, base + (m + inner), acc, Lower(h, t, v));
  }

  lemma FinalMeaning(h: Host, errno: bool, t: Typ, e: Exp, binds: seq<Binding>, n: nat,
                     base: Env, m: Env, k: nat, acc: seq<Val>)
    requires PatError(t, Out).None? && RepliesFit(h, errno) && Pure(h, binds, base, m, k) && EvalsCall(h, e, base + m, acc)
    requires |acc| == h.arity > 0 && NamesReady(h, Returns(t), [], n, base, m)
    ensures var w := WrapperBody(errno, Returns(t), e, In, binds, n);
            w.binds == binds && RaisesReply(h, errno, w.exp, base + m, acc, t)
  {
    hide PatAndExp;
    hide Pure;
    PatternMatches(errno, t, e, Out, binds, n);
    var r := PatAndExp(errno, t, e, Out, binds, n);
    var exp := if r.exp.Some? then r.exp.value else e;
    assert WrapperBody(errno, Returns(t), e, In, binds, n).exp == exp;
    FinalExp(h, errno, t, e, binds, n, base, m, acc);
  }

  lemma FinalReplies(h: Host, errno: bool, acc: seq<Val>)
    requires RepliesFit(h, errno) && |acc| == h.arity > 0
    ensures forall s: State {:trigger CallVal(h, acc, s)} :: errno ==> CallVal(h, acc, s).0.Tuple? && |CallVal(h, acc, s).0.elems| == 2
  {
  }

  lemma {:induction false} FinalExp(h: Host, errno: bool, t: Typ, e: Exp, binds: seq<Binding>, n: nat, base: Env, m: Env, acc: seq<Val>)
    requires PatError(t, Out).None? && RepliesFit(h, errno) && EvalsCall(h, e, base + m, acc)
    requires |acc| == h.arity > 0 && Sub(OutSigma(t, n), base) && m.Keys !! base.Keys
    ensures var r := PatAndExp(errno, t, e, Out, binds, n);
            RaisesReply(h, errno, if r.exp.Some? then r.exp.value else e, base + m, acc, t)
  {
    hide PatAndExp;
    hide PatError;
    hide OutSigma;
    hide EvalML;
    hide RaiseResult;
    hide CallVal;
    var r := PatAndExp(errno, t, e, Out, binds, n);
    var exp := if r.exp.Some? then r.exp.value else e;
    FinalReplies(h, errno, acc);
    forall env: Env, s: State | Sub(base + m, env)
      ensures var (r, s1) := CallVal(h, acc, s);
              && (errno ==> r.Tuple? && |r.elems| == 2)
              && EvalML(h, exp, env, s) == (RaiseResult(h, errno, t, r), s1)
    {
      var (r, s1) := CallVal(h, acc, s);
      forall x | x in OutSigma(t, n) ensures x in env && env[x] == OutSigma(t, n)[x] { assert (base + m)[x] == base[x]; }
      assert EvalML(h, e, env, s) == CallVal(h, acc, s);
      RaiseMeaning(h, errno, t, e, binds, n, env, s, r, s1);
    }
  }

  /** A wrapper's own names and pattern: the pattern matches the description, binding
      the variables the body counts on; a trivial wrapper binds nothing. */
  lemma {:induction false} WrapperShape(errno: bool, f: Fn, e: Exp, pol: Polarity, binds: seq<Binding>, n: nat)
    requires Wrappable(f, pol)
    ensures var w := WrapperBody(errno, f, e, pol, binds, n);
            && w.args == ArgNames(f, pol, n)
            && MatchFn(w.pat, f) == Some(FnSigma(f, pol, n))
            && (w.trivial <==> NothingToConvert(f))
            && (w.trivial || (pol.Out? && !Converted(ReturnType(f))) ==> w.binds == binds)
    decreases f
  {
    hide PatAndExp;
    hide PatError;
    hide MatchTyp;
    hide InSigma;
    hide OutSigma;
    hide NextIn;
    hide NextOut;
    match f
    case Returns(t) => PatternMatches(errno, t, e, Flip(pol), binds, n);
    case Function(t, rest) =>
      var x := Fresh(n + 1);
      PatternMatches(errno, t, Ident(x), pol, binds, n + 1);
      var r := PatAndExp(errno, t, Ident(x), pol, binds, n + 1);
      var arg := if r.exp.Some? then r.exp.value else Ident(x);
      WrapperShape(errno, rest, Appl(e, arg), pol, r.binds, r.n);
  }

  predicate NothingToConvert(f: Fn) {
    match f
    case Returns(t) => !Converted(t)
    case Function(t, rest) => !Converted(t) && NothingToConvert(rest)
  }

  lemma {:induction false} TrivialIsIdentity(h: Host, f: Fn, args: seq<Val>, v: Val)
    requires NothingToConvert(f) && |args| == |Params(f)|
    ensures FitsAll(h, f, args) && LowerAll(h, f, args) == args && RaiseAll(h, f, args) == args && AllViews(f) == 0
    ensures Raise(h, ReturnType(f), v) == v && Fits(h, ReturnType(f), v) && Lower(h, ReturnType(f), v) == v
    ensures ViewDepth(ReturnType(f)) == 0
  {
    match f case Returns(_) => case Function(_, rest) => TrivialIsIdentity(h, rest, args[1..], v);
  }

  // ---- Using a wrapper ----

  function ApplyAll(h: Host, f: Val, args: seq<Val>, s: State): (Val, State)
    decreases |args|
  {
    if args == [] then (f, s) else var (g, s1) := Apply(h, f, args[0], s); ApplyAll(h, g, args[1..], s1)
  }

  /** Applying a wrapper to arguments: its expression may mention what its pattern bound. */
  function RunWrapper(h: Host, exp: Exp, sigma: Env, args: seq<Val>, s: State): (Val, State) {
    match exp
    case Fun(xs, body) => if |xs| == |args| then EvalML(h, body, sigma + ArgEnv(xs, args), s) else (Stuck, s)
    case _ => var (f, s1) := EvalML(h, exp, sigma, s); ApplyAll(h, f, args, s1)
  }

  lemma {:induction false} ExternalApplied(h: Host, acc: seq<Val>, args: seq<Val>, s: State)
    requires |acc| + |args| == h.arity && args != []
    ensures ApplyAll(h, Applied(External, acc), args, s) == CallVal(h, acc + args, s)
    decreases |args|
  {
    assert acc + [args[0]] + args[1..] == acc + args;
    if |args| == 1 {
      assert acc + [args[0]] == acc + args;
    } else {
      ExternalApplied(h, acc + [args[0]], args[1..], s);
    }
  }

  /** Wrapper correctness: for every description with arbitrarily nested views,
      pointers, structures and function pointers, and both errno policies, the
      generated pattern matches the description it was generated from, and the wrapper
      lowers each argument, calls the external once on the results in order, and
      raises the reply, running each view's write function once. */
  lemma WrapperCorrect(h: Host, errno: bool, f: Fn, n: nat, args: seq<Val>, s: State)
    requires Wrappable(f, In) && f.Function? && FitsAll(h, f, args) && h.arity == |args| && RepliesFit(h, errno)
    ensures var (pat, exp) := WrapperFor(errno, f, In, n);
            var (r, w1) := h.ext(LowerAll(h, f, args), s.w);
            && (errno ==> r.Tuple? && |r.elems| == 2)
            && MatchFn(pat, f).Some?
            && RunWrapper(h, exp, MatchFn(pat, f).value, args, s) ==
               (RaiseResult(h, errno, ReturnType(f), r), State(w1, s.created, s.writes + AllViews(f)))
  {
    hide WrapperBody;
    hide MatchFn;
    hide FnSigma;
    hide ArgNames;
    hide EvalML;
    hide LetBind;
    hide LowerAll;
    hide AllViews;
    hide FitsAll;
    hide NothingToConvert;
    hide RaiseResult;
    hide RepliesFit;
    WrapperShape(errno, f, Path(External), In, [], n);
    FitsCount(h, f, args);
    LowersAll(h, f, args);
    if NothingToConvert(f) {
      TrivialWrapperRuns(h, errno, f, args, FnSigma(f, In, n), s);
    } else {
      WrapperBodyRuns(h, errno, f, n, args, s);
    }
  }

  // Calling with every argument at hand is calling the external.
  lemma LowersAll(h: Host, f: Fn, args: seq<Val>)
    requires f.Function? && FitsAll(h, f, args) && h.arity == |args|
    ensures LowerAll(h, f, args) != []
    ensures forall s: State ::
              var (r, w1) := h.ext(LowerAll(h, f, args), s.w); CallVal(h, LowerAll(h, f, args), s) == (r, s.(w := w1))
  {
  }

  lemma TrivialWrapperRuns(h: Host, errno: bool, f: Fn, args: seq<Val>, sigma: Env, s: State)
    requires NothingToConvert(f) && f.Function? && FitsAll(h, f, args) && h.arity == |args| && RepliesFit(h, errno)
    ensures var (r, w1) := h.ext(LowerAll(h, f, args), s.w);
            && (errno ==> r.Tuple? && |r.elems| == 2)
            && RunWrapper(h, LetBind([], Path(External)), sigma, args, s) ==
               (RaiseResult(h, errno, ReturnType(f), r), State(w1, s.created, s.writes + AllViews(f)))
  {
    hide NothingToConvert;
    hide Raise;
    hide LowerAll;
    hide AllViews;
    hide FitsAll;
    var (r, s1) := CallVal(h, args, s);
    FitsCount(h, f, args);
    TrivialIsIdentity(h, f, args, r);
    ExternalApplied(h, [], args, s);
    assert [] + args == args;
    assert args != [] by { LowersAll(h, f, args); }
    if errno {
      TrivialIsIdentity(h, f, args, r.elems[0]);
      assert r.elems == [r.elems[0], r.elems[1]];
    }
  }

  lemma {:induction false} FitsCount(h: Host, f: Fn, args: seq<Val>)
    requires FitsAll(h, f, args)
    ensures |args| == |Params(f)|
  {
    match f case Returns(_) => case Function(_, rest) => FitsCount(h, rest, args[1..]);
  }

  lemma {:induction false} WrapperBodyRuns(h: Host, errno: bool, f: Fn, n: nat, args: seq<Val>, s: State)
    requires Wrappable(f, In) && f.Function? && FitsAll(h, f, args) && h.arity == |args| && RepliesFit(h, errno)
    ensures var w := WrapperBody(errno, f, Path(External), In, [], n);
            var (r, s1) := CallVal(h, LowerAll(h, f, args), Wrote(s, AllViews(f)));
            && |ArgNames(f, In, n)| == |args|
            && (errno ==> r.Tuple? && |r.elems| == 2)
            && EvalML(h, LetBind(w.binds, w.exp), FnSigma(f, In, n) + ArgEnv(ArgNames(f, In, n), args), s) ==
               (RaiseResult(h, errno, ReturnType(f), r), s1)
  {
    hide WrapperBody;
    hide LetBind;
    hide EvalsCall;
    hide AllViews;
    hide LowerAll;
    hide RaiseResult;
    hide RunBinds;
    hide FnSigma;
    hide AllInEnv;
    hide FitsAll;
    FitsCount(h, f, args);
    NamesNeverMeet(h, f, args, n);
    var sigma, argEnv := FnSigma(f, In, n), ArgEnv(ArgNames(f, In, n), args);
    var base := sigma + argEnv;
    SubSplit(sigma, argEnv, base);
    var out := AllInEnv(h, f, args, n);
    PureNothing(h, base);
    assert NamesReady(h, f, args, n, base, map[]);
    assert EvalsCall(h, Path(External), base + map[], []) by { CallItself(h, base + map[]); }
    BodyMeaning(h, errno, f, Path(External), [], n, base, map[], 0, [], args);
    var w := WrapperBody(errno, f, Path(External), In, [], n);
    assert map[] + out == out && [] + LowerAll(h, f, args) == LowerAll(h, f, args);
    assert RunBinds(h, w.binds, base, s) == Some((base + out, Wrote(s, AllViews(f))));
    LetBindMeaning(h, w.binds, w.exp, base, s);
    assert Sub(base + out, base + out);
  }

  lemma CallItself(h: Host, base: Env)
    ensures EvalsCall(h, Path(External), base, [])
  {
  }

  lemma PureNothing(h: Host, base: Env)
    ensures Pure(h, [], base, map[], 0)
  {
    forall env: Env, s: State | Sub(base, env) ensures RunBinds(h, [], env, s) == Some((env + map[], Wrote(s, 0))) {
      assert env + map[] == env;
    }
  }
}

/** Stubs that let C call OCaml: `inverse_fn`
    (src/cstubs/cstubs_generate_c.ml:267-325). */
module InverseStub {
  import opened CtypesStatic
  import opened CLanguage
  import opened LetFloat
  import opened Projections
  import opened CStub
  import opened StubDiscipline

  const LOCALS := Named("locals")
  const NARGS := Named("nargs")
  const INT := Primitive(Int)
  const FUNCTIONS := CGlobal("functions", true, Pointer(VALUE))
  const CALLBACK_N := CFunction("caml_callbackN", true, true, VALUE)

  // What an inverse stub is generated for: its result type, the name of its entry in
  // the function table, and whether the caller comes without the lock.
  datatype Inverse = Inverse(ret: Typ, index: Name, runtimeLock: bool)

  /** The exception generation raises: the result's projection is built first, the
      injections last parameter first. */
  function InverseError(ts: seq<Typ>, ret: Typ): Option<Error> {
    if PrjError(ret).Some? then PrjError(ret) else LastInjError(ts)
  }

  function LastInjError(ts: seq<Typ>): Option<Error> {
    if ts == [] then None
    else if InjError(ts[|ts| - 1]).Some? then InjError(ts[|ts| - 1])
    else LastInjError(ts[..|ts| - 1])
  }

  predicate Convertible(ts: seq<Typ>, ret: Typ) {
    PrjError(ret).None? && forall t :: t in ts ==> InjError(t).None?
  }

  // ---- Generation ----

  function LocalsVar(): CExp { Local(LOCALS, Pointer(VALUE)) }
  function NargsVar(): CExp { Local(NARGS, INT) }

  /** `CAMLdrop; [release;] return y` */
  function LeaveWith(inv: Inverse): Cont {
    (y: CExp, j: nat) =>
      Bind(Eff(CamlDrop), Void, LeaveAfterDrop(inv, y), j)
  }

  function LeaveAfterDrop(inv: Inverse, y: CExp): Cont {
    (_: CExp, j: nat) =>
      if inv.runtimeLock then Then(Eff(App(RELEASE_RUNTIME, [])), Return(inv.ret, y), j) else (Return(inv.ret, y), j)
  }

  /** Projects the callback's result, or keeps it as it is for a void result. */
  function ProjectResult(inv: Inverse): Cont
    requires PrjError(inv.ret).None?
  {
    (x: CExp, j: nat) =>
      match Prj(inv.ret, inv.ret, x, j)
      case None => Bind(Eff(Exp(x)), inv.ret, LeaveWith(inv), j)
      case Some((c, j1)) => Bind(c, inv.ret, LeaveWith(inv), j1)
  }

  function CallBack(inv: Inverse): Cont
    requires PrjError(inv.ret).None?
  {
    (f: CExp, j: nat) => Bind(Eff(App(CALLBACK_N, [f, NargsVar(), LocalsVar()])), VALUE, ProjectResult(inv), j)
  }

  function CallCode(inv: Inverse, n: nat): (CComp, nat)
    requires PrjError(inv.ret).None?
  {
    Bind(Eff(Index(Global(FUNCTIONS), Local(inv.index, INT))), VALUE, CallBack(inv), n)
  }

  /** `locals[i] = inj(x_i);` for i from `i` on, then the call. */
  function StoreArguments(ps: seq<Param>, i: nat, call: CComp): CComp
    requires forall p :: p in ps ==> InjError(p.ty).None?
  {
    if ps == [] then call
    else LetAssign(LIndex(LLocal(LOCALS), IntConst(i)), Inj(ps[0].ty, ps[0].x, ps[0].ty), StoreArguments(ps[1..], i + 1, call))
  }

  function Enter(ps: seq<Param>, body: CComp, n: nat): (CComp, nat) {
    var (a, n1) := Then(Eff(CamlParam0), Eff(CamlLocalN(Local(LOCALS, Array(VALUE, |ps|)), NargsVar())), n);
    assert !EndsInReturn(a);
    Then(a, body, n1)
  }

  function InverseBody(inv: Inverse, ps: seq<Param>, n: nat): CComp
    requires PrjError(inv.ret).None? && forall p :: p in ps ==> InjError(p.ty).None?
  {
    var (call, n1) := CallCode(inv, n);
    var (entered, n2) := Enter(ps, StoreArguments(ps, 0, call), n1);
    LetConst(NARGS, |ps|,
      if inv.runtimeLock then Then(Eff(App(ACQUIRE_RUNTIME, [])), entered, n2).0 else entered)
  }

  /** `inverse_fn`; the callback's place in the table is the constant fn_<stub name>. */
  function GenerateInverse(stubName: string, runtimeLock: bool, f: Fn, n: nat): Result<CFundef> {
    match InverseError(Params(f), ReturnType(f))
    case Some(e) => Raises(e)
    case None =>
      var (ps, n1) := NameParams(f, n);
      NoInverseError(Params(f), ReturnType(f));
      Ok(CFundef(stubName, CParams(ps), ReturnType(f), InverseBody(InverseFor(stubName, runtimeLock, f), ps, n1)))
  }

  function InverseFor(stubName: string, runtimeLock: bool, f: Fn): Inverse {
    Inverse(ReturnType(f), Named("fn_" + stubName), runtimeLock)
  }

  function CParams(ps: seq<Param>): (r: seq<(Name, Typ)>)
    ensures |r| == |ps| && forall i :: 0 <= i < |ps| ==> r[i] == (ps[i].x, ps[i].ty)
  {
    seq(|ps|, i requires 0 <= i < |ps| => (ps[i].x, ps[i].ty))
  }

  lemma {:induction false} NoInverseError(ts: seq<Typ>, ret: Typ)
    ensures InverseError(ts, ret).None? <==> Convertible(ts, ret)
    decreases |ts|
  {
    if ts != [] {
      var last := ts[|ts| - 1];
      NoInverseError(ts[..|ts| - 1], ret);
      assert forall t :: t in ts <==> t == last || t in ts[..|ts| - 1] by {
        assert ts == ts[..|ts| - 1] + [last];
      }
    }
  }

  // Parameter k cannot be injected; those after it can.
  predicate LastRaising(ts: seq<Typ>, k: nat) {
    k < |ts| && InjError(ts[k]).Some? && forall i :: k < i < |ts| ==> InjError(ts[i]).None?
  }

  /** The exception raised is the result's if it has one, else that of the last parameter
      that has one. */
  lemma {:induction false} InverseErrorIsLast(stubName: string, runtimeLock: bool, f: Fn, n: nat, k: nat)
    ensures GenerateInverse(stubName, runtimeLock, f, n).Ok? <==> Convertible(Params(f), ReturnType(f))
    ensures var r := GenerateInverse(stubName, runtimeLock, f, n); var ts := Params(f);
            && (PrjError(ReturnType(f)).Some? ==> r == Raises(PrjError(ReturnType(f)).value))
            && (PrjError(ReturnType(f)).None? && LastRaising(ts, k) ==> r == Raises(InjError(ts[k]).value))
  {
    hide InverseBody;
    hide PrjError;
    hide InjError;
    NoInverseError(Params(f), ReturnType(f));
    hide Convertible;
    var ts := Params(f);
    if LastRaising(ts, k) { LastInj(ts, k); }
  }

  lemma {:induction false} LastInj(ts: seq<Typ>, k: nat)
    requires LastRaising(ts, k)
    ensures LastInjError(ts) == InjError(ts[k])
    decreases |ts|
  {
    hide InjError;
    if k < |ts| - 1 {
      var front := ts[..|ts| - 1];
      assert InjError(ts[|ts| - 1]).None?;
      forall i | k < i < |front| ensures InjError(front[i]).None? { assert front[i] == ts[i]; }
      LastInj(front, k);
    }
  }

  // ---- Reference meaning ----

  /** Injects the arguments in order into slots i, i+1, ...: the injected values and
      the world with the slots filled. */
  function InjectAll(m: Machine, ts: seq<Typ>, vs: seq<Val>, i: nat, w: World): (r: (seq<Val>, World))
    requires |ts| == |vs| && forall t :: t in ts ==> InjError(t).None?
    ensures |r.0| == |ts|
  {
    if ts == [] then ([], w)
    else
      var (v, w1) := Inject(m, ts[0], vs[0], w);
      var (rest, w2) := InjectAll(m, ts[1..], vs[1..], i + 1, w1.(slots := w1.slots[i := v]));
      ([v] + rest, w2)
  }

  /** What happens up to the callback: the lock, the roots, the injected arguments. */
  function BeforeCallback(m: Machine, inv: Inverse, ts: seq<Typ>, args: seq<Val>, w: World): (r: (seq<Val>, World))
    requires |ts| == |args| && Convertible(ts, inv.ret)
  {
    var w0 := if inv.runtimeLock then Do(m, OCall(ACQUIRE_RUNTIME), [], w).1 else w;
    var w1 := Do(m, OParam0, [], w0).1;
    var w2 := Do(m, OLocalN, [Unbound(LOCALS), CInt(|ts|)], w1).1;
    InjectAll(m, ts, args, 0, w2)
  }

  /** The callback and what follows it: the projected result is read in full, then the
      roots are dropped, then the lock is given back. */
  function FromCallback(m: Machine, inv: Inverse, nargs: nat, w: World): (Val, World)
    requires PrjError(inv.ret).None?
  {
    var (fs, w1) := Do(m, OGlobal(FUNCTIONS), [], w);
    var (f, w2) := Do(m, OIndex, [fs, Unbound(inv.index)], w1);
    var (r, w3) := Do(m, OCall(CALLBACK_N), [f, CInt(nargs), Unbound(LOCALS)], w2);
    var (y, w4) := if HasNoArgument(inv.ret) then (r, w3) else Project(m, inv.ret, r, w3);
    var w5 := Do(m, ODrop, [], w4).1;
    (y, if inv.runtimeLock then Do(m, OCall(RELEASE_RUNTIME), [], w5).1 else w5)
  }

  /** When the callback runs, slot i holds the injection of parameter i, for every i
      below nargs, and there are no others. */
  lemma {:induction false} SlotsHoldArguments(m: Machine, ts: seq<Typ>, vs: seq<Val>, i: nat, w: World)
    requires |ts| == |vs| && forall t :: t in ts ==> InjError(t).None?
    requires forall k :: 0 <= k < i + |ts| <==> k in w.slots
    ensures var (injected, w1) := InjectAll(m, ts, vs, i, w);
            && (forall k :: 0 <= k < i + |ts| <==> k in w1.slots)
            && (forall k :: 0 <= k < i ==> w1.slots[k] == w.slots[k])
            && (forall k :: 0 <= k < |ts| ==> w1.slots[i + k] == injected[k])
            && w1.locked == w.locked && w1.roots == w.roots
    decreases |ts|
  {
    hide Inject;
    if ts != [] {
      assert ts[0] in ts;
      InjectKeepsSlots(m, ts[0], vs[0], w);
      var (v, w1) := Inject(m, ts[0], vs[0], w);
      var w2 := w1.(slots := w1.slots[i := v]);
      SlotsHoldArguments(m, ts[1..], vs[1..], i + 1, w2);
      var (rest, w3) := InjectAll(m, ts[1..], vs[1..], i + 1, w2);
      forall k | 0 <= k < |ts| ensures w3.slots[i + k] == ([v] + rest)[k] {
        if k > 0 { assert w3.slots[(i + 1) + (k - 1)] == rest[k - 1]; }
      }
    }
  }

  lemma InjectKeepsSlots(m: Machine, t: Typ, v: Val, w: World)
    requires InjError(t).None?
    ensures var w1 := Inject(m, t, v, w).1; w1.slots == w.slots && w1.locked == w.locked && w1.roots == w.roots
  {
    hide PrimInj;
    hide Do;
    PrjErrorStrip(t);
    match StripViews(t)
    case Void => DoKeepsSlots(m, OGlobal(VAL_UNIT), [], w);
    case Primitive(p) => NoLockInjects(p); DoKeepsSlots(m, OCall(PrimInj(p)), [m.convert(Primitive(p), v)], w);
    case Struct(_, spec, _) => DoKeepsSlots(m, OCall(COPY_BYTES), [AddrOf(v), CInt(spec.value.size)], w);
    case Union(_, spec, _) => DoKeepsSlots(m, OCall(COPY_BYTES), [AddrOf(v), CInt(spec.value.size)], w);
    case _ => DoKeepsSlots(m, OCall(FROM_PTR), [v], w);
  }

  lemma NoLockInjects(p: Prim)
    ensures PrimInj(p).ret == VALUE
  {
    hide PrimInj;
  }

  lemma DoKeepsSlots(m: Machine, op: Op, args: seq<Val>, w: World)
    requires op.OGlobal? || (op.OCall? && op.f.ret == VALUE)
    ensures var w1 := Do(m, op, args, w).1; w1.slots == w.slots && w1.locked == w.locked && w1.roots == w.roots
  {
  }

  lemma {:induction false} UnitSlotsDomain(n: nat)
    ensures forall k :: 0 <= k < n <==> k in UnitSlots(n)
  {
    if n > 0 { UnitSlotsDomain(n - 1); }
  }

  lemma CallbackSeesArguments(m: Machine, inv: Inverse, ts: seq<Typ>, args: seq<Val>, w: World)
    requires |ts| == |args| && Convertible(ts, inv.ret)
    ensures var (injected, w1) := BeforeCallback(m, inv, ts, args, w);
            && |injected| == |ts|
            && (forall k :: 0 <= k < |ts| <==> k in w1.slots)
            && (forall k :: 0 <= k < |ts| ==> w1.slots[k] == injected[k])
  {
    var w0 := if inv.runtimeLock then Do(m, OCall(ACQUIRE_RUNTIME), [], w).1 else w;
    var w2 := Do(m, OLocalN, [Unbound(LOCALS), CInt(|ts|)], Do(m, OParam0, [], w0).1).1;
    UnitSlotsDomain(|ts|);
    SlotsHoldArguments(m, ts, args, 0, w2);
    var (injected, w1) := InjectAll(m, ts, args, 0, w2);
    forall k | 0 <= k < |ts| ensures w1.slots[k] == injected[k] { assert w1.slots[0 + k] == injected[k]; }
  }

  // ---- The generated code meets it ----

  /** Leaving: the result expression still denotes what it did before the roots were
      dropped and the lock released. */
  lemma {:induction false} LeaveMeaning(m: Machine, inv: Inverse, y: CExp, j: nat, env: Env, w: World)
    requires ExpBelow(y, j)
    ensures var w1 := Do(m, ODrop, [], w).1;
            EvalComp(m, LeaveWith(inv)(y, j).0, env, w) ==
              Outcome(EvalExp(m, y, env), if inv.runtimeLock then Do(m, OCall(RELEASE_RUNTIME), [], w1).1 else w1, ByReturn)
  {
    hide Do;
    var (d, w1) := Do(m, ODrop, [], w);
    var env1 := env[Fresh(j + 1) := m.convert(Void, d)];
    SameBelow(m, y, j, env, env1);
    var rest := LeaveAfterDrop(inv, y)(Local(Fresh(j + 1), Void), j + 1).0;
    assert LeaveWith(inv)(y, j).0 == Let(Fresh(j + 1), Void, CamlDrop, rest);
    assert EvalComp(m, LeaveWith(inv)(y, j).0, env, w) == EvalComp(m, rest, env1, w1);
    if inv.runtimeLock {
      CallNone(m, RELEASE_RUNTIME, env1, w1);
      ThenMeaning(m, RELEASE_RUNTIME, Return(inv.ret, y), j + 1, env1, w1);
      var (u, w2) := Do(m, OCall(RELEASE_RUNTIME), [], w1);
      SameBelow(m, y, j, env, env1[Fresh(j + 2) := m.convert(Void, u)]);
    }
  }

  // The tail of FromCallback, from the callback's reply on.
  function AfterCallback(m: Machine, inv: Inverse, r: Val, w: World): (Val, World)
    requires PrjError(inv.ret).None?
  {
    var (y, w1) := if HasNoArgument(inv.ret) then (r, w) else Project(m, inv.ret, r, w);
    var w2 := Do(m, ODrop, [], w1).1;
    (y, if inv.runtimeLock then Do(m, OCall(RELEASE_RUNTIME), [], w2).1 else w2)
  }

  lemma ResultMeaning(m: Machine, inv: Inverse, x: CExp, j: nat, env: Env, w: World)
    requires PrjError(inv.ret).None? && ExpBelow(x, j)
    ensures var (y, w1) := AfterCallback(m, inv, EvalExp(m, x, env), w);
            EvalComp(m, ProjectResult(inv)(x, j).0, env, w) == Outcome(y, w1, ByReturn)
  {
    hide Do;
    NothingToProject(inv.ret, inv.ret, x, j);
    if HasNoArgument(inv.ret) {
      ExpBelowMonotone(x, j, j + 1);
      LeaveMeaning(m, inv, x, j + 1, env, w);
    } else {
      hide Project;
      PrjMeaning(m, inv.ret, inv.ret, x, j, env, w);
      var (c, j1) := Prj(inv.ret, inv.ret, x, j).value;
      BindMeaning(m, c, inv.ret, LeaveWith(inv), j1, env, w);
      var (r, j2) := Tail(c, inv.ret, j1);
      var (env1, w1) := After(m, c, inv.ret, j1, env, w);
      LeaveMeaning(m, inv, r, j2, env1, w1);
    }
  }

  ghost predicate EntryEnv(env: Env, inv: Inverse, nargs: nat) {
    && Lookup(env, NARGS) == CInt(nargs) && Lookup(env, LOCALS) == Unbound(LOCALS) && Lookup(env, inv.index) == Unbound(inv.index)
    && inv.index.Named?
  }

  lemma {:induction false} CallCodeMeaning(m: Machine, inv: Inverse, n: nat, nargs: nat, env: Env, w: World)
    requires PrjError(inv.ret).None? && KeepsValues(m) && EntryEnv(env, inv, nargs)
    ensures var (y, w1) := FromCallback(m, inv, nargs, w);
            EvalComp(m, CallCode(inv, n).0, env, w) == Outcome(y, w1, ByReturn)
  {
    hide Do;
    var (fs, w1) := Do(m, OGlobal(FUNCTIONS), [], w);
    FunctionsIsNotErrno();
    var e := Index(Global(FUNCTIONS), Local(inv.index, INT));
    assert EvalExp(m, Local(inv.index, INT), env) == Unbound(inv.index);
    assert EvalEff(m, e, env, w) == Do(m, OIndex, [fs, Unbound(inv.index)], w1);
    var (f, w2) := Do(m, OIndex, [fs, Unbound(inv.index)], w1);
    var env1 := env[Fresh(n + 1) := f];
    var fx := Local(Fresh(n + 1), VALUE);
    CallBackMeaning(m, inv, fx, n + 1, nargs, env1, w2);
  }

  lemma FunctionsIsNotErrno()
    ensures FUNCTIONS.gname != "errno"
  {
  }

  lemma CallBackMeaning(m: Machine, inv: Inverse, f: CExp, j: nat, nargs: nat, env: Env, w: World)
    requires PrjError(inv.ret).None? && KeepsValues(m) && EntryEnv(env, inv, nargs)
    ensures var (r, w1) := Do(m, OCall(CALLBACK_N), [EvalExp(m, f, env), CInt(nargs), Unbound(LOCALS)], w);
            var (y, w2) := AfterCallback(m, inv, r, w1);
            EvalComp(m, CallBack(inv)(f, j).0, env, w) == Outcome(y, w2, ByReturn)
  {
    hide Do;
    hide AfterCallback;
    assert EvalExp(m, NargsVar(), env) == CInt(nargs) && EvalExp(m, LocalsVar(), env) == Unbound(LOCALS);
    assert EvalExps(m, [f, NargsVar(), LocalsVar()], env) == [EvalExp(m, f, env), CInt(nargs), Unbound(LOCALS)];
    var (r, w1) := Do(m, OCall(CALLBACK_N), [EvalExp(m, f, env), CInt(nargs), Unbound(LOCALS)], w);
    var x := Local(Fresh(j + 1), VALUE);
    assert EvalExp(m, x, env[Fresh(j + 1) := r]) == r;
    ResultMeaning(m, inv, x, j + 1, env[Fresh(j + 1) := r], w1);
  }

  lemma {:induction false} StoresMeaning(m: Machine, ps: seq<Param>, i: nat, call: CComp, args: seq<Val>, env: Env, w: World)
    requires |ps| == |args| && forall p :: p in ps ==> InjError(p.ty).None?
    requires forall k :: 0 <= k < |ps| ==> Lookup(env, ps[k].x) == args[k]
    ensures forall t :: t in Types(ps) ==> InjError(t).None?
    ensures EvalComp(m, StoreArguments(ps, i, call), env, w) == EvalComp(m, call, env, InjectAll(m, Types(ps), args, i, w).1)
    decreases |ps|
  {
    hide Inject;
    hide Inj;
    hide InjError;
    hide Do;
    if ps != [] {
      assert ps[0] in ps;
      assert Types(ps)[1..] == Types(ps[1..]);
      InjMeaning(m, ps[0].ty, ps[0].x, ps[0].ty, env, w);
      var (v, w1) := Inject(m, ps[0].ty, args[0], w);
      StoresMeaning(m, ps[1..], i + 1, call, args[1..], env, w1.(slots := w1.slots[i := v]));
    }
  }

  lemma EnterMeaning(m: Machine, ps: seq<Param>, body: CComp, n: nat, env: Env, w: World)
    requires Lookup(env, NARGS) == CInt(|ps|) && Lookup(env, LOCALS) == Unbound(LOCALS)
    ensures exists env1: Env ::
      && EvalComp(m, Enter(ps, body, n).0, env, w) ==
         EvalComp(m, body, env1, Do(m, OLocalN, [Unbound(LOCALS), CInt(|ps|)], Do(m, OParam0, [], w).1).1)
      && forall x: Name {:trigger Lookup(env1, x)} :: (x.Fresh? ==> x.n <= n) ==> Lookup(env1, x) == Lookup(env, x)
  {
    hide Do;
    var localN := CamlLocalN(Local(LOCALS, Array(VALUE, |ps|)), NargsVar());
    var a0 := Let(Fresh(n + 1), Void, CamlParam0, Eff(localN));
    assert Then(Eff(CamlParam0), Eff(localN), n) == (a0, n + 1);
    var k: Cont := (_: CExp, j: nat) => (body, j);
    assert Bind(Eff(localN), Void, k, n + 2) == (Let(Fresh(n + 3), Void, localN, body), n + 3);
    assert Bind(a0, Void, k, n + 1) == (Let(Fresh(n + 1), Void, CamlParam0, Let(Fresh(n + 3), Void, localN, body)), n + 3);
    assert Enter(ps, body, n).0 == Let(Fresh(n + 1), Void, CamlParam0, Let(Fresh(n + 3), Void, localN, body));
    var (a, w1) := Do(m, OParam0, [], w);
    var env0 := env[Fresh(n + 1) := m.convert(Void, a)];
    assert EvalExp(m, NargsVar(), env0) == CInt(|ps|);
    var (b, w2) := Do(m, OLocalN, [Unbound(LOCALS), CInt(|ps|)], w1);
    assert EvalEff(m, localN, env0, w1) == (b, w2);
    var env1 := env0[Fresh(n + 3) := m.convert(Void, b)];
    assert EvalComp(m, Enter(ps, body, n).0, env, w) == EvalComp(m, Let(Fresh(n + 3), Void, localN, body), env0, w1);
    assert EvalComp(m, Enter(ps, body, n).0, env, w) == EvalComp(m, body, env1, w2);
  }

  lemma {:induction false} NamedUnbound(ps: seq<(Name, Typ)>, args: seq<Val>, x: Name)
    requires |ps| == |args| && x.Named? && forall i :: 0 <= i < |ps| ==> ps[i].0.Fresh?
    ensures Lookup(BindParams(ps, args), x) == Unbound(x)
  {
    if ps != [] { NamedUnbound(ps[1..], args[1..], x); }
  }

  lemma ReservedNames(stubName: string)
    ensures LOCALS != NARGS && Named("fn_" + stubName) != NARGS
  {
    assert "locals"[0] != "nargs"[0];
    assert ("fn_" + stubName)[0] != "nargs"[0];
  }

  // The whole body, under the lock if need be, on an environment holding the parameters.
  lemma InverseBodyMeaning(m: Machine, inv: Inverse, ps: seq<Param>, n: nat, args: seq<Val>, env: Env, w: World)
    requires Convertible(Types(ps), inv.ret) && KeepsValues(m) && CStub.Bound(env, ps, args, n)
    requires forall p :: p in ps ==> InjError(p.ty).None?
    requires EntryEnv(env[NARGS := CInt(|ps|)], inv, |ps|)
    ensures var (y, w1) := FromCallback(m, inv, |ps|, BeforeCallback(m, inv, Types(ps), args, w).1);
            EvalComp(m, InverseBody(inv, ps, n), env, w) == Outcome(y, w1, ByReturn)
  {
    hide Do;
    hide FromCallback;
    hide CallCode;
    hide Enter;
    hide StoreArguments;
    hide InjectAll;
    var env0 := env[NARGS := CInt(|ps|)];
    var (call, n1) := CallCode(inv, n);
    var stores := StoreArguments(ps, 0, call);
    var (entered, n2) := Enter(ps, stores, n1);
    CallCodeCounter(inv, n);
    if inv.runtimeLock {
      CallNone(m, ACQUIRE_RUNTIME, env0, w);
      var (u, w0) := Do(m, OCall(ACQUIRE_RUNTIME), [], w);
      EnterCounter(ps, stores, n1);
      ThenMeaning(m, ACQUIRE_RUNTIME, entered, n2, env0, w);
      EnteredMeaning(m, inv, ps, n, args, env0[Fresh(n2 + 1) := m.convert(Void, u)], w0);
    } else {
      EnteredMeaning(m, inv, ps, n, args, env0, w);
    }
  }

  lemma CallCodeCounter(inv: Inverse, n: nat)
    requires PrjError(inv.ret).None?
    ensures CallCode(inv, n).1 > n
  {
    hide Prj;
    NothingToProject(inv.ret, inv.ret, Local(Fresh(n + 2), VALUE), n + 2);
    forall y: CExp, j: nat ensures LeaveWith(inv)(y, j).1 > j {
      forall e: CExp, i: nat ensures LeaveAfterDrop(inv, y)(e, i).1 >= i {
        ThenCounter(Eff(App(RELEASE_RUNTIME, [])), Return(inv.ret, y), i);
      }
      BindCounter(Eff(CamlDrop), Void, LeaveAfterDrop(inv, y), j);
    }
    forall x: CExp, j: nat ensures ProjectResult(inv)(x, j).1 >= j {
      NothingToProject(inv.ret, inv.ret, x, j);
      match Prj(inv.ret, inv.ret, x, j)
      case None =>
      case Some((c, j1)) => BindCounter(c, inv.ret, LeaveWith(inv), j1);
    }
  }

  lemma {:induction false} BindCounter(e: CComp, ty: Typ, k: Cont, n: nat)
    requires !EndsInReturn(e) && forall y: CExp, j: nat :: k(y, j).1 >= j
    ensures Bind(e, ty, k, n).1 > n
    decreases e
  {
    match e
    case Eff(Exp(v)) =>
    case Eff(_) =>
    case CamlParam(_, b) => BindCounter(b, TypeOfComp(b), k, n + 1);
    case LetConst(_, _, b) => BindCounter(b, TypeOfComp(b), k, n + 1);
    case LetAssign(_, _, b) => BindCounter(b, TypeOfComp(b), k, n + 1);
    case Let(_, _, _, b) => BindCounter(b, TypeOfComp(b), k, n + 1);
  }

  lemma EnterCounter(ps: seq<Param>, body: CComp, n: nat)
    ensures Enter(ps, body, n).1 > n
  {
    var localN := Eff(CamlLocalN(Local(LOCALS, Array(VALUE, |ps|)), NargsVar()));
    ThenCounter(Eff(CamlParam0), localN, n);
    var (a, n1) := Then(Eff(CamlParam0), localN, n);
    ThenCounter(a, body, n1);
  }

  lemma ThenCounter(c1: CComp, c2: CComp, n: nat)
    requires !EndsInReturn(c1)
    ensures Then(c1, c2, n).1 > n
  {
    BindCounter(c1, Void, (_: CExp, j: nat) => (c2, j), n);
  }

  lemma EnteredMeaning(m: Machine, inv: Inverse, ps: seq<Param>, n: nat, args: seq<Val>, env: Env, w: World)
    requires Convertible(Types(ps), inv.ret) && KeepsValues(m) && CStub.Bound(env, ps, args, n)
    requires forall p :: p in ps ==> InjError(p.ty).None?
    requires EntryEnv(env, inv, |ps|)
    ensures var (call, n1) := CallCode(inv, n);
            var w2 := Do(m, OLocalN, [Unbound(LOCALS), CInt(|ps|)], Do(m, OParam0, [], w).1).1;
            var (y, w3) := FromCallback(m, inv, |ps|, InjectAll(m, Types(ps), args, 0, w2).1);
            EvalComp(m, Enter(ps, StoreArguments(ps, 0, call), n1).0, env, w) == Outcome(y, w3, ByReturn)
  {
    hide Do;
    hide FromCallback;
    hide CallCode;
    hide Enter;
    hide StoreArguments;
    hide InjectAll;
    var (call, n1) := CallCode(inv, n);
    CallCodeCounter(inv, n);
    var stores := StoreArguments(ps, 0, call);
    EnterMeaning(m, ps, stores, n1, env, w);
    var w2 := Do(m, OLocalN, [Unbound(LOCALS), CInt(|ps|)], Do(m, OParam0, [], w).1).1;
    var env1: Env :|
      && EvalComp(m, Enter(ps, stores, n1).0, env, w) == EvalComp(m, stores, env1, w2)
      && forall x: Name {:trigger Lookup(env1, x)} :: (x.Fresh? ==> x.n <= n1) ==> Lookup(env1, x) == Lookup(env, x);
    forall k | 0 <= k < |ps| ensures Lookup(env1, ps[k].x) == args[k] { assert Lookup(env1, ps[k].x) == Lookup(env, ps[k].x); }
    StoresMeaning(m, ps, 0, call, args, env1, w2);
    CallCodeMeaning(m, inv, n, |ps|, env1, InjectAll(m, Types(ps), args, 0, w2).1);
  }

  /** Inverse stub correctness: for every description, running the generated stub on C
      arguments is the reference meaning: lock, roots, injected arguments in the
      slots, the callback, its projected result, roots dropped, lock released. */
  lemma InverseStubRefinesSpec(m: Machine, stubName: string, runtimeLock: bool, f: Fn, n: nat, args: seq<Val>, w: World)
    requires GenerateInverse(stubName, runtimeLock, f, n).Ok? && |args| == |Params(f)| && KeepsValues(m)
    ensures var inv := Inverse(ReturnType(f), Named("fn_" + stubName), runtimeLock);
            var d := GenerateInverse(stubName, runtimeLock, f, n).value;
            && Convertible(Params(f), inv.ret) && d.name == stubName && d.ret == ReturnType(f) && |d.params| == |args|
            && (forall i :: 0 <= i < |args| ==> d.params[i] == (Fresh(n + 1 + i), Params(f)[i]))
            && RunBody(m, GenerateInverse(stubName, runtimeLock, f, n).value, args, w) ==
               FromCallback(m, inv, |args|, BeforeCallback(m, inv, Params(f), args, w).1)
  {
    hide Do;
    hide FromCallback;
    hide BeforeCallback;
    hide InverseBody;
    var inv := InverseFor(stubName, runtimeLock, f);
    var (ps, n1) := NameParams(f, n);
    NoInverseError(Params(f), ReturnType(f));
    assert Types(ps) == Params(f);
    forall p | p in ps ensures InjError(p.ty).None? {
      var i :| 0 <= i < |ps| && ps[i] == p;
      assert Params(f)[i] in Params(f);
    }
    var env := BindParams(CParams(ps), args);
    forall i | 0 <= i < |ps| ensures Lookup(env, ps[i].x) == args[i] { ParamsBound(CParams(ps), args, i); }
    NamedUnbound(CParams(ps), args, LOCALS);
    NamedUnbound(CParams(ps), args, inv.index);
    ReservedNames(stubName);
    InverseBodyMeaning(m, inv, ps, n1, args, env, w);
  }

  lemma {:induction false} AddsEvents(m: Machine, ts: seq<Typ>, vs: seq<Val>, i: nat, w: World) returns (added: seq<Event>)
    requires |ts| == |vs| && forall t :: t in ts ==> InjError(t).None?
    ensures Extends(w, InjectAll(m, ts, vs, i, w).1, added)
  {
    added := InjectAllSteady(m, ts, vs, i, w);
  }

  lemma BeforeAdds(m: Machine, inv: Inverse, ts: seq<Typ>, args: seq<Val>, w: World) returns (added: seq<Event>)
    requires |ts| == |args| && Convertible(ts, inv.ret)
    ensures Extends(w, BeforeCallback(m, inv, ts, args, w).1, added)
  {
    hide InjectAll;
    added := [];
    var w0 := w;
    assert w.trace + [] == w.trace;
    if inv.runtimeLock {
      w0 := Do(m, OCall(ACQUIRE_RUNTIME), [], w).1;
      added := [w0.trace[|w.trace|]];
    }
    var w1 := Do(m, OParam0, [], w0).1;
    var w2 := Do(m, OLocalN, [Unbound(LOCALS), CInt(|ts|)], w1).1;
    var frame := [w1.trace[|w0.trace|], w2.trace[|w1.trace|]];
    assert w2.trace == w0.trace + frame;
    hide Do;
    var injected := AddsEvents(m, ts, args, 0, w2);
    assert w.trace + added + frame + injected == w.trace + (added + frame + injected);
    added := added + frame + injected;
  }

  /** A callback's result is read while it is still where it was returned: between the
      callback, made with as many arguments as there are slots, and the dropping of the
      roots nothing allocates, and nothing but giving back the lock comes after that. */
  lemma ResultReadInTime(m: Machine, stubName: string, runtimeLock: bool, f: Fn, n: nat, args: seq<Val>, w: World)
      returns (before: seq<Event>, loads: seq<Event>, last: seq<Event>)
    requires GenerateInverse(stubName, runtimeLock, f, n).Ok? && |args| == |Params(f)| && KeepsValues(m)
    ensures |GenerateInverse(stubName, runtimeLock, f, n).value.params| == |args|
    ensures RunBody(m, GenerateInverse(stubName, runtimeLock, f, n).value, args, w).1.trace == w.trace + before + loads + last
    ensures |before| > 0 && before[|before| - 1].op == OCall(CFunction("caml_callbackN", true, true, VALUE))
    ensures |before[|before| - 1].args| == 3 && before[|before| - 1].args[1] == CInt(|args|)
    ensures NoAllocation(loads) && |last| == (if runtimeLock then 2 else 1) && last[0].op.ODrop?
    ensures runtimeLock ==> IsRelease(last[1].op)
  {
    hide GenerateInverse;
    hide RunBody;
    hide NoAllocation;
    hide KeepsValues;
    hide BeforeCallback;
    hide FromCallback;
    InverseStubRefinesSpec(m, stubName, runtimeLock, f, n, args, w);
    var inv := Inverse(ReturnType(f), Named("fn_" + stubName), runtimeLock);
    var start := BeforeAdds(m, inv, Params(f), args, w);
    var w0 := BeforeCallback(m, inv, Params(f), args, w).1;
    before, loads, last := FromCallbackEvents(m, inv, |args|, w0);
    assert w.trace + start + before + loads + last == w.trace + (start + before) + loads + last;
    before := start + before;
  }

  lemma FromCallbackEvents(m: Machine, inv: Inverse, nargs: nat, w: World)
      returns (before: seq<Event>, loads: seq<Event>, last: seq<Event>)
    requires PrjError(inv.ret).None?
    ensures FromCallback(m, inv, nargs, w).1.trace == w.trace + before + loads + last
    ensures |before| == 3 && before[2].op == OCall(CALLBACK_N) && |before[2].args| == 3 && before[2].args[1] == CInt(nargs)
    ensures NoAllocation(loads) && |last| == (if inv.runtimeLock then 2 else 1) && last[0].op.ODrop?
    ensures inv.runtimeLock ==> IsRelease(last[1].op)
  {
    hide Project;
    hide PrjError;
    hide HasNoArgument;
    var (fs, w1) := Do(m, OGlobal(FUNCTIONS), [], w);
    var (f, w2) := Do(m, OIndex, [fs, Unbound(inv.index)], w1);
    var (r, w3) := Do(m, OCall(CALLBACK_N), [f, CInt(nargs), Unbound(LOCALS)], w2);
    before := [w1.trace[|w.trace|], w2.trace[|w1.trace|], w3.trace[|w2.trace|]];
    assert w3.trace == w.trace + before;
    loads := [];
    var w4 := w3;
    assert w3.trace + [] == w3.trace;
    if !HasNoArgument(inv.ret) {
      loads := ProjectReads(m, inv.ret, r, w3);
      w4 := Project(m, inv.ret, r, w3).1;
    }
    var w5 := Do(m, ODrop, [], w4).1;
    var w6 := Do(m, OCall(RELEASE_RUNTIME), [], w5).1;
    last := [w5.trace[|w4.trace|]];
    if inv.runtimeLock { last := last + [w6.trace[|w5.trace|]]; }
  }

  // ---- The lock ----

  lemma {:induction false} InjectAllSteady(m: Machine, ts: seq<Typ>, vs: seq<Val>, i: nat, w: World) returns (added: seq<Event>)
    requires |ts| == |vs| && forall t :: t in ts ==> InjError(t).None?
    ensures var w1 := InjectAll(m, ts, vs, i, w).1;
            Extends(w, w1, added) && Steady(added, w.locked) && w1.locked == w.locked && w1.roots == w.roots
    decreases |ts|
  {
    hide Inject;
    if ts == [] {
      added := [];
      assert w.trace + [] == w.trace;
    } else {
      assert ts[0] in ts;
      var a := InjectSteady(m, ts[0], vs[0], w);
      var (v, w1) := Inject(m, ts[0], vs[0], w);
      var w2 := w1.(slots := w1.slots[i := v]);
      var b := InjectAllSteady(m, ts[1..], vs[1..], i + 1, w2);
      added := SteadyJoin(w, w2, InjectAll(m, ts[1..], vs[1..], i + 1, w2).1, a, b, w.locked);
    }
  }

  lemma OneOp(m: Machine, op: Op, args: seq<Val>, w: World) returns (added: seq<Event>)
    requires !LockOp(op)
    ensures var w1 := Do(m, op, args, w).1;
            && Extends(w, w1, added) && Steady(added, w.locked) && w1.locked == w.locked
            && w1.roots == w.roots + (if op.ORoots? || op.OParam0? then 1 else if op.ODrop? then -1 else 0)
  {
    added := [Event(op, args, w.locked, w.slots, Do(m, op, args, w).0)];
  }

  lemma CallbackIsNoLockOp()
    ensures !LockOp(OCall(CALLBACK_N))
  {
  }

  // Everything between taking the lock and giving it back.
  lemma InsideSteady(m: Machine, inv: Inverse, ts: seq<Typ>, args: seq<Val>, w: World) returns (added: seq<Event>)
    requires |ts| == |args| && Convertible(ts, inv.ret) && !inv.runtimeLock
    ensures var w1 := FromCallback(m, inv, |ts|, BeforeCallback(m, inv, ts, args, w).1).1;
            Extends(w, w1, added) && Steady(added, w.locked) && w1.locked == w.locked && w1.roots == w.roots
  {
    hide Do;
    hide Project;
    hide InjectAll;
    var locked := w.locked;
    var a := OneOp(m, OParam0, [], w);
    var w1 := Do(m, OParam0, [], w).1;
    var b := OneOp(m, OLocalN, [Unbound(LOCALS), CInt(|ts|)], w1);
    var w2 := Do(m, OLocalN, [Unbound(LOCALS), CInt(|ts|)], w1).1;
    added := SteadyJoin(w, w1, w2, a, b, locked);
    var c := InjectAllSteady(m, ts, args, 0, w2);
    var w3 := InjectAll(m, ts, args, 0, w2).1;
    added := SteadyJoin(w, w2, w3, added, c, locked);
    var d := CallSteady(m, inv, |ts|, w3);
    added := SteadyJoin(w, w3, FromCallback(m, inv, |ts|, w3).1, added, d, locked);
  }

  lemma CallSteady(m: Machine, inv: Inverse, nargs: nat, w: World) returns (added: seq<Event>)
    requires PrjError(inv.ret).None? && !inv.runtimeLock
    ensures var w1 := FromCallback(m, inv, nargs, w).1;
            Extends(w, w1, added) && Steady(added, w.locked) && w1.locked == w.locked && w1.roots == w.roots - 1
  {
    hide Do;
    hide Project;
    var locked := w.locked;
    var a := OneOp(m, OGlobal(FUNCTIONS), [], w);
    var (fs, w1) := Do(m, OGlobal(FUNCTIONS), [], w);
    var b := OneOp(m, OIndex, [fs, Unbound(inv.index)], w1);
    var (f, w2) := Do(m, OIndex, [fs, Unbound(inv.index)], w1);
    added := SteadyJoin(w, w1, w2, a, b, locked);
    CallbackIsNoLockOp();
    var cargs := [f, CInt(nargs), Unbound(LOCALS)];
    var c := OneOp(m, OCall(CALLBACK_N), cargs, w2);
    var (r, w3) := Do(m, OCall(CALLBACK_N), cargs, w2);
    added := SteadyJoin(w, w2, w3, added, c, locked);
    var w4 := w3;
    if !HasNoArgument(inv.ret) {
      var p := ProjectReads(m, inv.ret, r, w3);
      w4 := Project(m, inv.ret, r, w3).1;
      added := SteadyJoin(w, w3, w4, added, p, locked);
    }
    var d := OneOp(m, ODrop, [], w4);
    added := SteadyJoin(w, w4, Do(m, ODrop, [], w4).1, added, d, locked);
  }

  /** Runtime-lock discipline of every inverse stub: called with the lock held exactly
      when it is not to take it, it touches the heap only with the lock held, hands
      the lock back as it found it, and closes its root frame. */
  lemma InverseStubsKeepTheLock(m: Machine, stubName: string, runtimeLock: bool, f: Fn, n: nat, args: seq<Val>, w: World)
      returns (added: seq<Event>)
    requires GenerateInverse(stubName, runtimeLock, f, n).Ok? && |args| == |Params(f)| && KeepsValues(m)
    requires w.locked == !runtimeLock && |GenerateInverse(stubName, runtimeLock, f, n).value.params| == |args|
    ensures var w1 := RunBody(m, GenerateInverse(stubName, runtimeLock, f, n).value, args, w).1;
            && Extends(w, w1, added) && w1.locked == w.locked && w1.roots == w.roots
            && (forall i :: 0 <= i < |added| && TouchesHeap(added[i].op) ==> added[i].locked)
            && (forall i :: 0 <= i < |added| && LockOp(added[i].op) ==> runtimeLock && (i == 0 || i == |added| - 1))
            && (runtimeLock ==> |added| >= 2 && IsAcquire(added[0].op) && IsRelease(added[|added| - 1].op))
  {
    hide InverseBody;
    var inv := InverseFor(stubName, runtimeLock, f);
    InverseStubRefinesSpec(m, stubName, runtimeLock, f, n, args, w);
    added := InverseSpecLock(m, inv, Params(f), args, w);
  }

  lemma InverseSpecLock(m: Machine, inv: Inverse, ts: seq<Typ>, args: seq<Val>, w: World) returns (added: seq<Event>)
    requires |ts| == |args| && Convertible(ts, inv.ret) && w.locked == !inv.runtimeLock
    ensures var w1 := FromCallback(m, inv, |ts|, BeforeCallback(m, inv, ts, args, w).1).1;
            && Extends(w, w1, added) && w1.locked == w.locked && w1.roots == w.roots
            && (forall i :: 0 <= i < |added| && TouchesHeap(added[i].op) ==> added[i].locked)
            && (forall i :: 0 <= i < |added| && LockOp(added[i].op) ==> inv.runtimeLock && (i == 0 || i == |added| - 1))
            && (inv.runtimeLock ==> |added| >= 2 && IsAcquire(added[0].op) && IsRelease(added[|added| - 1].op))
  {
    if !inv.runtimeLock {
      added := InsideSteady(m, inv, ts, args, w);
    } else {
      var inner := inv.(runtimeLock := false);
      Bracketed(m, inv, ts, args, w);
      var (u, w0) := Do(m, OCall(ACQUIRE_RUNTIME), [], w);
      var mid := InsideSteady(m, inner, ts, args, w0);
      added := BracketedLock(m, w, mid, FromCallback(m, inner, |ts|, BeforeCallback(m, inner, ts, args, w0).1).1);
    }
  }

  // Taking the lock only adds a first and a last operation.
  lemma Bracketed(m: Machine, inv: Inverse, ts: seq<Typ>, args: seq<Val>, w: World)
    requires |ts| == |args| && Convertible(ts, inv.ret) && inv.runtimeLock
    ensures var inner := inv.(runtimeLock := false);
            var w0 := Do(m, OCall(ACQUIRE_RUNTIME), [], w).1;
            FromCallback(m, inv, |ts|, BeforeCallback(m, inv, ts, args, w).1).1 ==
            Do(m, OCall(RELEASE_RUNTIME), [], FromCallback(m, inner, |ts|, BeforeCallback(m, inner, ts, args, w0).1).1).1
  {
    hide Do;
    hide Project;
    hide InjectAll;
  }

  lemma BracketedLock(m: Machine, w: World, mid: seq<Event>, w1: World) returns (added: seq<Event>)
    requires var w0 := Do(m, OCall(ACQUIRE_RUNTIME), [], w).1;
             Extends(w0, w1, mid) && Steady(mid, true) && w1.locked && w1.roots == w0.roots
    ensures var w2 := Do(m, OCall(RELEASE_RUNTIME), [], w1).1;
            && Extends(w, w2, added) && !w2.locked && w2.roots == w.roots && |added| >= 2
            && (forall i :: 0 <= i < |added| && TouchesHeap(added[i].op) ==> added[i].locked)
            && (forall i :: 0 <= i < |added| && LockOp(added[i].op) ==> (i == 0 || i == |added| - 1))
            && IsAcquire(added[0].op) && IsRelease(added[|added| - 1].op)
  {
    AcquireIsNotRelease();
    var u := Do(m, OCall(ACQUIRE_RUNTIME), [], w).0;
    var u2 := Do(m, OCall(RELEASE_RUNTIME), [], w1).0;
    var first := [Event(OCall(ACQUIRE_RUNTIME), [], w.locked, w.slots, u)];
    var last := [Event(OCall(RELEASE_RUNTIME), [], w1.locked, w1.slots, u2)];
    added := first + mid + last;
    assert w.trace + first + mid + last == w.trace + added;
    forall i | 0 < i < |added| - 1 ensures added[i].locked && !LockOp(added[i].op) { assert added[i] == mid[i - 1]; }
  }
}

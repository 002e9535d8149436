/** Stubs that let OCaml call C: `fn` and `byte_fn` of
    src/cstubs/cstubs_generate_c.ml:187-265, and the dispatch at 536-544. */
module CStub {
  import opened CtypesStatic
  import opened CLanguage
  import opened LetFloat
  import opened Projections

  datatype Concurrency = Sequential | Unlocked | LwtPreemptive | LwtJobs
  datatype ErrnoPolicy = IgnoreErrno | ReturnErrno

  // What a stub is generated for: the C function, whether the lock is released
  // around it, and whether errno is returned.
  datatype Config = Config(cname: string, unlocked: bool, errno: ErrnoPolicy)

  // A parameter of the description together with its generated name.
  datatype Param = Param(x: Name, ty: Typ)

  /** `name_params`: one fresh name per parameter, Void ones included. */
  function NameParams(f: Fn, n: nat): (r: (seq<Param>, nat))
    ensures |r.0| == |Params(f)| && r.1 == n + |r.0|
    ensures forall i :: 0 <= i < |r.0| ==> r.0[i] == Param(Fresh(n + 1 + i), Params(f)[i])
    decreases f
  {
    match f
    case Returns(_) => ([], n)
    case Function(t, rest) => var (ps, j) := NameParams(rest, n + 1); ([Param(Fresh(n + 1), t)] + ps, j)
  }

  function ValueParams(ps: seq<Param>): (r: seq<(Name, Typ)>)
    ensures |r| == |ps| && forall i :: 0 <= i < |ps| ==> r[i] == (ps[i].x, VALUE)
  {
    seq(|ps|, i requires 0 <= i < |ps| => (ps[i].x, VALUE))
  }

  function Names(ps: seq<Param>): (r: seq<Name>)
    ensures |r| == |ps| && forall i :: 0 <= i < |ps| ==> r[i] == ps[i].x
  {
    seq(|ps|, i requires 0 <= i < |ps| => ps[i].x)
  }

  /** The first exception generation raises: a parameter that cannot be projected,
      else a result that cannot be injected. */
  function FirstError(params: seq<Typ>, ret: Typ): Option<Error> {
    if params == [] then InjError(ret)
    else if PrjError(params[0]).Some? then PrjError(params[0])
    else FirstError(params[1..], ret)
  }

  function Foreign(cfg: Config, ret: Typ): CFunction { CFunction(cfg.cname, false, false, ret) }

  function FinishValue(): Cont { (v: CExp, j: nat) => (CamlReturnT(VALUE, v), j) }

  function PairErrno(): Cont { (v: CExp, j: nat) => (Eff(App(PAIR_WITH_ERRNO, [v])), j) }

  function PairAndFinish(): Cont {
    (v: CExp, j: nat) => Bind(Eff(App(PAIR_WITH_ERRNO, [v])), VALUE, FinishValue(), j)
  }

  /** The end of a stub: the call, then the injected result, for the four policies.
      `vars` holds the projected arguments, last one first. */
  function Finish(cfg: Config, vars: seq<CExp>, ret: Typ, n: nat): (CComp, nat)
    requires InjError(ret).None?
  {
    var x := Fresh(n + 1);
    var call := App(Foreign(cfg, ret), Reverse(vars));
    var inj := Eff(Inj(ret, x, ret));
    match (cfg.errno, cfg.unlocked)
    case (IgnoreErrno, false) => (Let(x, ret, call, inj), n + 1)
    case (IgnoreErrno, true) =>
      var (a, n1) := Bind(inj, VALUE, FinishValue(), n + 1);
      var (b, n2) := Then(Eff(App(ACQUIRE_RUNTIME, [])), a, n1);
      Then(Eff(App(RELEASE_RUNTIME, [])), Let(x, ret, call, b), n2)
    case (ReturnErrno, false) =>
      var (a, n1) := Bind(inj, VALUE, PairErrno(), n + 1);
      (LetAssign(LGlobal(ERRNO), Exp(IntConst(0)), Let(x, ret, call, a)), n1)
    case (ReturnErrno, true) =>
      var (a, n1) := Then(Eff(App(ACQUIRE_RUNTIME, [])), inj, n + 1);
      var (b, n2) := Bind(a, VALUE, PairAndFinish(), n1);
      var (c, n3) := Then(Eff(App(RELEASE_RUNTIME, [])), Let(x, ret, call, b), n2);
      (LetAssign(LGlobal(ERRNO), Exp(IntConst(0)), c), n3)
  }

  /** Projects the parameters in order, skipping those without a C argument. */
  function Body(cfg: Config, vars: seq<CExp>, ps: seq<Param>, ret: Typ, n: nat): (CComp, nat)
    requires InjError(ret).None? && forall p :: p in ps ==> PrjError(p.ty).None?
    decreases |ps|, 0
  {
    if ps == [] then Finish(cfg, vars, ret, n)
    else match Prj(ps[0].ty, ps[0].ty, Local(ps[0].x, VALUE), n)
      case None => Body(cfg, vars, ps[1..], ret, n)
      case Some((projected, n1)) => Bind(projected, ps[0].ty, BodyAfter(cfg, vars, ps[1..], ret), n1)
  }

  // `fun x' -> body (x' :: vars) t`
  function BodyAfter(cfg: Config, vars: seq<CExp>, ps: seq<Param>, ret: Typ): Cont
    requires InjError(ret).None? && forall p :: p in ps ==> PrjError(p.ty).None?
    decreases |ps|, 1
  {
    (x': CExp, j: nat) => Body(cfg, [x'] + vars, ps, ret, j)
  }

  predicate NoErrors(ts: seq<Typ>, ret: Typ) {
    InjError(ret).None? && forall t :: t in ts ==> PrjError(t).None?
  }

  lemma {:induction false} NoErrorMeans(params: seq<Typ>, ret: Typ)
    ensures FirstError(params, ret).None? <==> NoErrors(params, ret)
  {
    if params != [] {
      NoErrorMeans(params[1..], ret);
      assert params[0] in params;
      assert forall t :: t in params[1..] ==> t in params;
      assert forall t :: t in params ==> t == params[0] || t in params[1..];
    }
  }

  /** `Generate_C.fn`. */
  function Generate(cfg: Config, stubName: string, f: Fn, n: nat): (r: Result<CFundef>)
    ensures r.Ok? <==> FirstError(Params(f), ReturnType(f)).None?
    ensures r.Ok? ==> |r.value.params| == |Params(f)|
  {
    var ret := ReturnType(f);
    match FirstError(Params(f), ret)
    case Some(e) => Raises(e)
    case None =>
      var (ps, n1) := NameParams(f, n);
      NoErrorMeans(Params(f), ret);
      var body := Body(cfg, [], ps, ret, n1).0;
      Ok(Assemble(cfg, stubName, ps, body))
  }

  /** The policy dispatch: releasing the lock is refused for OCaml arguments. */
  function Dispatch(c: Concurrency, errno: ErrnoPolicy, cname: string, stubName: string, f: Fn, n: nat): Result<CFundef>
    requires !c.LwtJobs?
  {
    if !c.Sequential? && HasOCamlArgument(f)
    then Raises(Unsupported("Unsupported argument type when releasing runtime lock"))
    else Generate(Config(cname, !c.Sequential?, errno), stubName, f, n)
  }

  // ---- Reference meaning: no program, no names ----

  /** Project the arguments left to right, dropping those without a C argument. */
  function ProjectAll(m: Machine, ts: seq<Typ>, vs: seq<Val>, w: World): (seq<Val>, World)
    requires |ts| == |vs| && forall t :: t in ts ==> PrjError(t).None?
  {
    if ts == [] then ([], w)
    else if HasNoArgument(ts[0]) then ProjectAll(m, ts[1..], vs[1..], w)
    else
      var (c, w1) := Project(m, ts[0], vs[0], w);
      var (cs, w2) := ProjectAll(m, ts[1..], vs[1..], w1);
      ([c] + cs, w2)
  }

  // What was projected, each in the world the one before left.
  ghost predicate InTurn(m: Machine, ts: seq<Typ>, vs: seq<Val>, at: seq<nat>, ws: seq<World>, cs: seq<Val>) {
    && |vs| == |ts| && |cs| == |at| && |ws| == |at| + 1 && (forall t :: t in ts ==> PrjError(t).None?)
    && (forall i :: 0 <= i < |at| ==> at[i] < |ts| && !HasNoArgument(ts[at[i]]))
    && (forall i, k :: 0 <= i < k < |at| ==> at[i] < at[k])
    && forall i :: 0 <= i < |at| ==> (cs[i], ws[i + 1]) == Project(m, ts[at[i]], vs[at[i]], ws[i])
  }

  /** The C arguments, one by one: `at` lists in increasing order the parameters that have
      one, all of them; the i-th C argument is the projection of the one listed i-th. */
  lemma {:induction false} ProjectedInOrder(m: Machine, ts: seq<Typ>, vs: seq<Val>, w: World) returns (at: seq<nat>, ws: seq<World>)
    requires |ts| == |vs| && forall t :: t in ts ==> PrjError(t).None?
    ensures InTurn(m, ts, vs, at, ws, ProjectAll(m, ts, vs, w).0)
    ensures ws[0] == w && ws[|at|] == ProjectAll(m, ts, vs, w).1
    ensures forall j :: 0 <= j < |ts| && !HasNoArgument(ts[j]) ==> j in at
    decreases |ts|
  {
    hide Project;
    hide PrjError;
    hide HasNoArgument;
    if ts == [] { at, ws := [], [w]; } else {
      var one := !HasNoArgument(ts[0]);
      var w1 := if one then Project(m, ts[0], vs[0], w).1 else w;
      var more, ws1 := ProjectedInOrder(m, ts[1..], vs[1..], w1);
      var moved := seq(|more|, i requires 0 <= i < |more| => more[i] + 1);
      at, ws := (if one then [0] else []) + moved, (if one then [w] else []) + ws1;
      hide InTurn;
      MovedOn(m, ts, vs, w, w1, more, moved, ws1, at, ws);
      forall j | 0 <= j < |ts| && !HasNoArgument(ts[j]) ensures j in at {
        if j > 0 {
          assert ts[1..][j - 1] == ts[j] && j - 1 in more;
          var i :| 0 <= i < |more| && more[i] == j - 1;
          assert moved[i] == j && moved[i] in at;
        } else { assert at[0] == 0; }
      }
    }
  }

  lemma MovedOn(m: Machine, ts: seq<Typ>, vs: seq<Val>, w: World, w1: World, more: seq<nat>, moved: seq<nat>, ws1: seq<World>,
                at: seq<nat>, ws: seq<World>)
    requires |ts| == |vs| && |ts| > 0 && forall t :: t in ts ==> PrjError(t).None?
    requires |moved| == |more| && forall i :: 0 <= i < |more| ==> moved[i] == more[i] + 1
    requires var one := !HasNoArgument(ts[0]);
             && w1 == (if one then Project(m, ts[0], vs[0], w).1 else w)
             && at == (if one then [0] else []) + moved && ws == (if one then [w] else []) + ws1
    requires InTurn(m, ts[1..], vs[1..], more, ws1, ProjectAll(m, ts[1..], vs[1..], w1).0) && ws1[0] == w1
    ensures InTurn(m, ts, vs, at, ws, ProjectAll(m, ts, vs, w).0)
  {
    hide Project;
    hide PrjError;
    hide HasNoArgument;
    var cs, one := ProjectAll(m, ts, vs, w).0, !HasNoArgument(ts[0]);
    var k := if one then 1 else 0;
    forall i | 0 <= i < |at|
      ensures at[i] < |ts| && !HasNoArgument(ts[at[i]]) && (cs[i], ws[i + 1]) == Project(m, ts[at[i]], vs[at[i]], ws[i])
    {
      if i >= k {
        assert at[i] == more[i - k] + 1 && ts[1..][more[i - k]] == ts[at[i]] && vs[1..][more[i - k]] == vs[at[i]];
        assert ws[i] == ws1[i - k] && ws[i + 1] == ws1[i - k + 1];
      }
    }
    forall i, j | 0 <= i < j < |at| ensures at[i] < at[j] {
      if i >= k { assert at[i] == more[i - k] + 1 && at[j] == more[j - k] + 1; }
    }
  }

  /** The foreign call on the given C arguments, with what the policies put around it. */
  function CallSpec(m: Machine, cfg: Config, cargs: seq<Val>, ret: Typ, w: World): (Val, World)
    requires InjError(ret).None?
  {
    var w0 := if cfg.errno.ReturnErrno? then w.(errno := CInt(0)) else w;
    var w1 := if cfg.unlocked then Do(m, OCall(RELEASE_RUNTIME), [], w0).1 else w0;
    var (r, w2) := Do(m, OCall(Foreign(cfg, ret)), cargs, w1);
    var w3 := if cfg.unlocked then Do(m, OCall(ACQUIRE_RUNTIME), [], w2).1 else w2;
    ResultSpec(m, cfg, ret, m.convert(ret, r), w3)
  }

  // The result injected, and paired with errno when that is asked for.
  function ResultSpec(m: Machine, cfg: Config, ret: Typ, c: Val, w: World): (Val, World)
    requires InjError(ret).None?
  {
    var (v, w1) := Inject(m, ret, c, w);
    if cfg.errno.ReturnErrno? then Do(m, OCall(PAIR_WITH_ERRNO), [v], w1) else (v, w1)
  }

  /** What a stub is for: root the arguments if the lock is to be released, project
      them, call, inject the result. */
  function StubSpec(m: Machine, cfg: Config, ts: seq<Typ>, ret: Typ, args: seq<Val>, w: World): (Val, World)
    requires |args| == |ts| && NoErrors(ts, ret)
  {
    var w0 := if cfg.unlocked then Do(m, ORoots, args, w).1 else w;
    var (cargs, w1) := ProjectAll(m, ts, args, w0);
    var (v, w2) := CallSpec(m, cfg, cargs, ret, w1);
    (v, if cfg.unlocked then w2.(roots := w2.roots - 1) else w2)
  }

  // ---- The generated code meets it ----

  function ExitFor(cfg: Config): Exit { if cfg.unlocked then ByCamlReturn else Plain }

  lemma CallNone(m: Machine, f: CFunction, env: Env, w: World)
    ensures EvalEff(m, App(f, []), env, w) == Do(m, OCall(f), [], w)
  {
    assert EvalExps(m, [], env) == [];
  }

  lemma ThenMeaning(m: Machine, f: CFunction, c: CComp, n: nat, env: Env, w: World)
    ensures var (v, w1) := Do(m, OCall(f), [], w);
            EvalComp(m, Then(Eff(App(f, [])), c, n).0, env, w) ==
              EvalComp(m, c, env[Fresh(n + 1) := m.convert(Void, v)], w1)
  {
    CallNone(m, f, env, w);
  }

  lemma InjectThenFinish(m: Machine, ret: Typ, x: Name, n: nat, env: Env, w: World)
    requires InjError(ret).None? && KeepsValues(m)
    ensures var (v, w1) := Inject(m, ret, Lookup(env, x), w);
            EvalComp(m, Bind(Eff(Inj(ret, x, ret)), VALUE, FinishValue(), n).0, env, w) == Outcome(v, w1, ByCamlReturn)
  {
    InjMeaning(m, ret, x, ret, env, w);
  }

  lemma CallMeaning(m: Machine, cfg: Config, vars: seq<CExp>, ret: Typ, env: Env, w: World)
    ensures EvalEff(m, App(Foreign(cfg, ret), Reverse(vars)), env, w) ==
            Do(m, OCall(Foreign(cfg, ret)), EvalExps(m, Reverse(vars), env), w)
  {
  }

  /** The end of a stub means the call specification, for each of the four policies. */
  lemma FinishMeaning(m: Machine, cfg: Config, vars: seq<CExp>, ret: Typ, n: nat, env: Env, w: World)
    requires InjError(ret).None? && KeepsValues(m)
    requires forall e :: e in vars ==> ExpBelow(e, n)
    ensures var (v, w1) := CallSpec(m, cfg, EvalExps(m, Reverse(vars), env), ret, w);
            EvalComp(m, Finish(cfg, vars, ret, n).0, env, w) == Outcome(v, w1, ExitFor(cfg))
  {
    match (cfg.errno, cfg.unlocked)
    case (IgnoreErrno, false) => FinishIgnoreSequential(m, cfg, vars, ret, n, env, w);
    case (IgnoreErrno, true) => FinishIgnoreUnlocked(m, cfg, vars, ret, n, env, w);
    case (ReturnErrno, false) => FinishReturnSequential(m, cfg, vars, ret, n, env, w);
    case (ReturnErrno, true) => FinishReturnUnlocked(m, cfg, vars, ret, n, env, w);
  }

  lemma FinishIgnoreSequential(m: Machine, cfg: Config, vars: seq<CExp>, ret: Typ, n: nat, env: Env, w: World)
    requires InjError(ret).None? && cfg.errno.IgnoreErrno? && !cfg.unlocked
    ensures var (v, w1) := CallSpec(m, cfg, EvalExps(m, Reverse(vars), env), ret, w);
            EvalComp(m, Finish(cfg, vars, ret, n).0, env, w) == Outcome(v, w1, Plain)
  {
    hide Inject;
    hide Inj;
    hide InjError;
    var x := Fresh(n + 1);
    CallMeaning(m, cfg, vars, ret, env, w);
    var (r, w1) := Do(m, OCall(Foreign(cfg, ret)), EvalExps(m, Reverse(vars), env), w);
    InjMeaning(m, ret, x, ret, env[x := m.convert(ret, r)], w1);
  }

  // The variables bound around the call are not among those it mentions.
  lemma UnchangedArguments(m: Machine, vars: seq<CExp>, n: nat, j: nat, v: Val, env: Env)
    requires n < j && forall e :: e in vars ==> ExpBelow(e, n)
    ensures EvalExps(m, Reverse(vars), env[Fresh(j) := v]) == EvalExps(m, Reverse(vars), env)
  {
    ReverseElements(vars);
    forall i | 0 <= i < |vars|
      ensures EvalExp(m, Reverse(vars)[i], env[Fresh(j) := v]) == EvalExp(m, Reverse(vars)[i], env)
    {
      assert Reverse(vars)[i] in vars;
      SameBelow(m, Reverse(vars)[i], n, env, env[Fresh(j) := v]);
    }
  }

  lemma {:induction false} ReverseElements<T>(s: seq<T>)
    ensures forall x :: x in Reverse(s) <==> x in s
  {
    if s != [] {
      ReverseElements(s[1..]);
      assert s == [s[0]] + s[1..];
    }
  }

  lemma {:induction false} SameBelow(m: Machine, e: CExp, n: nat, env: Env, env1: Env)
    requires ExpBelow(e, n)
    requires forall y: Name {:trigger Lookup(env1, y)} :: (y.Fresh? ==> y.n <= n) ==> Lookup(env1, y) == Lookup(env, y)
    ensures EvalExp(m, e, env1) == EvalExp(m, e, env)
  {
    match e
    case Cast(_, e') => SameBelow(m, e', n, env, env1);
    case Local(x, _) => assert Lookup(env1, x) == Lookup(env, x);
    case AddrLocal(x, _) => assert Lookup(env1, x) == Lookup(env, x);
    case _ =>
  }

  // The code at the end of an unlocked stub from the call on.
  function Released(cfg: Config, vars: seq<CExp>, ret: Typ, x: Name, rel: Name, acq: Name, rest: CComp): CComp {
    Let(rel, Void, App(RELEASE_RUNTIME, []),
      Let(x, ret, App(Foreign(cfg, ret), Reverse(vars)),
        Let(acq, Void, App(ACQUIRE_RUNTIME, []), rest)))
  }

  lemma ReleasedMeaning(m: Machine, cfg: Config, vars: seq<CExp>, ret: Typ, n: nat, x: nat, rel: nat, acq: nat,
                        rest: CComp, env: Env, w: World) returns (env3: Env, w3: World)
    requires n < rel && x != acq && forall e :: e in vars ==> ExpBelow(e, n)
    ensures var w1 := Do(m, OCall(RELEASE_RUNTIME), [], w).1;
            var (r, w2) := Do(m, OCall(Foreign(cfg, ret)), EvalExps(m, Reverse(vars), env), w1);
            && w3 == Do(m, OCall(ACQUIRE_RUNTIME), [], w2).1 && Lookup(env3, Fresh(x)) == m.convert(ret, r)
            && EvalComp(m, Released(cfg, vars, ret, Fresh(x), Fresh(rel), Fresh(acq), rest), env, w) == EvalComp(m, rest, env3, w3)
  {
    var (u, w1) := Do(m, OCall(RELEASE_RUNTIME), [], w);
    CallNone(m, RELEASE_RUNTIME, env, w);
    var env1 := env[Fresh(rel) := m.convert(Void, u)];
    UnchangedArguments(m, vars, n, rel, m.convert(Void, u), env);
    CallMeaning(m, cfg, vars, ret, env1, w1);
    var (r, w2) := Do(m, OCall(Foreign(cfg, ret)), EvalExps(m, Reverse(vars), env), w1);
    var env2 := env1[Fresh(x) := m.convert(ret, r)];
    CallNone(m, ACQUIRE_RUNTIME, env2, w2);
    var u2 := Do(m, OCall(ACQUIRE_RUNTIME), [], w2).0;
    w3 := Do(m, OCall(ACQUIRE_RUNTIME), [], w2).1;
    env3 := env2[Fresh(acq) := m.convert(Void, u2)];
    var call := Let(Fresh(x), ret, App(Foreign(cfg, ret), Reverse(vars)), Let(Fresh(acq), Void, App(ACQUIRE_RUNTIME, []), rest));
    assert EvalComp(m, call, env1, w1) == EvalComp(m, Let(Fresh(acq), Void, App(ACQUIRE_RUNTIME, []), rest), env2, w2);
    assert Lookup(env3, Fresh(x)) == m.convert(ret, r);
  }

  lemma FinishIgnoreUnlocked(m: Machine, cfg: Config, vars: seq<CExp>, ret: Typ, n: nat, env: Env, w: World)
    requires InjError(ret).None? && cfg.errno.IgnoreErrno? && cfg.unlocked && KeepsValues(m)
    requires forall e :: e in vars ==> ExpBelow(e, n)
    ensures var (v, w1) := CallSpec(m, cfg, EvalExps(m, Reverse(vars), env), ret, w);
            EvalComp(m, Finish(cfg, vars, ret, n).0, env, w) == Outcome(v, w1, ByCamlReturn)
  {
    hide Inject;
    hide Inj;
    hide InjError;
    hide ExpBelow;
    hide Lookup;
    var inj := Eff(Inj(ret, Fresh(n + 1), ret));
    var rest := Bind(inj, VALUE, FinishValue(), n + 1).0;
    assert Finish(cfg, vars, ret, n).0 == Released(cfg, vars, ret, Fresh(n + 1), Fresh(n + 4), Fresh(n + 3), rest);
    var env3, w3 := ReleasedMeaning(m, cfg, vars, ret, n, n + 1, n + 4, n + 3, rest, env, w);
    InjectThenFinish(m, ret, Fresh(n + 1), n + 1, env3, w3);
  }

  lemma ErrnoReset(m: Machine, c: CComp, env: Env, w: World)
    ensures EvalComp(m, LetAssign(LGlobal(ERRNO), Exp(IntConst(0)), c), env, w) == EvalComp(m, c, env, w.(errno := CInt(0)))
  {
  }

  lemma FinishReturnSequential(m: Machine, cfg: Config, vars: seq<CExp>, ret: Typ, n: nat, env: Env, w: World)
    requires InjError(ret).None? && cfg.errno.ReturnErrno? && !cfg.unlocked && KeepsValues(m)
    ensures var (v, w1) := CallSpec(m, cfg, EvalExps(m, Reverse(vars), env), ret, w);
            EvalComp(m, Finish(cfg, vars, ret, n).0, env, w) == Outcome(v, w1, Plain)
  {
    hide Inject;
    hide Inj;
    hide InjError;
    var x := Fresh(n + 1);
    var y := Local(Fresh(n + 2), VALUE);
    var rest := Let(Fresh(n + 2), VALUE, Inj(ret, x, ret), Eff(App(PAIR_WITH_ERRNO, [y])));
    var call := App(Foreign(cfg, ret), Reverse(vars));
    assert Finish(cfg, vars, ret, n).0 == LetAssign(LGlobal(ERRNO), Exp(IntConst(0)), Let(x, ret, call, rest));
    ErrnoReset(m, Let(x, ret, call, rest), env, w);
    var w0 := w.(errno := CInt(0));
    CallMeaning(m, cfg, vars, ret, env, w0);
    var (r, w1) := Do(m, OCall(Foreign(cfg, ret)), EvalExps(m, Reverse(vars), env), w0);
    var env1 := env[x := m.convert(ret, r)];
    InjMeaning(m, ret, x, ret, env1, w1);
    var (v, w2) := Inject(m, ret, m.convert(ret, r), w1);
    CallOne(m, PAIR_WITH_ERRNO, y, env1[Fresh(n + 2) := v], w2);
    assert EvalComp(m, rest, env1, w1) == EvalComp(m, Eff(App(PAIR_WITH_ERRNO, [y])), env1[Fresh(n + 2) := v], w2);
  }

  lemma PairedMeaning(m: Machine, ret: Typ, x: Name, y: Name, z: Name, env: Env, w: World)
    requires InjError(ret).None? && KeepsValues(m)
    ensures var c := Let(y, VALUE, Inj(ret, x, ret),
                       Let(z, VALUE, App(PAIR_WITH_ERRNO, [Local(y, VALUE)]), CamlReturnT(VALUE, Local(z, VALUE))));
            var (v, w1) := Inject(m, ret, Lookup(env, x), w);
            var (p, w2) := Do(m, OCall(PAIR_WITH_ERRNO), [v], w1);
            EvalComp(m, c, env, w) == Outcome(p, w2, ByCamlReturn)
  {
    InjMeaning(m, ret, x, ret, env, w);
    var (v, w1) := Inject(m, ret, Lookup(env, x), w);
    CallOne(m, PAIR_WITH_ERRNO, Local(y, VALUE), env[y := v], w1);
    var (p, w2) := Do(m, OCall(PAIR_WITH_ERRNO), [v], w1);
    var tail := CamlReturnT(VALUE, Local(z, VALUE));
    assert EvalComp(m, tail, env[y := v][z := p], w2) == Outcome(p, w2, ByCamlReturn);
    assert EvalComp(m, Let(z, VALUE, App(PAIR_WITH_ERRNO, [Local(y, VALUE)]), tail), env[y := v], w1) ==
           EvalComp(m, tail, env[y := v][z := p], w2);
  }

  // The code for the fourth policy, written out.
  lemma ReturnUnlockedCode(cfg: Config, vars: seq<CExp>, ret: Typ, n: nat)
    requires InjError(ret).None? && cfg.errno.ReturnErrno? && cfg.unlocked
    ensures Finish(cfg, vars, ret, n).0 ==
      LetAssign(LGlobal(ERRNO), Exp(IntConst(0)),
        Released(cfg, vars, ret, Fresh(n + 1), Fresh(n + 6), Fresh(n + 2), 
          Let(Fresh(n + 4), VALUE, Inj(ret, Fresh(n + 1), ret),
            Let(Fresh(n + 5), VALUE, App(PAIR_WITH_ERRNO, [Local(Fresh(n + 4), VALUE)]),
              CamlReturnT(VALUE, Local(Fresh(n + 5), VALUE))))))
  {
    var inj := Inj(ret, Fresh(n + 1), ret);
    var y, z := Fresh(n + 4), Fresh(n + 5);
    var rest := Let(y, VALUE, inj,
                  Let(z, VALUE, App(PAIR_WITH_ERRNO, [Local(y, VALUE)]), CamlReturnT(VALUE, Local(z, VALUE))));
    var a := Let(Fresh(n + 2), Void, App(ACQUIRE_RUNTIME, []), Eff(inj));
    assert Then(Eff(App(ACQUIRE_RUNTIME, [])), Eff(inj), n + 1) == (a, n + 2);
    assert Bind(Eff(inj), VALUE, PairAndFinish(), n + 3) == (rest, n + 5);
    assert Bind(a, VALUE, PairAndFinish(), n + 2) == (Let(Fresh(n + 2), Void, App(ACQUIRE_RUNTIME, []), rest), n + 5);
  }

  lemma FinishReturnUnlocked(m: Machine, cfg: Config, vars: seq<CExp>, ret: Typ, n: nat, env: Env, w: World)
    requires InjError(ret).None? && cfg.errno.ReturnErrno? && cfg.unlocked && KeepsValues(m)
    requires forall e :: e in vars ==> ExpBelow(e, n)
    ensures var (v, w1) := CallSpec(m, cfg, EvalExps(m, Reverse(vars), env), ret, w);
            EvalComp(m, Finish(cfg, vars, ret, n).0, env, w) == Outcome(v, w1, ByCamlReturn)
  {
    hide Inject;
    hide Inj;
    hide InjError;
    hide ExpBelow;
    hide Lookup;
    hide Finish;
    var x, y, z := Fresh(n + 1), Fresh(n + 4), Fresh(n + 5);
    var rest := Let(y, VALUE, Inj(ret, x, ret),
                  Let(z, VALUE, App(PAIR_WITH_ERRNO, [Local(y, VALUE)]), CamlReturnT(VALUE, Local(z, VALUE))));
    var code := Released(cfg, vars, ret, x, Fresh(n + 6), Fresh(n + 2), rest);
    ReturnUnlockedCode(cfg, vars, ret, n);
    var w0 := w.(errno := CInt(0));
    ErrnoReset(m, code, env, w);
    hide EvalComp;
    hide Do;
    var env3, w3 := ReleasedMeaning(m, cfg, vars, ret, n, n + 1, n + 6, n + 2, rest, env, w0);
    PairedMeaning(m, ret, x, y, z, env3, w3);
  }

  function Types(ps: seq<Param>): (r: seq<Typ>)
    ensures |r| == |ps| && forall i :: 0 <= i < |ps| ==> r[i] == ps[i].ty
  {
    seq(|ps|, i requires 0 <= i < |ps| => ps[i].ty)
  }

  ghost predicate Bound(env: Env, ps: seq<Param>, args: seq<Val>, n: nat) {
    && |ps| == |args|
    && forall i :: 0 <= i < |ps| ==> ps[i].x.Fresh? && ps[i].x.n <= n && Lookup(env, ps[i].x) == args[i]
  }

  lemma ReverseCons(m: Machine, r: CExp, vars: seq<CExp>, env: Env)
    ensures EvalExps(m, Reverse([r] + vars), env) == EvalExps(m, Reverse(vars), env) + [EvalExp(m, r, env)]
  {
    assert ([r] + vars)[1..] == vars;
    assert Reverse([r] + vars) == Reverse(vars) + [r];
  }

  // The reference meaning with the arguments projected so far in `done`.
  function SpecFrom(m: Machine, cfg: Config, done: seq<Val>, ts: seq<Typ>, vs: seq<Val>, ret: Typ, w: World): Outcome
    requires |ts| == |vs| && InjError(ret).None? && forall t :: t in ts ==> PrjError(t).None?
    decreases |ts|
  {
    if ts == [] then var (v, w1) := CallSpec(m, cfg, done, ret, w); Outcome(v, w1, ExitFor(cfg))
    else if HasNoArgument(ts[0]) then SpecFrom(m, cfg, done, ts[1..], vs[1..], ret, w)
    else
      var (c, w1) := Project(m, ts[0], vs[0], w);
      SpecFrom(m, cfg, done + [c], ts[1..], vs[1..], ret, w1)
  }

  lemma {:induction false} SpecFromProjects(m: Machine, cfg: Config, done: seq<Val>, ts: seq<Typ>, vs: seq<Val>, ret: Typ, w: World)
    requires |ts| == |vs| && InjError(ret).None? && forall t :: t in ts ==> PrjError(t).None?
    ensures var (cs, w1) := ProjectAll(m, ts, vs, w);
            var (v, w2) := CallSpec(m, cfg, done + cs, ret, w1);
            SpecFrom(m, cfg, done, ts, vs, ret, w) == Outcome(v, w2, ExitFor(cfg))
    decreases |ts|
  {
    if ts == [] {
      assert done + [] == done;
    } else if HasNoArgument(ts[0]) {
      SpecFromProjects(m, cfg, done, ts[1..], vs[1..], ret, w);
    } else {
      var (c, w1) := Project(m, ts[0], vs[0], w);
      SpecFromProjects(m, cfg, done + [c], ts[1..], vs[1..], ret, w1);
      var (cs, w2) := ProjectAll(m, ts[1..], vs[1..], w1);
      assert done + [c] + cs == done + ([c] + cs);
    }
  }

  /** One parameter: its projection runs, and the rest of the body is generated with
      an expression for its value. */
  lemma BodyStep(m: Machine, cfg: Config, vars: seq<CExp>, ps: seq<Param>, ret: Typ, n: nat, env: Env, w: World)
      returns (r: CExp, j: nat, env1: Env, w1: World)
    requires InjError(ret).None? && forall p :: p in ps ==> PrjError(p.ty).None?
    requires ps != [] && !HasNoArgument(ps[0].ty) && ps[0].x.Fresh? && ps[0].x.n <= n
    requires forall e :: e in vars ==> ExpBelow(e, n)
    ensures PrjError(ps[0].ty).None? && forall p :: p in ps[1..] ==> PrjError(p.ty).None?
    ensures EvalComp(m, Body(cfg, vars, ps, ret, n).0, env, w) == EvalComp(m, Body(cfg, [r] + vars, ps[1..], ret, j).0, env1, w1)
    ensures j > n && forall e :: e in [r] + vars ==> ExpBelow(e, j)
    ensures w1 == Project(m, ps[0].ty, Lookup(env, ps[0].x), w).1
    ensures EvalExps(m, Reverse([r] + vars), env1) ==
            EvalExps(m, Reverse(vars), env) + [Project(m, ps[0].ty, Lookup(env, ps[0].x), w).0]
    ensures forall y: Name {:trigger Lookup(env1, y)} :: (y.Fresh? ==> y.n <= n) ==> Lookup(env1, y) == Lookup(env, y)
  {
    assert ps[0] in ps;
    var t, x := ps[0].ty, Local(ps[0].x, VALUE);
    PrjMeaning(m, t, t, x, n, env, w);
    var (projected, n1) := Prj(t, t, x, n).value;
    r, j := Tail(projected, t, n1).0, Tail(projected, t, n1).1;
    env1, w1 := After(m, projected, t, n1, env, w).0, After(m, projected, t, n1, env, w).1;
    BindMeaning(m, projected, t, BodyAfter(cfg, vars, ps[1..], ret), n1, env, w);
    StillBelow(vars, r, n, j);
    ReverseCons(m, r, vars, env1);
    StillTheSame(m, vars, n, env, env1);
  }

  /** Generated body against reference meaning, from any point of the parameter list:
      `vars` are the expressions of the arguments projected so far. */
  lemma {:induction false} BodyMeaning(m: Machine, cfg: Config, vars: seq<CExp>, ps: seq<Param>, ret: Typ, n: nat,
                                       args: seq<Val>, env: Env, w: World)
    requires InjError(ret).None? && forall p :: p in ps ==> PrjError(p.ty).None?
    requires KeepsValues(m) && Bound(env, ps, args, n) && forall e :: e in vars ==> ExpBelow(e, n)
    ensures forall t :: t in Types(ps) ==> PrjError(t).None?
    ensures EvalComp(m, Body(cfg, vars, ps, ret, n).0, env, w) ==
            SpecFrom(m, cfg, EvalExps(m, Reverse(vars), env), Types(ps), args, ret, w)
    decreases |ps|
  {
    if ps == [] {
      FinishMeaning(m, cfg, vars, ret, n, env, w);
    } else {
      assert Types(ps)[1..] == Types(ps[1..]);
      assert ps[0] in ps;
      NothingToProject(ps[0].ty, ps[0].ty, Local(ps[0].x, VALUE), n);
      if HasNoArgument(ps[0].ty) {
        BodyMeaning(m, cfg, vars, ps[1..], ret, n, args[1..], env, w);
      } else {
        var r, j, env1, w1 := BodyStep(m, cfg, vars, ps, ret, n, env, w);
        BodyMeaning(m, cfg, [r] + vars, ps[1..], ret, j, args[1..], env1, w1);
      }
    }
  }

  lemma StillBelow(vars: seq<CExp>, r: CExp, n: nat, j: nat)
    requires n <= j && ExpBelow(r, j) && forall e :: e in vars ==> ExpBelow(e, n)
    ensures forall e :: e in [r] + vars ==> ExpBelow(e, j)
  {
    forall e | e in [r] + vars ensures ExpBelow(e, j) {
      if e in vars { ExpBelowMonotone(e, n, j); }
    }
  }

  lemma StillTheSame(m: Machine, vars: seq<CExp>, n: nat, env: Env, env1: Env)
    requires forall e :: e in vars ==> ExpBelow(e, n)
    requires forall y: Name {:trigger Lookup(env1, y)} :: (y.Fresh? ==> y.n <= n) ==> Lookup(env1, y) == Lookup(env, y)
    ensures EvalExps(m, Reverse(vars), env1) == EvalExps(m, Reverse(vars), env)
  {
    ReverseElements(vars);
    forall i | 0 <= i < |vars| ensures EvalExp(m, Reverse(vars)[i], env1) == EvalExp(m, Reverse(vars)[i], env) {
      assert Reverse(vars)[i] in vars;
      SameBelow(m, Reverse(vars)[i], n, env, env1);
    }
  }

  lemma {:induction false} ParamsBound(ps: seq<(Name, Typ)>, args: seq<Val>, i: nat)
    requires |ps| == |args| && i < |ps|
    requires forall a, b :: 0 <= a < b < |ps| ==> ps[a].0 != ps[b].0
    ensures Lookup(BindParams(ps, args), ps[i].0) == args[i]
  {
    if i > 0 {
      forall a, b | 0 <= a < b < |ps[1..]| ensures ps[1..][a].0 != ps[1..][b].0 {
        assert ps[1..][a] == ps[a + 1] && ps[1..][b] == ps[b + 1];
      }
      ParamsBound(ps[1..], args[1..], i - 1);
      assert ps[0].0 != ps[i].0;
    }
  }

  /** Generation raises exactly for two reasons: a policy that lets go of the lock meets an
      argument in OCaml memory, or a parameter or the result has no conversion; the first
      comes first. */
  lemma DispatchRaisesIff(c: Concurrency, errno: ErrnoPolicy, cname: string, stubName: string, f: Fn, n: nat)
    requires !c.LwtJobs?
    ensures var d := Dispatch(c, errno, cname, stubName, f, n);
            var refused := (c.Unlocked? || c.LwtPreemptive?) && exists t :: t in Params(f) && OCamlValue(t);
            && (d.Raises? <==> refused || FirstError(Params(f), ReturnType(f)).Some?)
            && (refused ==> d == Raises(Unsupported("Unsupported argument type when releasing runtime lock")))
            && (d.Raises? && !refused ==> Some(d.error) == FirstError(Params(f), ReturnType(f)))
  {
    hide FirstError;
    hide Generate;
    hide OCamlValue;
    OCamlArgumentIff(f);
    GenerateRaises(Config(cname, !c.Sequential?, errno), stubName, f, n);
  }

  lemma GenerateRaises(cfg: Config, stubName: string, f: Fn, n: nat)
    ensures Generate(cfg, stubName, f, n).Raises? <==> FirstError(Params(f), ReturnType(f)).Some?
    ensures Generate(cfg, stubName, f, n).Raises? ==> Some(Generate(cfg, stubName, f, n).error) == FirstError(Params(f), ReturnType(f))
  {
    hide FirstError;
    hide Body;
  }

  lemma {:induction false} OCamlArgumentIff(f: Fn)
    ensures HasOCamlArgument(f) <==> exists t :: t in Params(f) && OCamlValue(t)
    decreases f
  {
    match f
    case Returns(_) =>
    case Function(t, rest) =>
      hide OCamlValue;
      OCamlArgumentIff(rest);
      assert forall u :: u in Params(f) <==> u == t || u in Params(rest);
      if OCamlValue(t) { assert t in Params(f); }
      if u :| u in Params(rest) && OCamlValue(u) { assert u in Params(f); }
  }

  /** The exception raised is the first parameter's that has one, and the result's only if
      no parameter has. */
  lemma {:induction false} FirstErrorIsFirst(params: seq<Typ>, ret: Typ)
    ensures FirstError(params, ret).None? <==> NoErrors(params, ret)
    ensures forall k: nat :: k < |params| && PrjError(params[k]).Some? && (forall i :: 0 <= i < k ==> PrjError(params[i]).None?)
              ==> FirstError(params, ret) == PrjError(params[k])
    ensures (forall t :: t in params ==> PrjError(t).None?) ==> FirstError(params, ret) == InjError(ret)
  {
    hide PrjError;
    hide InjError;
    NoErrorMeans(params, ret);
    if params != [] {
      FirstErrorIsFirst(params[1..], ret);
      forall k: nat | k < |params| && PrjError(params[k]).Some? && forall i :: 0 <= i < k ==> PrjError(params[i]).None?
        ensures FirstError(params, ret) == PrjError(params[k])
      {
        if k > 0 {
          assert params[1..][k - 1] == params[k];
          assert forall i :: 0 <= i < k - 1 ==> PrjError(params[1..][i]).None? by {
            forall i | 0 <= i < k - 1 ensures PrjError(params[1..][i]).None? { assert params[1..][i] == params[i + 1]; }
          }
        }
      }
      assert params[0] in params;
      assert forall t :: t in params[1..] ==> t in params;
    }
  }

  /** C stub refinement: for every description, every policy that calls C directly and any
      outside world, running the stub the dispatch makes is the reference meaning for that
      policy: the lock is released unless the policy is sequential, errno is treated as
      asked, the foreign function receives exactly the projected non-void arguments in
      order, and its result is injected. */
  lemma StubRefinesSpec(m: Machine, c: Concurrency, errno: ErrnoPolicy, cname: string, stubName: string, f: Fn, n: nat,
                        args: seq<Val>, w: World)
    requires !c.LwtJobs? && Dispatch(c, errno, cname, stubName, f, n).Ok? && |args| == |Params(f)| && KeepsValues(m)
    ensures NoErrors(Params(f), ReturnType(f))
    ensures var d := Dispatch(c, errno, cname, stubName, f, n).value;
            d.name == stubName && d.ret == VALUE && |d.params| == |Params(f)| &&
            RunBody(m, d, args, w) == StubSpec(m, Config(cname, !c.Sequential?, errno), Params(f), ReturnType(f), args, w)
  {
    hide RunBody;
    hide StubSpec;
    hide NoErrors;
    hide FirstError;
    hide Body;
    GeneratedMeaning(m, Config(cname, !c.Sequential?, errno), stubName, f, n, args, w);
  }

  // The stub generated for one configuration.
  lemma GeneratedMeaning(m: Machine, cfg: Config, stubName: string, f: Fn, n: nat, args: seq<Val>, w: World)
    requires Generate(cfg, stubName, f, n).Ok? && |args| == |Params(f)| && KeepsValues(m)
    ensures NoErrors(Params(f), ReturnType(f))
    ensures RunBody(m, Generate(cfg, stubName, f, n).value, args, w) == StubSpec(m, cfg, Params(f), ReturnType(f), args, w)
  {
    var (ps, n1) := NameParams(f, n);
    NamedParams(f, n, args);
    AssembledMeaning(m, cfg, stubName, ps, ReturnType(f), n1, args, w);
  }

  lemma AssembledMeaning(m: Machine, cfg: Config, stubName: string, ps: seq<Param>, ret: Typ, n: nat, args: seq<Val>, w: World)
    requires InjError(ret).None? && (forall p :: p in ps ==> PrjError(p.ty).None?) && KeepsValues(m)
    requires |args| == |ps| && Bound(BindParams(ValueParams(ps), args), ps, args, n)
    ensures NoErrors(Types(ps), ret)
    ensures RunBody(m, Assemble(cfg, stubName, ps, Body(cfg, [], ps, ret, n).0), args, w) ==
            StubSpec(m, cfg, Types(ps), ret, args, w)
  {
    var w0 := if cfg.unlocked then Do(m, ORoots, args, w).1 else w;
    GeneratedBodyMeaning(m, cfg, ps, ret, n, args, BindParams(ValueParams(ps), args), w0);
    RootedSpec(m, cfg, stubName, ps, Body(cfg, [], ps, ret, n).0, ret, args, w);
  }

  lemma RootedSpec(m: Machine, cfg: Config, stubName: string, ps: seq<Param>, body: CComp, ret: Typ, args: seq<Val>, w: World)
    requires |args| == |ps| && forall i :: 0 <= i < |ps| ==> Lookup(BindParams(ValueParams(ps), args), ps[i].x) == args[i]
    requires NoErrors(Types(ps), ret)
    requires var w0 := if cfg.unlocked then Do(m, ORoots, args, w).1 else w;
             var (cs, w1) := ProjectAll(m, Types(ps), args, w0);
             var (v, w2) := CallSpec(m, cfg, cs, ret, w1);
             EvalComp(m, body, BindParams(ValueParams(ps), args), w0) == Outcome(v, w2, ExitFor(cfg))
    ensures RunBody(m, Assemble(cfg, stubName, ps, body), args, w) == StubSpec(m, cfg, Types(ps), ret, args, w)
  {
    hide CallSpec;
    hide ProjectAll;
    hide InjError;
    hide PrjError;
    hide BindParams;
    hide EvalComp;
    RootedRun(m, cfg, stubName, ps, body, args, w);
  }

  function Assemble(cfg: Config, stubName: string, ps: seq<Param>, body: CComp): (d: CFundef)
    ensures d.params == ValueParams(ps)
  {
    CFundef(stubName, ValueParams(ps), VALUE, if cfg.unlocked then CamlParam(Names(ps), body) else body)
  }

  lemma RootedRun(m: Machine, cfg: Config, stubName: string, ps: seq<Param>, body: CComp, args: seq<Val>, w: World)
    requires |args| == |ps| && forall i :: 0 <= i < |ps| ==> Lookup(BindParams(ValueParams(ps), args), ps[i].x) == args[i]
    ensures var w0 := if cfg.unlocked then Do(m, ORoots, args, w).1 else w;
            var o := EvalComp(m, body, BindParams(ValueParams(ps), args), w0);
            RunBody(m, Assemble(cfg, stubName, ps, body), args, w) ==
              (o.v, if o.exit.ByCamlReturn? then o.w.(roots := o.w.roots - 1) else o.w)
  {
    var env := BindParams(ValueParams(ps), args);
    assert seq(|ps|, i requires 0 <= i < |ps| => Lookup(env, Names(ps)[i])) == args;
  }

  lemma GeneratedBodyMeaning(m: Machine, cfg: Config, ps: seq<Param>, ret: Typ, n: nat, args: seq<Val>, env: Env, w: World)
    requires InjError(ret).None? && (forall p :: p in ps ==> PrjError(p.ty).None?) && KeepsValues(m) && Bound(env, ps, args, n)
    ensures forall t :: t in Types(ps) ==> PrjError(t).None?
    ensures var (cs, w1) := ProjectAll(m, Types(ps), args, w);
            var (v, w2) := CallSpec(m, cfg, cs, ret, w1);
            EvalComp(m, Body(cfg, [], ps, ret, n).0, env, w) == Outcome(v, w2, ExitFor(cfg))
  {
    BodyMeaning(m, cfg, [], ps, ret, n, args, env, w);
    SpecFromProjects(m, cfg, [], Types(ps), args, ret, w);
    assert [] + ProjectAll(m, Types(ps), args, w).0 == ProjectAll(m, Types(ps), args, w).0;
    assert EvalExps(m, Reverse([]), env) == [];
  }

  lemma NamedParams(f: Fn, n: nat, args: seq<Val>)
    requires FirstError(Params(f), ReturnType(f)).None? && |args| == |Params(f)|
    ensures var (ps, n1) := NameParams(f, n);
            && Bound(BindParams(ValueParams(ps), args), ps, args, n1) && Types(ps) == Params(f)
            && InjError(ReturnType(f)).None? && (forall p :: p in ps ==> PrjError(p.ty).None?)
            && (forall t :: t in Params(f) ==> PrjError(t).None?)
  {
    var (ps, n1) := NameParams(f, n);
    NoErrorMeans(Params(f), ReturnType(f));
    forall i | 0 <= i < |ps| ensures Lookup(BindParams(ValueParams(ps), args), ps[i].x) == args[i] {
      ParamsBound(ValueParams(ps), args, i);
    }
    forall p | p in ps ensures PrjError(p.ty).None? {
      var i :| 0 <= i < |ps| && ps[i] == p;
      assert Params(f)[i] in Params(f);
    }
  }
}

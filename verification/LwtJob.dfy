/** Job stubs for Lwt: `Lwt` in src/cstubs/cstubs_generate_c.ml:365-534. A call is split in
    three: the stub fills in a job, a worker thread calls C with it, and the result is
    read off the job later. */
module LwtJob {
  import opened CtypesStatic
  import opened CLanguage
  import opened LetFloat
  import opened Projections
  import opened CStub
  import opened ByteStub
  import EndToEnd
  import StubDiscipline

  // ---- Generation ----

  datatype JobArg = JobArg(name: string, ty: Typ)

  function ArgName(k: nat): string { "arg_" + Decimal(k) }

  lemma ArgNamesDiffer(a: nat, b: nat)
    requires a != b
    ensures ArgName(a) != ArgName(b)
  {
    if ArgName(a) == ArgName(b) {
      assert ArgName(a)[4..] == Decimal(a) && ArgName(b)[4..] == Decimal(b);
      DecimalInjective(a, b);
    }
  }

  /** `fn_args_and_result`: void parameters are dropped before names are given. */
  function JobArgs(f: Fn, counter: nat): seq<JobArg> {
    match f
    case Returns(_) => []
    case Function(Void, rest) => JobArgs(rest, counter)
    case Function(t, rest) => [JobArg(ArgName(counter + 1), t)] + JobArgs(rest, counter + 1)
  }

  // What `Lwt.prj` supports.
  predicate Projectable(t: Typ) {
    match t
    case Primitive(_) => true
    case Pointer(_) => true
    case Funptr(_) => true
    case View(_, ty) => Projectable(ty)
    case _ => false
  }

  // Every parameter projectable, and a result that can be stored in the job and injected.
  predicate Supported(f: Fn) {
    match f
    case Returns(t) => t.Void? || (InjError(t).None? && !HasNoArgument(t))
    case Function(t, rest) => (t.Void? || Projectable(t)) && Supported(rest)
  }

  function ProjectWith(t: Typ): CFunction
    requires Projectable(t)
  {
    match t case Primitive(p) => PrimPrj(p) case View(_, ty) => ProjectWith(ty) case _ => ADDR_OF_FATPTR
  }

  const J := Named("j")

  predicate AllProjectable(args: seq<JobArg>) { forall a :: a in args ==> Projectable(a.ty) }

  // `cast ~into:void` of a program that ends in a return.
  function VoidCast(): Cont { (x: CExp, j: nat) => (Eff(Exp(Cast(Void, x))), j) }

  function Leave(errno: bool): CComp {
    var leave := Return(Void, IntConst(0));
    if errno then LetAssign(LPointerField(LLocal(J), "error_status"), Global(ERRNO), leave) else leave
  }

  function StoreResult(call: CEff, errno: bool): CComp {
    LetAssign(LPointerField(LLocal(J), "result"), call, Leave(errno))
  }

  function StoreCode(call: CEff, errno: bool, ret: Typ, n: nat): (CComp, nat) {
    EnoughFuel(4, StoreResult(call, errno), ret, VoidCast(), n);
    BindFuel(4, StoreResult(call, errno), ret, VoidCast(), n).value
  }

  /** The end of the worker: the call, its result and errno stored in the job. */
  function WorkerFinish(cfg: Config, vars: seq<CExp>, ret: Typ, n: nat): (CComp, nat) {
    var call := App(Foreign(cfg, ret), Reverse(vars));
    var errno := cfg.errno.ReturnErrno?;
    var (c, j) := if ret.Void? then Then(Eff(call), Leave(errno), n) else StoreCode(call, errno, ret, n);
    (if errno then LetAssign(LGlobal(ERRNO), Exp(IntConst(0)), c) else c, j)
  }

  /** `worker`: the arguments are read off the job, then the call is made. */
  function WorkerBody(cfg: Config, vars: seq<CExp>, args: seq<JobArg>, ret: Typ, n: nat): (CComp, nat)
    decreases |args|, 0
  {
    if args == [] then WorkerFinish(cfg, vars, ret, n)
    else Bind(Eff(DerefField(Local(J, Pointer(Void)), args[0].name)), args[0].ty, WorkerAfter(cfg, vars, args[1..], ret), n)
  }

  function WorkerAfter(cfg: Config, vars: seq<CExp>, args: seq<JobArg>, ret: Typ): Cont
    decreases |args|, 1
  {
    (y: CExp, j: nat) => WorkerBody(cfg, [y] + vars, args, ret, j)
  }

  const INIT_JOB := CFunction("LWT_UNIX_INIT_JOB", true, false, Pointer(Void))
  const ALLOC_JOB := CFunction("lwt_unix_alloc_job", true, false, VALUE)

  const JOB := Named("job")
  const RV := Named("rv")

  // The stores of `stub`, one argument each.
  function StoreArgs(args: seq<JobArg>): CComp
    requires AllProjectable(args)
    decreases |args|
  {
    if args == [] then Let(RV, VALUE, App(ALLOC_JOB, [Local(JOB, Pointer(Void))]), CamlReturnT(VALUE, Local(RV, VALUE)))
    else LetAssign(LPointerField(LLocal(JOB), args[0].name),
                   App(ProjectWith(args[0].ty), [Local(Named(args[0].name), VALUE)]), StoreArgs(args[1..]))
  }

  function ArgParams(args: seq<JobArg>): (r: seq<(Name, Typ)>)
    ensures |r| == |args| && forall i :: 0 <= i < |args| ==> r[i] == (Named(args[i].name), VALUE)
  {
    seq(|args|, i requires 0 <= i < |args| => (Named(args[i].name), VALUE))
  }

  function ParamNames(args: seq<JobArg>): (r: seq<Name>)
    ensures |r| == |args| && forall i :: 0 <= i < |args| ==> r[i] == Named(args[i].name)
  {
    seq(|args|, i requires 0 <= i < |args| => Named(args[i].name))
  }

  function StubCode(errno: bool, fill: CComp): CComp {
    Let(JOB, Pointer(Void), App(INIT_JOB, []),
      if errno then LetAssign(LPointerField(LLocal(JOB), "error_status"), Exp(IntConst(0)), fill) else fill)
  }

  /** `stub`. */
  function JobStub(stubName: string, errno: bool, args: seq<JobArg>): CFundef
    requires AllProjectable(args)
  {
    CFundef(stubName, ArgParams(args), VALUE, CamlParam(ParamNames(args), StubCode(errno, StoreArgs(args))))
  }

  // ---- Reference meaning ----

  /** The worker's arguments, read off the job in order. */
  function ReadArgs(m: Machine, j: Val, args: seq<JobArg>, w: World): (r: (seq<Val>, World))
    ensures |r.0| == |args|
    decreases |args|
  {
    if args == [] then ([], w)
    else
      var (v, w1) := Do(m, OField(args[0].name), [j], w);
      var (vs, w2) := ReadArgs(m, j, args[1..], w1);
      ([m.convert(args[0].ty, v)] + vs, w2)
  }

  /** The call on the arguments read, its result and errno stored in the job. */
  function WorkerCall(m: Machine, cfg: Config, j: Val, cargs: seq<Val>, ret: Typ, w: World): World {
    var errno := cfg.errno.ReturnErrno?;
    var w1 := if errno then w.(errno := CInt(0)) else w;
    var (r, w2) := Do(m, OCall(Foreign(cfg, ret)), cargs, w1);
    var w3 := if ret.Void? then w2 else Do(m, OStore("result"), [j, r], w2).1;
    if errno then Do(m, OStore("error_status"), [j, w3.errno], w3).1 else w3
  }

  // The stub's stores: each argument projected and put in its field.
  function FillJob(m: Machine, job: Val, args: seq<JobArg>, vs: seq<Val>, w: World): (r: (seq<Val>, World))
    requires |vs| == |args| && AllProjectable(args)
    ensures |r.0| == |args|
    decreases |args|
  {
    if args == [] then ([], w)
    else
      var (c, w1) := Do(m, OCall(ProjectWith(args[0].ty)), [vs[0]], w);
      var w2 := Do(m, OStore(args[0].name), [job, c], w1).1;
      var (cs, w3) := FillJob(m, job, args[1..], vs[1..], w2);
      ([c] + cs, w3)
  }

  // ---- The worker ----

  lemma LeaveMeaning(m: Machine, errno: bool, env: Env, w: World)
    ensures var o := EvalComp(m, Leave(errno), env, w);
            o.w == (if errno then Do(m, OStore("error_status"), [Lookup(env, J), w.errno], w).1 else w) && o.exit.ByReturn?
  {
    var leave := Return(Void, IntConst(0));
    assert EvalComp(m, leave, env, w).w == w;
    if errno { AssignField(m, J, "error_status", Global(ERRNO), leave, env, w); }
  }

  // A store through the job pointer.
  lemma AssignField(m: Machine, x: Name, field: string, rhs: CEff, rest: CComp, env: Env, w: World)
    ensures var (v, w1) := EvalEff(m, rhs, env, w);
            EvalComp(m, LetAssign(LPointerField(LLocal(x), field), rhs, rest), env, w) ==
              EvalComp(m, rest, env, Do(m, OStore(field), [Lookup(env, x), v], w1).1)
  {
    assert EvalLValue(m, LLocal(x), env) == Lookup(env, x);
  }

  lemma {:induction false} StoreResultMeaning(m: Machine, call: CEff, errno: bool, env: Env, w: World)
    ensures var (r, w1) := EvalEff(m, call, env, w);
            EvalComp(m, StoreResult(call, errno), env, w) ==
              EvalComp(m, Leave(errno), env, Do(m, OStore("result"), [Lookup(env, J), r], w1).1)
    ensures EvalComp(m, StoreResult(call, errno), env, w).exit.ByReturn? && ExitOf(StoreResult(call, errno)).ByReturn?
  {
    hide EvalEff;
    hide Do;
    AssignField(m, J, "result", call, Leave(errno), env, w);
  }

  /** The result stored: the bind whose left program ends in a return leaves by it. */
  lemma {:induction false} StoredResult(m: Machine, call: CEff, errno: bool, ret: Typ, n: nat, env: Env, w: World)
    ensures var (r, w1) := EvalEff(m, call, env, w);
            var o := EvalComp(m, StoreCode(call, errno, ret, n).0, env, w);
            o.exit.ByReturn? && o.w == EvalComp(m, Leave(errno), env, Do(m, OStore("result"), [Lookup(env, J), r], w1).1).w
  {
    hide EvalEff;
    hide Do;
    hide EvalComp;
    hide After;
    hide Tail;
    hide BindFuel;
    var e := StoreResult(call, errno);
    StoreResultMeaning(m, call, errno, env, w);
    assert EndsInReturn(e) by { assert EndsInReturn(Leave(errno)); }
    EnoughFuel(4, e, ret, VoidCast(), n);
    ReturnMeaning(m, 4, e, ret, VoidCast(), n, env, w);
    TailDenotesValue(m, e, ret, n, env, w);
    var (x, j) := Tail(e, ret, n);
    var (env1, w1) := After(m, e, ret, n, env, w);
    CastKeepsWorld(m, x, j, env1, w1);
  }

  lemma CastKeepsWorld(m: Machine, x: CExp, j: nat, env: Env, w: World)
    ensures EvalComp(m, VoidCast()(x, j).0, env, w).w == w
  {
  }

  lemma VoidCall(m: Machine, call: CEff, errno: bool, n: nat, env: Env, w: World)
    requires !call.Exp?
    ensures var (r, w1) := EvalEff(m, call, env, w);
            EvalComp(m, Then(Eff(call), Leave(errno), n).0, env, w) == EvalComp(m, Leave(errno), env[Fresh(n + 1) := m.convert(Void, r)], w1)
  {
  }

  lemma WorkerFinishMeaning(m: Machine, cfg: Config, vars: seq<CExp>, ret: Typ, n: nat, env: Env, w: World)
    ensures var o := EvalComp(m, WorkerFinish(cfg, vars, ret, n).0, env, w);
            o.exit.ByReturn? && o.w == WorkerCall(m, cfg, Lookup(env, J), EvalExps(m, Reverse(vars), env), ret, w)
  {
    var call, errno := App(Foreign(cfg, ret), Reverse(vars)), cfg.errno.ReturnErrno?;
    var w1 := if errno then w.(errno := CInt(0)) else w;
    CallMeaning(m, cfg, vars, ret, env, w1);
    var (r, w2) := Do(m, OCall(Foreign(cfg, ret)), EvalExps(m, Reverse(vars), env), w1);
    var code := if ret.Void? then Then(Eff(call), Leave(errno), n) else StoreCode(call, errno, ret, n);
    hide Do;
    hide EvalEff;
    if ret.Void? {
      VoidCall(m, call, errno, n, env, w1);
      LeaveMeaning(m, errno, env[Fresh(n + 1) := m.convert(Void, r)], w2);
    } else {
      StoredResult(m, call, errno, ret, n, env, w1);
      LeaveMeaning(m, errno, env, Do(m, OStore("result"), [Lookup(env, J), r], w2).1);
    }
    if errno { ErrnoReset(m, code.0, env, w); }
    hide EvalComp;
    hide StoreCode;
    hide Then;
    assert WorkerFinish(cfg, vars, ret, n).0 == if errno then LetAssign(LGlobal(ERRNO), Exp(IntConst(0)), code.0) else code.0;
  }

  lemma ReadStep(m: Machine, cfg: Config, vars: seq<CExp>, args: seq<JobArg>, ret: Typ, n: nat, env: Env, w: World)
    requires args != []
    ensures var (v, w1) := Do(m, OField(args[0].name), [Lookup(env, J)], w);
            EvalComp(m, WorkerBody(cfg, vars, args, ret, n).0, env, w) ==
            EvalComp(m, WorkerBody(cfg, [Local(Fresh(n + 1), args[0].ty)] + vars, args[1..], ret, n + 1).0,
                     env[Fresh(n + 1) := m.convert(args[0].ty, v)], w1)
  {
    hide Do;
    hide WorkerFinish;
    var read := DerefField(Local(J, Pointer(Void)), args[0].name);
    assert EvalExp(m, Local(J, Pointer(Void)), env) == Lookup(env, J);
    assert EvalEff(m, read, env, w) == Do(m, OField(args[0].name), [Lookup(env, J)], w);
    var y := Local(Fresh(n + 1), args[0].ty);
    assert WorkerBody(cfg, vars, args, ret, n).0 ==
           Let(Fresh(n + 1), args[0].ty, read, WorkerBody(cfg, [y] + vars, args[1..], ret, n + 1).0);
  }

  /** The worker reads its arguments off the job in order, calls C once on them, and
      stores the outcome. */
  lemma {:induction false} WorkerMeaning(m: Machine, cfg: Config, vars: seq<CExp>, args: seq<JobArg>, ret: Typ, n: nat, env: Env, w: World)
    requires forall e :: e in vars ==> ExpBelow(e, n)
    ensures var (cs, w1) := ReadArgs(m, Lookup(env, J), args, w);
            var o := EvalComp(m, WorkerBody(cfg, vars, args, ret, n).0, env, w);
            o.exit.ByReturn? && o.w == WorkerCall(m, cfg, Lookup(env, J), EvalExps(m, Reverse(vars), env) + cs, ret, w1)
    decreases |args|
  {
    hide Do;
    hide WorkerCall;
    hide EvalComp;
    hide ExpBelow;
    if args == [] {
      WorkerFinishMeaning(m, cfg, vars, ret, n, env, w);
      assert EvalExps(m, Reverse(vars), env) + [] == EvalExps(m, Reverse(vars), env);
    } else {
      hide WorkerBody;
      var (v, w1) := Do(m, OField(args[0].name), [Lookup(env, J)], w);
      var y, env1 := Local(Fresh(n + 1), args[0].ty), env[Fresh(n + 1) := m.convert(args[0].ty, v)];
      ReadStep(m, cfg, vars, args, ret, n, env, w);
      assert ExpBelow(y, n + 1) by { LocalBelow(Fresh(n + 1), args[0].ty, n + 1); }
      StillBelow(vars, y, n, n + 1);
      StillTheSame(m, vars, n, env, env1);
      ReverseCons(m, y, vars, env1);
      WorkerMeaning(m, cfg, [y] + vars, args[1..], ret, n + 1, env1, w1);
      var c, cs := m.convert(args[0].ty, v), ReadArgs(m, Lookup(env, J), args[1..], w1).0;
      assert EvalExps(m, Reverse(vars), env) + [c] + cs == EvalExps(m, Reverse(vars), env) + ([c] + cs);
    }
  }

  lemma LocalBelow(x: Name, t: Typ, n: nat)
    requires x.Fresh? && x.n <= n
    ensures ExpBelow(Local(x, t), n)
  {
  }

  // ---- The stub ----

  lemma {:induction false} StoreArgsMeaning(m: Machine, args: seq<JobArg>, vs: seq<Val>, job: Val, env: Env, w: World)
    requires AllProjectable(args) && |vs| == |args| && Lookup(env, JOB) == job && KeepsValues(m)
    requires forall i :: 0 <= i < |args| ==> Lookup(env, Named(args[i].name)) == vs[i]
    ensures var w1 := FillJob(m, job, args, vs, w).1;
            var (rv, w2) := Do(m, OCall(ALLOC_JOB), [job], w1);
            EvalComp(m, StoreArgs(args), env, w) == Outcome(rv, w2, ByCamlReturn)
    decreases |args|
  {
    hide Do;
    hide ProjectWith;
    if args == [] {
      CallOne(m, ALLOC_JOB, Local(JOB, Pointer(Void)), env, w);
    } else {
      var f, x := ProjectWith(args[0].ty), Local(Named(args[0].name), VALUE);
      CallOne(m, f, x, env, w);
      var (c, w1) := Do(m, OCall(f), [vs[0]], w);
      var w2 := Do(m, OStore(args[0].name), [job, c], w1).1;
      AssignField(m, JOB, args[0].name, App(f, [x]), StoreArgs(args[1..]), env, w);
      assert AllProjectable(args[1..]);
      StoreArgsMeaning(m, args[1..], vs[1..], job, env, w2);
    }
  }

  // ---- What a job remembers ----

  /** The value last stored in a field of the job. */
  function LastStored(trace: seq<Event>, field: string, j: Val): Option<Val>
    decreases |trace|
  {
    if trace == [] then None
    else
      var last := trace[|trace| - 1];
      if last.op == OStore(field) && |last.args| == 2 && last.args[0] == j then Some(last.args[1])
      else LastStored(trace[..|trace| - 1], field, j)
  }

  // Loading a field gives what was last stored there.
  ghost predicate Remembers(m: Machine) {
    forall field: string, j: Val, w: World {:trigger m.run(OField(field), [j], w)} ::
      LastStored(w.trace, field, j).Some? ==> m.run(OField(field), [j], w).v == LastStored(w.trace, field, j).value
  }

  lemma DoStores(m: Machine, op: Op, args: seq<Val>, w: World, field: string, j: Val)
    ensures LastStored(Do(m, op, args, w).1.trace, field, j) ==
            if op == OStore(field) && |args| == 2 && args[0] == j then Some(args[1]) else LastStored(w.trace, field, j)
  {
    var t := Do(m, op, args, w).1.trace;
    assert t[..|t| - 1] == w.trace;
  }

  ghost predicate NamesDiffer(args: seq<JobArg>) {
    forall i, k :: 0 <= i < k < |args| ==> args[i].name != args[k].name
  }

  lemma {:induction false} FillKeeps(m: Machine, job: Val, args: seq<JobArg>, vs: seq<Val>, w: World, field: string)
    requires |vs| == |args| && AllProjectable(args) && forall a :: a in args ==> a.name != field
    ensures LastStored(FillJob(m, job, args, vs, w).1.trace, field, job) == LastStored(w.trace, field, job)
    decreases |args|
  {
    hide Do;
    hide LastStored;
    hide ProjectWith;
    if args != [] {
      assert args[0] in args;
      var f := ProjectWith(args[0].ty);
      DoStores(m, OCall(f), [vs[0]], w, field, job);
      var (c, w1) := Do(m, OCall(f), [vs[0]], w);
      DoStores(m, OStore(args[0].name), [job, c], w1, field, job);
      FillKeeps(m, job, args[1..], vs[1..], Do(m, OStore(args[0].name), [job, c], w1).1, field);
    }
  }

  /** Filling a job stores each projected argument in its own field. */
  lemma {:induction false} FillStores(m: Machine, job: Val, args: seq<JobArg>, vs: seq<Val>, w: World, i: nat)
    requires |vs| == |args| && AllProjectable(args) && NamesDiffer(args) && i < |args|
    ensures var (cs, w1) := FillJob(m, job, args, vs, w);
            LastStored(w1.trace, args[i].name, job) == Some(cs[i])
    decreases |args|
  {
    hide Do;
    hide LastStored;
    hide ProjectWith;
    var f := ProjectWith(args[0].ty);
    var (c, w1) := Do(m, OCall(f), [vs[0]], w);
    var w2 := Do(m, OStore(args[0].name), [job, c], w1).1;
    var rest := args[1..];
    assert forall k :: 0 <= k < |rest| ==> rest[k] == args[k + 1];
    if i == 0 {
      DoStores(m, OStore(args[0].name), [job, c], w1, args[0].name, job);
      forall a | a in rest ensures a.name != args[0].name {}
      FillKeeps(m, job, rest, vs[1..], w2, args[0].name);
    } else {
      FillStores(m, job, rest, vs[1..], w2, i - 1);
    }
  }

  // The worker finds each field as it was filled.
  lemma {:induction false} ReadsBack(m: Machine, j: Val, args: seq<JobArg>, cs: seq<Val>, w: World)
    requires Remembers(m) && |cs| == |args| && forall i :: 0 <= i < |args| ==> LastStored(w.trace, args[i].name, j) == Some(cs[i])
    ensures var (vs, w1) := ReadArgs(m, j, args, w);
            && (forall i :: 0 <= i < |args| ==> vs[i] == m.convert(args[i].ty, cs[i]))
            && forall f: CFunction {:trigger EndToEnd.ForeignCalls(f, w1.trace)} :: EndToEnd.ForeignCalls(f, w1.trace) == EndToEnd.ForeignCalls(f, w.trace)
    decreases |args|
  {
    hide LastStored;
    if args != [] {
      var (v, w1) := Do(m, OField(args[0].name), [j], w);
      forall i | 0 <= i < |args[1..]| ensures LastStored(w1.trace, args[1..][i].name, j) == Some(cs[1..][i]) {
        DoStores(m, OField(args[0].name), [j], w, args[1..][i].name, j);
        assert args[1..][i] == args[i + 1];
      }
      ReadsBack(m, j, args[1..], cs[1..], w1);
      forall f: CFunction ensures EndToEnd.ForeignCalls(f, w1.trace) == EndToEnd.ForeignCalls(f, w.trace) {
        EndToEnd.DoCalls(f, m, OField(args[0].name), [j], w);
      }
    }
  }

  lemma {:induction false} JobArgsNamed(f: Fn, counter: nat, i: nat)
    requires i < |JobArgs(f, counter)|
    ensures JobArgs(f, counter)[i].name == ArgName(counter + 1 + i)
    decreases f
  {
    hide ArgName;
    match f
    case Function(t, rest) =>
      if t.Void? { JobArgsNamed(rest, counter, i); } else if i > 0 { JobArgsNamed(rest, counter + 1, i - 1); }
  }

  /** A job's arguments are the parameters that are not void, in order, named by position. */
  lemma {:induction false} JobArgTypes(f: Fn, counter: nat)
    ensures |JobArgs(f, counter)| == |NonVoid(Params(f))|
    ensures forall i :: 0 <= i < |JobArgs(f, counter)| ==>
              JobArgs(f, counter)[i] == JobArg(ArgName(counter + 1 + i), NonVoid(Params(f))[i])
    decreases f
  {
    hide ArgName;
    match f
    case Returns(_) =>
    case Function(t, rest) =>
      assert Params(f)[1..] == Params(rest);
      if t.Void? { JobArgTypes(rest, counter); } else {
        JobArgTypes(rest, counter + 1);
        forall i | 0 <= i < |JobArgs(f, counter)|
          ensures JobArgs(f, counter)[i] == JobArg(ArgName(counter + 1 + i), NonVoid(Params(f))[i])
        {
          if i > 0 { assert JobArgs(rest, counter + 1)[i - 1] == JobArg(ArgName(counter + 2 + (i - 1)), NonVoid(Params(rest))[i - 1]); }
        }
      }
  }

  // The function that reads an argument of a job, by its type behind views.
  function AccessorOf(t: Typ): CFunction {
    match StripViews(t) case Primitive(p) => PrimPrj(p) case _ => ADDR_OF_FATPTR
  }

  lemma {:induction false} ProjectsWith(t: Typ)
    requires Projectable(t)
    ensures ProjectWith(t) == AccessorOf(t)
  {
    hide PrimPrj;
    match t case View(_, ty) => ProjectsWith(ty); case _ =>
  }

  /** A job's argument is read as a direct stub reads it. */
  lemma ReadsLikeAStub(m: Machine, t: Typ, v: Val, w: World)
    requires Projectable(t)
    ensures PrjError(t).None? && !HasNoArgument(t)
    ensures Project(m, t, v, w).1 == Do(m, OCall(AccessorOf(t)), [v], w).1
  {
    hide Do;
    hide PrimPrj;
    ProjectableStrip(t);
    PrjErrorStrip(t);
  }

  lemma {:induction false} ProjectableStrip(t: Typ)
    requires Projectable(t)
    ensures StripViews(t).Primitive? || StripViews(t).Pointer? || StripViews(t).Funptr?
  {
    match t case View(_, ty) => ProjectableStrip(ty); case _ =>
  }

  // The i-th argument read by the function for its type, and what was read stored under its name.
  predicate FilledAt(t: Typ, name: string, v: Val, c: Val, job: Val, fill: seq<Event>, i: nat) {
    && 2 * i + 1 < |fill|
    && fill[2 * i].op == OCall(AccessorOf(t)) && fill[2 * i].args == [v] && fill[2 * i].reply == c
    && fill[2 * i + 1].op == OStore(name) && fill[2 * i + 1].args == [job, c]
  }

  /** Filling a job in: each value in turn is read by the function for its parameter's type,
      and stored in the field named by its position; nothing else happens. */
  ghost predicate FilledIn(ts: seq<Typ>, vs: seq<Val>, cs: seq<Val>, job: Val, fill: seq<Event>) {
    && |vs| == |ts| && |cs| == |ts| && |fill| == 2 * |ts|
    && forall i :: 0 <= i < |ts| ==> FilledAt(ts[i], ArgName(i + 1), vs[i], cs[i], job, fill, i)
  }

  lemma FilledLater(t: Typ, name: string, v: Val, c: Val, job: Val, head: seq<Event>, fill: seq<Event>, i: nat)
    requires |head| == 2 && FilledAt(t, name, v, c, job, fill, i)
    ensures FilledAt(t, name, v, c, job, head + fill, i + 1)
  {
    hide AccessorOf;
    assert (head + fill)[2 * (i + 1)] == fill[2 * i] && (head + fill)[2 * (i + 1) + 1] == fill[2 * i + 1];
  }

  lemma FilledFirst(t: Typ, name: string, v: Val, c: Val, job: Val, head: seq<Event>, rest: seq<Event>)
    requires FilledAt(t, name, v, c, job, head, 0)
    ensures FilledAt(t, name, v, c, job, head + rest, 0)
  {
    hide AccessorOf;
  }

  lemma OneFilled(m: Machine, job: Val, arg: JobArg, v: Val, w: World) returns (head: seq<Event>)
    requires Projectable(arg.ty)
    ensures var (c, w1) := Do(m, OCall(ProjectWith(arg.ty)), [v], w);
            && Do(m, OStore(arg.name), [job, c], w1).1.trace == w.trace + head && |head| == 2
            && FilledAt(arg.ty, arg.name, v, c, job, head, 0)
  {
    hide ProjectWith;
    hide AccessorOf;
    ProjectsWith(arg.ty);
    var (c, w1) := Do(m, OCall(ProjectWith(arg.ty)), [v], w);
    var w2 := Do(m, OStore(arg.name), [job, c], w1).1;
    head := [w1.trace[|w.trace|], w2.trace[|w1.trace|]];
    assert w2.trace == w.trace + head;
  }

  lemma {:induction false} FillTrace(m: Machine, job: Val, args: seq<JobArg>, vs: seq<Val>, w: World) returns (fill: seq<Event>)
    requires |vs| == |args| && AllProjectable(args)
    ensures FillJob(m, job, args, vs, w).1.trace == w.trace + fill && |fill| == 2 * |args|
    ensures var cs := FillJob(m, job, args, vs, w).0;
            forall i :: 0 <= i < |args| ==> FilledAt(args[i].ty, args[i].name, vs[i], cs[i], job, fill, i)
    decreases |args|
  {
    hide ProjectWith;
    hide AccessorOf;
    hide Do;
    if args == [] { fill := []; } else {
      assert args[0] in args;
      var (c, w1) := Do(m, OCall(ProjectWith(args[0].ty)), [vs[0]], w);
      var w2 := Do(m, OStore(args[0].name), [job, c], w1).1;
      var head := OneFilled(m, job, args[0], vs[0], w);
      var rest := FillTrace(m, job, args[1..], vs[1..], w2);
      fill := head + rest;
      assert w.trace + head + rest == w.trace + fill;
      hide FilledAt;
      FilledFirst(args[0].ty, args[0].name, vs[0], c, job, head, rest);
      FillShifts(m, job, args, vs, w, w2, head, rest);
    }
  }

  lemma FillShifts(m: Machine, job: Val, args: seq<JobArg>, vs: seq<Val>, w: World, w2: World, head: seq<Event>, rest: seq<Event>)
    requires |vs| == |args| > 0 && AllProjectable(args) && |head| == 2
    requires var (c, w1) := Do(m, OCall(ProjectWith(args[0].ty)), [vs[0]], w); w2 == Do(m, OStore(args[0].name), [job, c], w1).1
    requires var cs := FillJob(m, job, args[1..], vs[1..], w2).0;
             forall i :: 0 <= i < |args| - 1 ==> FilledAt(args[1..][i].ty, args[1..][i].name, vs[1..][i], cs[i], job, rest, i)
    ensures var cs := FillJob(m, job, args, vs, w).0;
            forall i :: 0 < i < |args| ==> FilledAt(args[i].ty, args[i].name, vs[i], cs[i], job, head + rest, i)
  {
    hide FilledAt;
    var cs := FillJob(m, job, args[1..], vs[1..], w2).0;
    forall i | 0 < i < |args|
      ensures FilledAt(args[i].ty, args[i].name, vs[i], FillJob(m, job, args, vs, w).0[i], job, head + rest, i)
    {
      assert args[1..][i - 1] == args[i] && vs[1..][i - 1] == vs[i];
      FilledLater(args[i].ty, args[i].name, vs[i], cs[i - 1], job, head, rest, i - 1);
    }
  }

  lemma {:induction false} JobFilled(m: Machine, job: Val, f: Fn, vs: seq<Val>, w: World) returns (fill: seq<Event>)
    requires Supported(f) && |vs| == |JobArgs(f, 0)| && AllProjectable(JobArgs(f, 0))
    ensures var (cs, w1) := FillJob(m, job, JobArgs(f, 0), vs, w);
            w1.trace == w.trace + fill && FilledIn(NonVoid(Params(f)), vs, cs, job, fill)
  {
    hide FilledAt;
    hide FillJob;
    hide ArgName;
    JobArgTypes(f, 0);
    hide JobArgs;
    hide NonVoid;
    fill := FillTrace(m, job, JobArgs(f, 0), vs, w);
    var cs, ts := FillJob(m, job, JobArgs(f, 0), vs, w).0, NonVoid(Params(f));
    forall i | 0 <= i < |ts| ensures FilledAt(ts[i], ArgName(i + 1), vs[i], cs[i], job, fill, i) {
      assert JobArgs(f, 0)[i] == JobArg(ArgName(0 + 1 + i), ts[i]);
    }
  }

  lemma {:induction false} SupportedArgs(f: Fn, counter: nat)
    requires Supported(f)
    ensures AllProjectable(JobArgs(f, counter))
    ensures ReturnType(f).Void? || (InjError(ReturnType(f)).None? && !HasNoArgument(ReturnType(f)))
    decreases f
  {
    match f
    case Returns(_) =>
    case Function(t, rest) => if t.Void? { SupportedArgs(rest, counter); } else { SupportedArgs(rest, counter + 1); }
  }

  // The fields of the job structure, in the order `structure` adds them.
  function FieldNames(errno: bool, args: seq<JobArg>): seq<string> {
    ["job", "result"] + (if errno then ["error_status"] else []) + NamesIn(args)
  }

  function NamesIn(args: seq<JobArg>): (r: seq<string>)
    ensures |r| == |args| && forall i :: 0 <= i < |args| ==> r[i] == args[i].name
  {
    seq(|args|, i requires 0 <= i < |args| => args[i].name)
  }

  /** A job's fields are pairwise distinct, its own ones and the arguments'. */
  lemma JobNamesDiffer(errno: bool, f: Fn, counter: nat)
    ensures NamesDiffer(JobArgs(f, counter))
    ensures var names := FieldNames(errno, JobArgs(f, counter)); forall i, k :: 0 <= i < k < |names| ==> names[i] != names[k]
  {
    hide ArgName;
    var args := JobArgs(f, counter);
    forall i, k | 0 <= i < k < |args| ensures args[i].name != args[k].name {
      JobArgsNamed(f, counter, i);
      JobArgsNamed(f, counter, k);
      ArgNamesDiffer(counter + 1 + i, counter + 1 + k);
    }
    forall i | 0 <= i < |args| ensures args[i].name !in ["job", "result", "error_status"] {
      JobArgsNamed(f, counter, i);
      ArgNameIsNone(counter + 1 + i);
    }
    var own := ["job", "result"] + (if errno then ["error_status"] else []);
    OwnNames(errno);
    var names := FieldNames(errno, args);
    forall i, k | 0 <= i < k < |names| ensures names[i] != names[k] {
      if i < |own| <= k { assert own[i] in ["job", "result", "error_status"]; }
      if i >= |own| { assert names[i] == args[i - |own|].name && names[k] == args[k - |own|].name; }
    }
  }

  lemma OwnNames(errno: bool)
    ensures var own := ["job", "result"] + (if errno then ["error_status"] else []); forall i, k :: 0 <= i < k < |own| ==> own[i] != own[k]
  {
    assert "job"[0] == 'j' && "result"[0] == 'r' && "error_status"[0] == 'e';
  }

  lemma ArgNameIsNone(k: nat)
    ensures ArgName(k) !in ["job", "result", "error_status"]
  {
    hide Decimal;
    assert ArgName(k)[0] == 'a' && "job"[0] == 'j' && "result"[0] == 'r' && "error_status"[0] == 'e';
  }

  // ---- The three parts together ----

  // The job pointer and the world when the stub starts filling the job in; the
  // arguments have been rooted.
  function Started(m: Machine, errno: bool, w: World): (Val, World) {
    var (p, w1) := Do(m, OCall(INIT_JOB), [], w);
    var job := m.convert(Pointer(Void), p);
    (job, if errno then Do(m, OStore("error_status"), [job, CInt(0)], w1).1 else w1)
  }

  lemma StartedMeaning(m: Machine, errno: bool, fill: CComp, env: Env, w: World)
    ensures var (job, w1) := Started(m, errno, w);
            EvalComp(m, StubCode(errno, fill), env, w) == EvalComp(m, fill, env[JOB := job], w1)
  {
    hide Do;
    CallNone(m, INIT_JOB, env, w);
    var (p, w1) := Do(m, OCall(INIT_JOB), [], w);
    var env1 := env[JOB := m.convert(Pointer(Void), p)];
    if errno { AssignField(m, JOB, "error_status", Exp(IntConst(0)), fill, env1, w1); }
  }

  lemma StubForMeaning(m: Machine, stubName: string, errno: bool, args: seq<JobArg>, vs: seq<Val>, w: World)
    requires AllProjectable(args) && |vs| == |args| && KeepsValues(m)
    requires NamesDiffer(args) && forall a :: a in args ==> Named(a.name) != JOB
    ensures var (job, w1) := Started(m, errno, Do(m, ORoots, vs, w).1);
            var w2 := FillJob(m, job, args, vs, w1).1;
            var (rv, w3) := Do(m, OCall(ALLOC_JOB), [job], w2);
            RunBody(m, JobStub(stubName, errno, args), vs, w) == (rv, w3.(roots := w3.roots - 1))
  {
    hide FillJob;
    hide StoreArgs;
    hide Do;
    hide Started;
    hide StubCode;
    hide BindParams;
    hide KeepsValues;
    hide NamesDiffer;
    hide AllProjectable;
    var env := BindParams(ArgParams(args), vs);
    var w0 := Do(m, ORoots, vs, w).1;
    var (job, w1) := Started(m, errno, w0);
    ArgsBound(args, vs, job);
    assert seq(|args|, i requires 0 <= i < |args| => Lookup(env, ParamNames(args)[i])) == vs;
    StartedMeaning(m, errno, StoreArgs(args), env, w0);
    StoreArgsMeaning(m, args, vs, job, env[JOB := job], w1);
    var d := JobStub(stubName, errno, args);
    assert d.body == CamlParam(ParamNames(args), StubCode(errno, StoreArgs(args)));
    assert EvalComp(m, d.body, env, w) == EvalComp(m, StubCode(errno, StoreArgs(args)), env, w0);
  }

  /** `stub`: one argument for each parameter that is not void; they are rooted, a job made,
      each argument read by the function for its type and stored, the job handed to Lwt and
      the roots dropped. */
  lemma JobStubMeaning(m: Machine, stubName: string, errno: bool, f: Fn, vs: seq<Val>, w: World)
      returns (cs: seq<Val>, filled: World, fill: seq<Event>)
    requires Supported(f) && |vs| == |NonVoid(Params(f))| && KeepsValues(m)
    ensures AllProjectable(JobArgs(f, 0)) && |JobArgs(f, 0)| == |vs|
    ensures var (job, w1) := Started(m, errno, Do(m, ORoots, vs, w).1);
            var (rv, w3) := Do(m, OCall(ALLOC_JOB), [job], filled);
            && FilledIn(NonVoid(Params(f)), vs, cs, job, fill) && filled.trace == w1.trace + fill
            && (cs, filled) == FillJob(m, job, JobArgs(f, 0), vs, w1)
            && (errno ==> LastStored(filled.trace, "error_status", job) == Some(CInt(0)))
            && RunBody(m, JobStub(stubName, errno, JobArgs(f, 0)), vs, w) == (rv, w3.(roots := w3.roots - 1))
  {
    hide LastStored;
    hide FillJob;
    hide Started;
    hide Do;
    hide JobArgs;
    hide NonVoid;
    hide JobStub;
    hide RunBody;
    hide FilledIn;
    hide Supported;
    hide KeepsValues;
    hide AllProjectable;
    JobArgTypes(f, 0);
    if errno { StatusCleared(m, f, vs, Do(m, ORoots, vs, w).1); }
    JobStubRuns(m, stubName, errno, f, vs, w);
    var (job, w1) := Started(m, errno, Do(m, ORoots, vs, w).1);
    fill := JobFilled(m, job, f, vs, w1);
    cs, filled := FillJob(m, job, JobArgs(f, 0), vs, w1).0, FillJob(m, job, JobArgs(f, 0), vs, w1).1;
  }

  // The status is cleared before the arguments are stored, none of which is called so.
  lemma {:induction false} StatusCleared(m: Machine, f: Fn, vs: seq<Val>, w: World)
    requires Supported(f) && |vs| == |NonVoid(Params(f))|
    ensures AllProjectable(JobArgs(f, 0)) && |JobArgs(f, 0)| == |vs|
    ensures var (job, w1) := Started(m, true, w);
            LastStored(FillJob(m, job, JobArgs(f, 0), vs, w1).1.trace, "error_status", job) == Some(CInt(0))
  {
    JobArgTypes(f, 0);
    SupportedArgs(f, 0);
    hide NonVoid;
    hide JobArgs;
    hide FillJob;
    hide LastStored;
    hide ArgName;
    var job := m.convert(Pointer(Void), Do(m, OCall(INIT_JOB), [], w).0);
    var w1 := Do(m, OCall(INIT_JOB), [], w).1;
    DoStores(m, OStore("error_status"), [job, CInt(0)], w1, "error_status", job);
    forall a | a in JobArgs(f, 0) ensures a.name != "error_status" {
      var i :| 0 <= i < |JobArgs(f, 0)| && JobArgs(f, 0)[i] == a;
      ArgNameIsNone(0 + 1 + i);
    }
    FillKeeps(m, job, JobArgs(f, 0), vs, Started(m, true, w).1, "error_status");
  }

  lemma JobStubRuns(m: Machine, stubName: string, errno: bool, f: Fn, vs: seq<Val>, w: World)
    requires Supported(f) && |vs| == |JobArgs(f, 0)| && KeepsValues(m)
    ensures AllProjectable(JobArgs(f, 0))
    ensures var args := JobArgs(f, 0);
            var (job, w1) := Started(m, errno, Do(m, ORoots, vs, w).1);
            var w2 := FillJob(m, job, args, vs, w1).1;
            var (rv, w3) := Do(m, OCall(ALLOC_JOB), [job], w2);
            RunBody(m, JobStub(stubName, errno, args), vs, w) == (rv, w3.(roots := w3.roots - 1))
  {
    hide FillJob;
    hide Started;
    hide Do;
    hide JobArgs;
    hide JobStub;
    hide RunBody;
    var args := JobArgs(f, 0);
    SupportedArgs(f, 0);
    JobNamesDiffer(errno, f, 0);
    forall a | a in args ensures Named(a.name) != JOB {
      var i :| 0 <= i < |args| && args[i] == a;
      JobArgsNamed(f, 0, i);
      assert ArgName(1 + i)[0] == 'a' && "job"[0] == 'j';
    }
    StubForMeaning(m, stubName, errno, args, vs, w);
  }

  lemma ArgsBound(args: seq<JobArg>, vs: seq<Val>, job: Val)
    requires |vs| == |args| && NamesDiffer(args) && forall a :: a in args ==> Named(a.name) != JOB
    ensures var env := BindParams(ArgParams(args), vs);
            && (forall i :: 0 <= i < |args| ==> Lookup(env, Named(args[i].name)) == vs[i])
            && forall i :: 0 <= i < |args| ==> Lookup(env[JOB := job], Named(args[i].name)) == vs[i]
  {
    var params := ArgParams(args);
    hide BindParams;
    forall i | 0 <= i < |args|
      ensures Lookup(BindParams(params, vs), Named(args[i].name)) == vs[i]
      ensures Lookup(BindParams(params, vs)[JOB := job], Named(args[i].name)) == vs[i]
    {
      ParamsBound(params, vs, i);
      assert args[i] in args;
    }
  }

  // Whatever happens in between leaves the job's argument fields alone.
  ghost predicate KeepsJob(job: Val, args: seq<JobArg>, w: World, w1: World) {
    forall a :: a in args ==> KeepsField(job, a.name, w, w1)
  }

  predicate KeepsField(job: Val, field: string, w: World, w1: World) {
    LastStored(w1.trace, field, job) == LastStored(w.trace, field, job)
  }

  function Worker(cfg: Config, f: Fn, n: nat): CComp { WorkerBody(cfg, [], JobArgs(f, 0), ReturnType(f), n).0 }

  function WorkerFn(cfg: Config, stubName: string, f: Fn, n: nat): (d: CFundef)
    ensures |d.params| == 1
  {
    CFundef("worker_" + stubName, [(J, Pointer(Void))], Void, Worker(cfg, f, n))
  }

  // The C arguments: what the stub projected, converted to the parameters' types.
  function CArgs(m: Machine, ts: seq<Typ>, cs: seq<Val>): (r: seq<Val>)
    requires |cs| == |ts|
    ensures |r| == |ts| && forall i :: 0 <= i < |ts| ==> r[i] == m.convert(ts[i], cs[i])
  {
    seq(|ts|, i requires 0 <= i < |ts| && |cs| == |ts| => m.convert(ts[i], cs[i]))
  }

  // What C replies, and errno when the reply has been stored.
  function WorkerReply(m: Machine, cfg: Config, j: Val, cargs: seq<Val>, ret: Typ, w: World): (Val, Val) {
    var w1 := if cfg.errno.ReturnErrno? then w.(errno := CInt(0)) else w;
    var (r, w2) := Do(m, OCall(Foreign(cfg, ret)), cargs, w1);
    (r, (if ret.Void? then w2 else Do(m, OStore("result"), [j, r], w2).1).errno)
  }

  /** Where only C sets errno and it is to be returned, the worker's call finds it zero and the
      status is what the call left. */
  lemma StatusIsTheCalls(m: Machine, cfg: Config, j: Val, cargs: seq<Val>, ret: Typ, w: World) returns (atCall: World)
    requires cfg.errno.ReturnErrno? && EndToEnd.OnlyCSetsErrno(m, CFunction(cfg.cname, false, false, ret))
    ensures var made := m.run(OCall(CFunction(cfg.cname, false, false, ret)), cargs, atCall);
            && atCall.errno == CInt(0) && atCall.trace == w.trace
            && WorkerReply(m, cfg, j, cargs, ret, w) == (made.v, made.errno)
  {
    hide EndToEnd.OnlyCSetsErrno;
    var cfun := CFunction(cfg.cname, false, false, ret);
    atCall := w.(errno := CInt(0));
    var (r, w2) := Do(m, OCall(cfun), cargs, atCall);
    EndToEnd.ErrnoKept(m, cfun, OStore("result"), [j, r], w2);
  }

  // What the job holds once the worker has run.
  predicate Holds(cfg: Config, ret: Typ, job: Val, reply: Val, status: Val, w: World) {
    && (!ret.Void? ==> LastStored(w.trace, "result", job) == Some(reply))
    && (cfg.errno.ReturnErrno? ==> LastStored(w.trace, "error_status", job) == Some(status))
  }

  // Nothing of OCaml's is looked at or changed, and the lock is left alone.
  ghost predicate OutsideOCaml(w: World, w1: World) {
    && |w.trace| <= |w1.trace| && w1.trace[..|w.trace|] == w.trace
    && forall i :: |w.trace| <= i < |w1.trace| ==> !StubDiscipline.TouchesHeap(w1.trace[i].op) && !StubDiscipline.LockOp(w1.trace[i].op)
  }

  lemma OneOutside(m: Machine, op: Op, args: seq<Val>, w: World)
    requires !StubDiscipline.TouchesHeap(op) && !StubDiscipline.LockOp(op)
    ensures OutsideOCaml(w, Do(m, op, args, w).1)
  {
  }

  lemma OutsideTwice(w: World, w1: World, w2: World)
    requires OutsideOCaml(w, w1) && OutsideOCaml(w1, w2)
    ensures OutsideOCaml(w, w2)
  {
    hide StubDiscipline.TouchesHeap;
    hide StubDiscipline.LockOp;
    forall i | |w.trace| <= i < |w2.trace|
      ensures !StubDiscipline.TouchesHeap(w2.trace[i].op) && !StubDiscipline.LockOp(w2.trace[i].op)
    {
      if i < |w1.trace| { assert w2.trace[i] == w2.trace[..|w1.trace|][i]; }
    }
    assert w2.trace[..|w.trace|] == w2.trace[..|w1.trace|][..|w.trace|];
  }

  lemma {:induction false} ReadsOutside(m: Machine, j: Val, args: seq<JobArg>, w: World)
    ensures OutsideOCaml(w, ReadArgs(m, j, args, w).1)
    decreases |args|
  {
    hide OutsideOCaml;
    if args == [] { NothingOutside(w); } else {
      var w1 := Do(m, OField(args[0].name), [j], w).1;
      OneOutside(m, OField(args[0].name), [j], w);
      hide Do;
      ReadsOutside(m, j, args[1..], w1);
      OutsideTwice(w, w1, ReadArgs(m, j, args, w).1);
    }
  }

  lemma NothingOutside(w: World)
    ensures OutsideOCaml(w, w) && forall v :: OutsideOCaml(w, w.(errno := v))
  {
  }

  lemma CallOutside(m: Machine, cfg: Config, j: Val, cargs: seq<Val>, ret: Typ, w: World)
    ensures OutsideOCaml(w, WorkerCall(m, cfg, j, cargs, ret, w))
  {
    var foreign, errno := Foreign(cfg, ret), cfg.errno.ReturnErrno?;
    var w1 := if errno then w.(errno := CInt(0)) else w;
    NothingOutside(w);
    OneOutside(m, OCall(foreign), cargs, w1);
    hide OutsideOCaml;
    hide Do;
    var (r, w2) := Do(m, OCall(foreign), cargs, w1);
    OutsideTwice(w, w1, w2);
    OneOutside(m, OStore("result"), [j, r], w2);
    var w3 := if ret.Void? then w2 else Do(m, OStore("result"), [j, r], w2).1;
    if !ret.Void? { OutsideTwice(w, w2, w3); }
    OneOutside(m, OStore("error_status"), [j, w3.errno], w3);
    if errno { OutsideTwice(w, w3, Do(m, OStore("error_status"), [j, w3.errno], w3).1); }
  }

  // What the worker gets from C on the projections `cs`, run in world `later`.
  function Reply(m: Machine, cfg: Config, f: Fn, cs: seq<Val>, job: Val, later: World): (Val, Val)
    requires |cs| == |NonVoid(Params(f))|
  {
    WorkerReply(m, cfg, job, CArgs(m, NonVoid(Params(f)), cs), ReturnType(f), ReadArgs(m, job, JobArgs(f, 0), later).1)
  }

  /** Run in world `later`, the worker calls the C function exactly once, on the projections
      `cs` converted to the parameters' types; the job then holds the reply, and errno if
      that is asked for. Throughout, the worker touches neither OCaml's heap nor the lock,
      which it does not hold. */
  ghost predicate CallMade(m: Machine, cfg: Config, stubName: string, f: Fn, n: nat, cs: seq<Val>, job: Val, later: World)
    requires |cs| == |NonVoid(Params(f))|
  {
    var foreign, done := CFunction(cfg.cname, false, false, ReturnType(f)), RunBody(m, WorkerFn(cfg, stubName, f, n), [job], later).1;
    var (reply, status) := Reply(m, cfg, f, cs, job, later);
    && EndToEnd.ForeignCalls(foreign, done.trace) == EndToEnd.ForeignCalls(foreign, later.trace) + [CArgs(m, NonVoid(Params(f)), cs)]
    && Holds(cfg, ReturnType(f), job, reply, status, done) && OutsideOCaml(later, done)
  }

  /** A job's call: for every supported description and both errno policies, when the
      worker runs, at any later time, the call is made on what the stub read, one argument
      for each parameter that is not void, in order, converted to its type. */
  lemma {:induction false} JobMakesTheCall(m: Machine, cfg: Config, stubName: string, f: Fn, n: nat, vs: seq<Val>, job: Val, w: World, later: World)
      returns (fill: seq<Event>)
    requires Supported(f) && |vs| == |NonVoid(Params(f))| && Remembers(m)
    ensures AllProjectable(JobArgs(f, 0)) && |JobArgs(f, 0)| == |vs|
    ensures var args := JobArgs(f, 0);
            var (cs, filled) := FillJob(m, job, args, vs, w);
            && filled.trace == w.trace + fill && FilledIn(NonVoid(Params(f)), vs, cs, job, fill)
            && (KeepsJob(job, args, filled, later) ==> CallMade(m, cfg, stubName, f, n, cs, job, later))
  {
    JobArgTypes(f, 0);
    SupportedArgs(f, 0);
    hide NonVoid;
    hide FilledIn;
    fill := JobFilled(m, job, f, vs, w);
    hide CallMade;
    hide FillJob;
    hide LastStored;
    hide JobArgs;
    var args := JobArgs(f, 0);
    SupportedArgs(f, 0);
    JobNamesDiffer(false, f, 0);
    hide Supported;
    hide Remembers;
    hide FieldNames;
    var (cs, filled) := FillJob(m, job, args, vs, w);
    if KeepsJob(job, args, filled, later) {
      forall i | 0 <= i < |args| ensures LastStored(later.trace, args[i].name, job) == Some(cs[i]) {
        FillStores(m, job, args, vs, w, i);
        assert args[i] in args && KeepsField(job, args[i].name, filled, later);
      }
      WorkerRuns(m, cfg, stubName, f, n, args, cs, job, later);
    }
  }

  lemma {:induction false} WorkerRuns(m: Machine, cfg: Config, stubName: string, f: Fn, n: nat, args: seq<JobArg>, cs: seq<Val>, job: Val, later: World)
    requires args == JobArgs(f, 0) && |cs| == |args| == |NonVoid(Params(f))| && Remembers(m)
    requires forall i :: 0 <= i < |args| ==> LastStored(later.trace, args[i].name, job) == Some(cs[i])
    ensures CallMade(m, cfg, stubName, f, n, cs, job, later)
  {
    hide Do;
    hide ReadArgs;
    hide WorkerCall;
    hide WorkerBody;
    hide WorkerReply;
    hide EvalComp;
    hide LastStored;
    hide EndToEnd.ForeignCalls;
    hide OutsideOCaml;
    hide Holds;
    JobArgTypes(f, 0);
    hide NonVoid;
    hide ArgName;
    hide JobArgs;
    var env := BindParams([(J, Pointer(Void))], [job]);
    OneParam(J, Pointer(Void), job);
    WorkerMeaning(m, cfg, [], args, ReturnType(f), n, env, later);
    ReadsBack(m, job, args, cs, later);
    ReadsOutside(m, job, args, later);
    var (read, w1) := ReadArgs(m, job, args, later);
    var cargs := CArgs(m, NonVoid(Params(f)), cs);
    assert read == cargs;
    assert EvalExps(m, Reverse([]), env) == [] && [] + cargs == cargs;
    WorkerCallsOnce(m, cfg, job, cargs, ReturnType(f), w1);
    CallOutside(m, cfg, job, cargs, ReturnType(f), w1);
    OutsideTwice(later, w1, WorkerCall(m, cfg, job, cargs, ReturnType(f), w1));
    assert EndToEnd.ForeignCalls(Foreign(cfg, ReturnType(f)), w1.trace) == EndToEnd.ForeignCalls(Foreign(cfg, ReturnType(f)), later.trace);
  }

  lemma OneParam(x: Name, t: Typ, v: Val)
    ensures BindParams([(x, t)], [v]) == map[x := v]
  {
    assert [(x, t)][1..] == [] && [v][1..] == [];
    assert BindParams([], []) == map[];
  }

  lemma {:induction false} WorkerCallsOnce(m: Machine, cfg: Config, j: Val, cargs: seq<Val>, ret: Typ, w: World)
    ensures var foreign := Foreign(cfg, ret);
            var w1 := WorkerCall(m, cfg, j, cargs, ret, w);
            var (reply, status) := WorkerReply(m, cfg, j, cargs, ret, w);
            && EndToEnd.ForeignCalls(foreign, w1.trace) == EndToEnd.ForeignCalls(foreign, w.trace) + [cargs]
            && Holds(cfg, ret, j, reply, status, w1)
  {
    hide EndToEnd.ForeignCalls;
    hide LastStored;
    var foreign, errno := Foreign(cfg, ret), cfg.errno.ReturnErrno?;
    var w1 := if errno then w.(errno := CInt(0)) else w;
    EndToEnd.DoCalls(foreign, m, OCall(foreign), cargs, w1);
    var (r, w2) := Do(m, OCall(foreign), cargs, w1);
    EndToEnd.DoCalls(foreign, m, OStore("result"), [j, r], w2);
    DoStores(m, OStore("result"), [j, r], w2, "result", j);
    var w3 := if ret.Void? then w2 else Do(m, OStore("result"), [j, r], w2).1;
    EndToEnd.DoCalls(foreign, m, OStore("error_status"), [j, w3.errno], w3);
    DoStores(m, OStore("error_status"), [j, w3.errno], w3, "result", j);
    DoStores(m, OStore("error_status"), [j, w3.errno], w3, "error_status", j);
    ResultIsNotStatus();
  }

  lemma ResultIsNotStatus()
    ensures OStore("result") != OStore("error_status")
  {
    assert |"result"| != |"error_status"|;
  }

  // ---- The result ----

  const ALLOC_TUPLE := CFunction("caml_alloc_tuple", true, false, VALUE)
  const STORE_FIELD := CFunction("Store_field", false, true, Void)
  const FREE_JOB := CFunction("lwt_unix_free_job", false, false, Void)

  // The reads inside the emitted expressions, named.
  const RESULT := Fresh(0)
  const STATUS := Fresh(1)
  const COPIED := Fresh(2)
  const INJECTED := Fresh(3)
  const IGNORED := Fresh(4)

  function FinishResult(): CComp {
    Let(IGNORED, Void, App(FREE_JOB, [Local(J, Pointer(Void))]), CamlReturnT(VALUE, Local(RV, VALUE)))
  }

  // The result field is not read when the C function returns nothing.
  function Fetch(ret: Typ, body: CComp): CComp {
    if ret.Void? then body else Let(RESULT, ret, DerefField(Local(J, Pointer(Void)), "result"), body)
  }

  function StoreField(i: nat, x: Name, body: CComp): CComp {
    Let(IGNORED, Void, App(STORE_FIELD, [Local(RV, VALUE), IntConst(i), Local(x, VALUE)]), body)
  }

  // The first component of the pair, after the second.
  function PairResult(ret: Typ): CComp
    requires InjError(ret).None?
  {
    Fetch(ret, Let(INJECTED, VALUE, Inj(ret, RESULT, ret), StoreField(0, INJECTED, FinishResult())))
  }

  function PairStatus(ret: Typ): CComp
    requires InjError(ret).None?
  {
    Let(STATUS, Primitive(Sint), DerefField(Local(J, Pointer(Void)), "error_status"),
      Let(COPIED, VALUE, App(PrimInj(Sint), [Local(STATUS, Primitive(Sint))]), StoreField(1, COPIED, PairResult(ret))))
  }

  /** `result`; declaring rv as a root is part of opening the frame. */
  function ResultFn(stubName: string, errno: bool, ret: Typ): (d: CFundef)
    requires InjError(ret).None?
    ensures |d.params| == 1
  {
    CFundef("result_" + stubName, [(J, Pointer(Void))], VALUE,
      Let(IGNORED, Void, CamlParam0,
        if errno then LetAssign(LLocal(RV), App(ALLOC_TUPLE, [IntConst(2)]), PairStatus(ret))
        else Fetch(ret, LetAssign(LLocal(RV), Inj(ret, RESULT, ret), FinishResult()))))
  }

  // ---- What the result is, given what the job holds ----

  function FetchSpec(m: Machine, ret: Typ, job: Val, w: World): World {
    if ret.Void? then w else Do(m, OField("result"), [job], w).1
  }

  function StoreFieldSpec(m: Machine, t: Val, i: nat, v: Val, w: World): World {
    Do(m, OCall(STORE_FIELD), [t, CInt(i), v], w).1
  }

  /** The reply injected; with errno, put first in a pair whose second component is the
      status; the job freed. */
  function ResultSpec(m: Machine, errno: bool, ret: Typ, job: Val, reply: Val, status: Val, w: World): (Val, World)
    requires InjError(ret).None?
  {
    var w1 := Do(m, OParam0, [], w).1;
    if !errno then
      var (v, w2) := Inject(m, ret, m.convert(ret, reply), FetchSpec(m, ret, job, w1));
      (v, Do(m, OCall(FREE_JOB), [job], w2).1)
    else
      var (t, w2) := Do(m, OCall(ALLOC_TUPLE), [CInt(2)], w1);
      var w3 := Do(m, OField("error_status"), [job], w2).1;
      var (s, w4) := Do(m, OCall(PrimInj(Sint)), [m.convert(Primitive(Sint), status)], w3);
      (t, PairSpec(m, ret, job, reply, t, StoreFieldSpec(m, t, 1, s, w4)))
  }

  function PairSpec(m: Machine, ret: Typ, job: Val, reply: Val, t: Val, w: World): World
    requires InjError(ret).None?
  {
    var (v, w1) := Inject(m, ret, m.convert(ret, reply), FetchSpec(m, ret, job, w));
    Do(m, OCall(FREE_JOB), [job], StoreFieldSpec(m, t, 0, v, w1)).1
  }

  /** What was last stored in field i of a tuple. */
  function LastField(trace: seq<Event>, t: Val, i: int): Option<Val>
    decreases |trace|
  {
    if trace == [] then None
    else
      var last := trace[|trace| - 1];
      if last.op.OCall? && last.op.f == STORE_FIELD && |last.args| == 3 && last.args[..2] == [t, CInt(i)] then Some(last.args[2])
      else LastField(trace[..|trace| - 1], t, i)
  }

  lemma DoFields(m: Machine, op: Op, args: seq<Val>, w: World, t: Val, i: int)
    ensures LastField(Do(m, op, args, w).1.trace, t, i) ==
            if op == OCall(STORE_FIELD) && |args| == 3 && args[..2] == [t, CInt(i)] then Some(args[2]) else LastField(w.trace, t, i)
  {
    var trace := Do(m, op, args, w).1.trace;
    assert trace[..|trace| - 1] == w.trace;
  }

  lemma OtherStoresNothing(m: Machine, op: Op, args: seq<Val>, w: World, t: Val, i: int)
    requires op.OCall? ==> op.f.ret != Void
    ensures LastField(Do(m, op, args, w).1.trace, t, i) == LastField(w.trace, t, i)
  {
    hide LastField;
    DoFields(m, op, args, w, t, i);
  }

  lemma InjectStoresNothing(m: Machine, ret: Typ, c: Val, w: World, t: Val, i: int)
    requires InjError(ret).None?
    ensures LastField(Inject(m, ret, c, w).1.trace, t, i) == LastField(w.trace, t, i)
  {
    hide PrimInj;
    hide LastField;
    hide Do;
    PrjErrorStrip(ret);
    match StripViews(ret)
    case Void => OtherStoresNothing(m, OGlobal(VAL_UNIT), [], w, t, i);
    case Primitive(p) => OtherStoresNothing(m, OCall(PrimInj(p)), [m.convert(Primitive(p), c)], w, t, i);
    case Struct(_, spec, _) => OtherStoresNothing(m, OCall(COPY_BYTES), [AddrOf(c), CInt(spec.value.size)], w, t, i);
    case Union(_, spec, _) => OtherStoresNothing(m, OCall(COPY_BYTES), [AddrOf(c), CInt(spec.value.size)], w, t, i);
    case _ => OtherStoresNothing(m, OCall(FROM_PTR), [c], w, t, i);
  }

  lemma FieldStored(m: Machine, t: Val, i: nat, v: Val, w: World, k: int)
    ensures LastField(StoreFieldSpec(m, t, i, v, w).trace, t, k) == if i == k then Some(v) else LastField(w.trace, t, k)
  {
    hide LastField;
    DoFields(m, OCall(STORE_FIELD), [t, CInt(i), v], w, t, k);
    assert [t, CInt(i), v][..2] == [t, CInt(i)];
  }

  /** With errno the reply is a new tuple: its first component is the injected reply, its
      second the status made an OCaml `sint`. */
  lemma {:induction false} PairHolds(m: Machine, ret: Typ, job: Val, reply: Val, status: Val, w: World) returns (atReply: World, atStatus: World)
    requires InjError(ret).None?
    ensures var (t, w1) := ResultSpec(m, true, ret, job, reply, status, w);
            && t == m.run(OCall(ALLOC_TUPLE), [CInt(2)], Do(m, OParam0, [], w).1).v
            && LastField(w1.trace, t, 0) == Some(Inject(m, ret, m.convert(ret, reply), atReply).0)
            && LastField(w1.trace, t, 1) == Some(m.run(OCall(PrimInj(Sint)), [m.convert(Primitive(Sint), status)], atStatus).v)
  {
    hide LastField;
    hide PrimInj;
    hide Inject;
    hide InjError;
    var w1 := Do(m, OParam0, [], w).1;
    var (t, w2) := Do(m, OCall(ALLOC_TUPLE), [CInt(2)], w1);
    atStatus := Do(m, OField("error_status"), [job], w2).1;
    var (s, w4) := Do(m, OCall(PrimInj(Sint)), [m.convert(Primitive(Sint), status)], atStatus);
    FieldStored(m, t, 1, s, w4, 1);
    var w5 := StoreFieldSpec(m, t, 1, s, w4);
    DoFields(m, OField("result"), [job], w5, t, 1);
    atReply := FetchSpec(m, ret, job, w5);
    InjectStoresNothing(m, ret, m.convert(ret, reply), atReply, t, 1);
    var (v, w6) := Inject(m, ret, m.convert(ret, reply), atReply);
    FieldStored(m, t, 0, v, w6, 0);
    FieldStored(m, t, 0, v, w6, 1);
    var w7 := StoreFieldSpec(m, t, 0, v, w6);
    DoFields(m, OCall(FREE_JOB), [job], w7, t, 0);
    DoFields(m, OCall(FREE_JOB), [job], w7, t, 1);
  }

  lemma LetStep(m: Machine, x: Name, t: Typ, rhs: CEff, body: CComp, env: Env, w: World)
    ensures var (v, w1) := EvalEff(m, rhs, env, w);
            EvalComp(m, Let(x, t, rhs, body), env, w) == EvalComp(m, body, env[x := m.convert(t, v)], w1)
  {
  }

  lemma FinishResultMeaning(m: Machine, env: Env, w: World)
    ensures EvalComp(m, FinishResult(), env, w) ==
            Outcome(Lookup(env, RV), Do(m, OCall(FREE_JOB), [Lookup(env, J)], w).1, ByCamlReturn)
  {
    hide Do;
    CallOne(m, FREE_JOB, Local(J, Pointer(Void)), env, w);
  }

  lemma {:induction false} StoreFieldMeaning(m: Machine, i: nat, x: Name, body: CComp, env: Env, w: World)
    ensures EvalComp(m, StoreField(i, x, body), env, w) ==
            EvalComp(m, body, env[IGNORED := m.convert(Void, Do(m, OCall(STORE_FIELD), [Lookup(env, RV), CInt(i), Lookup(env, x)], w).0)],
                     StoreFieldSpec(m, Lookup(env, RV), i, Lookup(env, x), w))
  {
    hide Do;
    assert EvalExps(m, [Local(RV, VALUE), IntConst(i), Local(x, VALUE)], env) == [Lookup(env, RV), CInt(i), Lookup(env, x)];
  }

  // Reading the stored reply.
  lemma {:induction false} FetchMeaning(m: Machine, ret: Typ, body: CComp, env: Env, w: World, job: Val, reply: Val)
    requires Remembers(m) && Lookup(env, J) == job && (!ret.Void? ==> LastStored(w.trace, "result", job) == Some(reply))
    ensures EvalComp(m, Fetch(ret, body), env, w) ==
            EvalComp(m, body, if ret.Void? then env else env[RESULT := m.convert(ret, reply)], FetchSpec(m, ret, job, w))
  {
    hide LastStored;
    if !ret.Void? {
      assert EvalExp(m, Local(J, Pointer(Void)), env) == job;
      LetStep(m, RESULT, ret, DerefField(Local(J, Pointer(Void)), "result"), body, env, w);
    }
  }

  // Injecting it; of nothing, the reply is not looked at.
  lemma {:induction false} InjectMeaning(m: Machine, ret: Typ, env: Env, w: World, reply: Val)
    requires InjError(ret).None? && KeepsValues(m) && (!ret.Void? ==> Lookup(env, RESULT) == m.convert(ret, reply))
    ensures EvalEff(m, Inj(ret, RESULT, ret), env, w) == Inject(m, ret, m.convert(ret, reply), w)
  {
    if !ret.Void? {
      hide Inject;
      hide Inj;
      hide InjError;
      InjMeaning(m, ret, RESULT, ret, env, w);
    }
  }

  lemma {:induction false} PairResultMeaning(m: Machine, ret: Typ, env: Env, w: World, job: Val, reply: Val)
    requires InjError(ret).None? && KeepsValues(m) && Remembers(m)
    requires Lookup(env, J) == job && (!ret.Void? ==> LastStored(w.trace, "result", job) == Some(reply))
    ensures EvalComp(m, PairResult(ret), env, w) ==
            Outcome(Lookup(env, RV), PairSpec(m, ret, job, reply, Lookup(env, RV), w), ByCamlReturn)
  {
    hide LastStored;
    hide Do;
    hide Inject;
    hide Inj;
    hide InjError;
    hide Fetch;
    hide FetchSpec;
    hide Remembers;
    hide StoreField;
    hide StoreFieldSpec;
    hide FinishResult;
    var body := Let(INJECTED, VALUE, Inj(ret, RESULT, ret), StoreField(0, INJECTED, FinishResult()));
    FetchMeaning(m, ret, body, env, w, job, reply);
    var env1, w1 := if ret.Void? then env else env[RESULT := m.convert(ret, reply)], FetchSpec(m, ret, job, w);
    InjectMeaning(m, ret, env1, w1, reply);
    LetStep(m, INJECTED, VALUE, Inj(ret, RESULT, ret), StoreField(0, INJECTED, FinishResult()), env1, w1);
    hide EvalComp;
    hide EvalEff;
    var (v, w2) := Inject(m, ret, m.convert(ret, reply), w1);
    var env2 := env1[INJECTED := v];
    StoreFieldMeaning(m, 0, INJECTED, FinishResult(), env2, w2);
    var env3 := env2[IGNORED := m.convert(Void, Do(m, OCall(STORE_FIELD), [Lookup(env2, RV), CInt(0), v], w2).0)];
    FinishResultMeaning(m, env3, StoreFieldSpec(m, Lookup(env, RV), 0, v, w2));
  }

  // The second component: the stored status, copied.
  lemma {:induction false} StatusStored(m: Machine, ret: Typ, env: Env, w: World, job: Val, status: Val)
    requires InjError(ret).None? && KeepsValues(m) && Remembers(m) && Lookup(env, J) == job
    requires LastStored(w.trace, "error_status", job) == Some(status)
    ensures var t := Lookup(env, RV);
            var w1 := Do(m, OField("error_status"), [job], w).1;
            var (s, w2) := Do(m, OCall(PrimInj(Sint)), [m.convert(Primitive(Sint), status)], w1);
            var ignored := Do(m, OCall(STORE_FIELD), [t, CInt(1), s], w2).0;
            EvalComp(m, PairStatus(ret), env, w) ==
              EvalComp(m, PairResult(ret), env[STATUS := m.convert(Primitive(Sint), status)][COPIED := s][IGNORED := m.convert(Void, ignored)],
                       StoreFieldSpec(m, t, 1, s, w2))
  {
    hide LastStored;
    hide PairResult;
    hide InjError;
    hide StoreField;
    hide StoreFieldSpec;
    var read := DerefField(Local(J, Pointer(Void)), "error_status");
    var copy := App(PrimInj(Sint), [Local(STATUS, Primitive(Sint))]);
    var last := StoreField(1, COPIED, PairResult(ret));
    assert EvalExp(m, Local(J, Pointer(Void)), env) == job;
    var (c, w1) := Do(m, OField("error_status"), [job], w);
    assert c == status;
    assert EvalEff(m, read, env, w) == (c, w1);
    hide Remembers;
    hide Do;
    LetStep(m, STATUS, Primitive(Sint), read, Let(COPIED, VALUE, copy, last), env, w);
    var env1 := env[STATUS := m.convert(Primitive(Sint), status)];
    CallOne(m, PrimInj(Sint), Local(STATUS, Primitive(Sint)), env1, w1);
    assert EvalExp(m, Local(STATUS, Primitive(Sint)), env1) == m.convert(Primitive(Sint), status);
    LetStep(m, COPIED, VALUE, copy, last, env1, w1);
    hide EvalComp;
    hide EvalEff;
    var (s, w2) := Do(m, OCall(PrimInj(Sint)), [m.convert(Primitive(Sint), status)], w1);
    StoreFieldMeaning(m, 1, COPIED, PairResult(ret), env1[COPIED := s], w2);
  }

  lemma {:induction false} PairStatusMeaning(m: Machine, ret: Typ, env: Env, w: World, job: Val, reply: Val, status: Val)
    requires InjError(ret).None? && KeepsValues(m) && Remembers(m) && Lookup(env, J) == job
    requires !ret.Void? ==> LastStored(w.trace, "result", job) == Some(reply)
    requires LastStored(w.trace, "error_status", job) == Some(status)
    ensures var t := Lookup(env, RV);
            var w1 := Do(m, OField("error_status"), [job], w).1;
            var (s, w2) := Do(m, OCall(PrimInj(Sint)), [m.convert(Primitive(Sint), status)], w1);
            EvalComp(m, PairStatus(ret), env, w) ==
              Outcome(t, PairSpec(m, ret, job, reply, t, StoreFieldSpec(m, t, 1, s, w2)), ByCamlReturn)
  {
    hide LastStored;
    hide PairResult;
    hide PairStatus;
    hide PairSpec;
    hide InjError;
    hide Remembers;
    hide KeepsValues;
    hide EvalComp;
    StatusStored(m, ret, env, w, job, status);
    var t, arg := Lookup(env, RV), m.convert(Primitive(Sint), status);
    var w1 := Do(m, OField("error_status"), [job], w).1;
    var (s, w2) := Do(m, OCall(PrimInj(Sint)), [arg], w1);
    DoStores(m, OField("error_status"), [job], w, "result", job);
    DoStores(m, OCall(PrimInj(Sint)), [arg], w1, "result", job);
    DoStores(m, OCall(STORE_FIELD), [t, CInt(1), s], w2, "result", job);
    var ignored := Do(m, OCall(STORE_FIELD), [t, CInt(1), s], w2).0;
    hide Do;
    PairResultMeaning(m, ret, env[STATUS := arg][COPIED := s][IGNORED := m.convert(Void, ignored)], StoreFieldSpec(m, t, 1, s, w2), job, reply);
  }

  lemma RvIsNotJ()
    ensures RV != J
  {
    assert |"rv"| != |"j"|;
  }

  lemma AssignLocal(m: Machine, x: Name, rhs: CEff, body: CComp, env: Env, w: World)
    ensures var (v, w1) := EvalEff(m, rhs, env, w);
            EvalComp(m, LetAssign(LLocal(x), rhs, body), env, w) == EvalComp(m, body, env[x := v], w1)
  {
  }

  lemma {:induction false} PairMeaning(m: Machine, ret: Typ, env: Env, w: World, job: Val, reply: Val, status: Val)
    requires InjError(ret).None? && KeepsValues(m) && Remembers(m) && Lookup(env, J) == job
    requires !ret.Void? ==> LastStored(w.trace, "result", job) == Some(reply)
    requires LastStored(w.trace, "error_status", job) == Some(status)
    ensures var (t, w1) := Do(m, OCall(ALLOC_TUPLE), [CInt(2)], w);
            var w2 := Do(m, OField("error_status"), [job], w1).1;
            var (s, w3) := Do(m, OCall(PrimInj(Sint)), [m.convert(Primitive(Sint), status)], w2);
            EvalComp(m, LetAssign(LLocal(RV), App(ALLOC_TUPLE, [IntConst(2)]), PairStatus(ret)), env, w) ==
              Outcome(t, PairSpec(m, ret, job, reply, t, StoreFieldSpec(m, t, 1, s, w3)), ByCamlReturn)
  {
    hide LastStored;
    hide PairStatus;
    hide PairSpec;
    hide InjError;
    hide Remembers;
    hide StoreFieldSpec;
    RvIsNotJ();
    CallOne(m, ALLOC_TUPLE, IntConst(2), env, w);
    AssignLocal(m, RV, App(ALLOC_TUPLE, [IntConst(2)]), PairStatus(ret), env, w);
    var (t, w1) := Do(m, OCall(ALLOC_TUPLE), [CInt(2)], w);
    DoStores(m, OCall(ALLOC_TUPLE), [CInt(2)], w, "result", job);
    DoStores(m, OCall(ALLOC_TUPLE), [CInt(2)], w, "error_status", job);
    hide Do;
    hide EvalComp;
    PairStatusMeaning(m, ret, env[RV := t], w1, job, reply, status);
  }

  lemma {:induction false} PlainMeaning(m: Machine, ret: Typ, env: Env, w: World, job: Val, reply: Val)
    requires InjError(ret).None? && KeepsValues(m) && Remembers(m) && Lookup(env, J) == job
    requires !ret.Void? ==> LastStored(w.trace, "result", job) == Some(reply)
    ensures var (v, w1) := Inject(m, ret, m.convert(ret, reply), FetchSpec(m, ret, job, w));
            EvalComp(m, Fetch(ret, LetAssign(LLocal(RV), Inj(ret, RESULT, ret), FinishResult())), env, w) ==
              Outcome(v, Do(m, OCall(FREE_JOB), [job], w1).1, ByCamlReturn)
  {
    hide LastStored;
    hide Inject;
    hide Inj;
    hide InjError;
    hide Fetch;
    hide FetchSpec;
    hide FinishResult;
    hide Remembers;
    hide KeepsValues;
    hide Do;
    RvIsNotJ();
    var store := LetAssign(LLocal(RV), Inj(ret, RESULT, ret), FinishResult());
    FetchMeaning(m, ret, store, env, w, job, reply);
    var env1, w1 := if ret.Void? then env else env[RESULT := m.convert(ret, reply)], FetchSpec(m, ret, job, w);
    InjectMeaning(m, ret, env1, w1, reply);
    AssignLocal(m, RV, Inj(ret, RESULT, ret), FinishResult(), env1, w1);
    var (v, w2) := Inject(m, ret, m.convert(ret, reply), w1);
    FinishResultMeaning(m, env1[RV := v], w2);
  }

  // The result function gives what the reply and status are for, and closes its root frame.
  ghost predicate ResultRight(m: Machine, stubName: string, errno: bool, ret: Typ, job: Val, reply: Val, status: Val, w: World)
    requires InjError(ret).None?
  {
    var (v, w1) := ResultSpec(m, errno, ret, job, reply, status, w);
    RunBody(m, ResultFn(stubName, errno, ret), [job], w) == (v, w1.(roots := w1.roots - 1))
  }

  /** `result`: what the job holds is read, injected and, with errno, paired with the status;
      the job is freed and the root frame closed. */
  lemma {:induction false} ResultMeaning(m: Machine, stubName: string, cfg: Config, ret: Typ, job: Val, reply: Val, status: Val, w: World)
    requires InjError(ret).None? && KeepsValues(m) && Remembers(m) && Holds(cfg, ret, job, reply, status, w)
    ensures ResultRight(m, stubName, cfg.errno.ReturnErrno?, ret, job, reply, status, w)
  {
    hide LastStored;
    hide PairStatus;
    hide PairSpec;
    hide Inject;
    hide Inj;
    hide InjError;
    hide Fetch;
    hide FetchSpec;
    hide FinishResult;
    hide Remembers;
    hide KeepsValues;
    hide StoreFieldSpec;
    OneParam(J, Pointer(Void), job);
    var errno, env := cfg.errno.ReturnErrno?, map[J := job];
    var (p, w1) := Do(m, OParam0, [], w);
    DoStores(m, OParam0, [], w, "result", job);
    DoStores(m, OParam0, [], w, "error_status", job);
    hide Do;
    var body := if errno then LetAssign(LLocal(RV), App(ALLOC_TUPLE, [IntConst(2)]), PairStatus(ret))
                else Fetch(ret, LetAssign(LLocal(RV), Inj(ret, RESULT, ret), FinishResult()));
    LetStep(m, IGNORED, Void, CamlParam0, body, env, w);
    hide EvalComp;
    var env1 := env[IGNORED := m.convert(Void, p)];
    if errno { PairMeaning(m, ret, env1, w1, job, reply, status); } else { PlainMeaning(m, ret, env1, w1, job, reply); }
  }

  // ---- Stub, worker and result ----

  /** The worker, run at any time after the job was handed over, makes the call on the stub's
      projections `cs`; and the result, asked for at any time after that, is the reply injected, paired with the call's errno if the policy says so.
      In between anything may happen that leaves this job's fields alone. */
  ghost predicate Answers(m: Machine, cfg: Config, stubName: string, f: Fn, n: nat, cs: seq<Val>,
                          job: Val, handed: World, atWorker: World, atResult: World)
    requires |cs| == |NonVoid(Params(f))| && InjError(ReturnType(f)).None?
  {
    var ret, errno, done := ReturnType(f), cfg.errno.ReturnErrno?, RunBody(m, WorkerFn(cfg, stubName, f, n), [job], atWorker).1;
    KeepsJob(job, JobArgs(f, 0), handed, atWorker) ==>
      && CallMade(m, cfg, stubName, f, n, cs, job, atWorker)
      && (KeepsField(job, "result", done, atResult) && KeepsField(job, "error_status", done, atResult) ==>
            var (reply, status) := Reply(m, cfg, f, cs, job, atWorker);
            ResultRight(m, stubName, errno, ret, job, reply, status, atResult))
  }

  /** An Lwt call from end to end, for every supported description, both errno policies and
      any times at which the worker and the result run: the stub fills in a job with what it
      reads for each parameter that is not void and hands it over, and the job answers. */
  lemma JobAnswers(m: Machine, cfg: Config, stubName: string, f: Fn, n: nat, vs: seq<Val>, w: World, atWorker: World, atResult: World)
      returns (cs: seq<Val>, filled: World, fill: seq<Event>)
    requires Supported(f) && |vs| == |NonVoid(Params(f))| && Remembers(m) && KeepsValues(m)
    ensures InjError(ReturnType(f)).None? && AllProjectable(JobArgs(f, 0)) && |JobArgs(f, 0)| == |vs|
    ensures var errno := cfg.errno.ReturnErrno?;
            var (job, started) := Started(m, errno, Do(m, ORoots, vs, w).1);
            var (_, w1) := Do(m, OCall(ALLOC_JOB), [job], filled);
            && FilledIn(NonVoid(Params(f)), vs, cs, job, fill) && filled.trace == started.trace + fill
            && RunBody(m, JobStub(stubName, errno, JobArgs(f, 0)), vs, w).1 == w1.(roots := w1.roots - 1)
            && Answers(m, cfg, stubName, f, n, cs, job, w1.(roots := w1.roots - 1), atWorker, atResult)
  {
    JobArgTypes(f, 0);
    hide NonVoid;
    hide JobArgs;
    hide Supported;
    hide AllProjectable;
    hide JobStub;
    hide RunBody;
    hide Answers;
    hide FilledIn;
    hide FillJob;
    hide Started;
    hide Do;
    hide InjError;
    cs, filled, fill := JobStubMeaning(m, stubName, cfg.errno.ReturnErrno?, f, vs, w);
    FilledAnswers(m, cfg, stubName, f, n, vs, w, atWorker, atResult);
  }

  lemma {:induction false} FilledAnswers(m: Machine, cfg: Config, stubName: string, f: Fn, n: nat, vs: seq<Val>, w: World, atWorker: World, atResult: World)
    requires Supported(f) && |vs| == |NonVoid(Params(f))| && Remembers(m) && KeepsValues(m)
    ensures AllProjectable(JobArgs(f, 0)) && InjError(ReturnType(f)).None? && |JobArgs(f, 0)| == |vs|
    ensures var args, errno := JobArgs(f, 0), cfg.errno.ReturnErrno?;
            var (job, started) := Started(m, errno, Do(m, ORoots, vs, w).1);
            var cs := FillJob(m, job, args, vs, started).0;
            var handed := RunBody(m, JobStub(stubName, errno, args), vs, w).1;
            Answers(m, cfg, stubName, f, n, cs, job, handed, atWorker, atResult)
  {
    var args, errno := JobArgs(f, 0), cfg.errno.ReturnErrno?;
    SupportedArgs(f, 0);
    VoidInjects();
    JobArgTypes(f, 0);
    hide NonVoid;
    hide ArgName;
    JobStubRuns(m, stubName, errno, f, vs, w);
    hide Answers;
    var (job, started) := Started(m, errno, Do(m, ORoots, vs, w).1);
    var (cs, filled) := FillJob(m, job, args, vs, started);
    var d := JobStub(stubName, errno, args);
    assert |d.params| == |args|;
    var handed := RunBody(m, d, vs, w).1;
    hide RunBody;
    hide FillJob;
    hide JobStub;
    hide JobArgs;
    hide InjError;
    hide Remembers;
    hide KeepsValues;
    hide Started;
    hide Supported;
    hide KeepsField;
    HandedOver(m, job, args, filled, handed);
    hide Do;
    hide KeepsJob;
    AnswersFrom(m, cfg, stubName, f, n, vs, job, started, handed, atWorker, atResult);
  }

  // Handing the job over changes none of its fields.
  lemma HandedOver(m: Machine, job: Val, args: seq<JobArg>, filled: World, handed: World)
    requires var w := Do(m, OCall(ALLOC_JOB), [job], filled).1; handed == w.(roots := w.roots - 1)
    ensures KeepsJob(job, args, filled, handed)
  {
    hide LastStored;
    hide Do;
    forall a | a in args ensures KeepsField(job, a.name, filled, handed) {
      DoStores(m, OCall(ALLOC_JOB), [job], filled, a.name, job);
    }
  }

  lemma {:induction false} AnswersFrom(m: Machine, cfg: Config, stubName: string, f: Fn, n: nat, vs: seq<Val>,
                                       job: Val, started: World, handed: World, atWorker: World, atResult: World)
    requires Supported(f) && |vs| == |JobArgs(f, 0)| == |NonVoid(Params(f))| && Remembers(m) && KeepsValues(m)
    requires AllProjectable(JobArgs(f, 0)) && InjError(ReturnType(f)).None?
    requires KeepsJob(job, JobArgs(f, 0), FillJob(m, job, JobArgs(f, 0), vs, started).1, handed)
    ensures Answers(m, cfg, stubName, f, n, FillJob(m, job, JobArgs(f, 0), vs, started).0, job, handed, atWorker, atResult)
  {
    var args, ret := JobArgs(f, 0), ReturnType(f);
    hide RunBody;
    hide WorkerFn;
    hide ResultFn;
    hide FillJob;
    hide LastStored;
    hide Reply;
    hide ResultSpec;
    hide JobArgs;
    hide OutsideOCaml;
    hide EndToEnd.ForeignCalls;
    hide InjError;
    hide Remembers;
    hide KeepsValues;
    hide Supported;
    hide AllProjectable;
    hide KeepsJob;
    hide Holds;
    hide KeepsField;
    hide ResultRight;
    if KeepsJob(job, args, handed, atWorker) {
      var (cs, filled) := FillJob(m, job, args, vs, started);
      KeepsTwice(job, args, filled, handed, atWorker);
      var fill := JobMakesTheCall(m, cfg, stubName, f, n, vs, job, started, atWorker);
      var (reply, status) := Reply(m, cfg, f, cs, job, atWorker);
      var done := RunBody(m, WorkerFn(cfg, stubName, f, n), [job], atWorker).1;
      assert Holds(cfg, ret, job, reply, status, done);
      hide CallMade;
      if KeepsField(job, "result", done, atResult) && KeepsField(job, "error_status", done, atResult) {
        StillHolds(cfg, ret, job, reply, status, done, atResult);
        ResultMeaning(m, stubName, cfg, ret, job, reply, status, atResult);
      }
    }
  }

  lemma KeepsTwice(job: Val, args: seq<JobArg>, w: World, w1: World, w2: World)
    requires KeepsJob(job, args, w, w1) && KeepsJob(job, args, w1, w2)
    ensures KeepsJob(job, args, w, w2)
  {
    hide LastStored;
    forall a | a in args ensures KeepsField(job, a.name, w, w2) {
      assert KeepsField(job, a.name, w, w1) && KeepsField(job, a.name, w1, w2);
    }
  }

  lemma StillHolds(cfg: Config, ret: Typ, job: Val, reply: Val, status: Val, w: World, w1: World)
    requires Holds(cfg, ret, job, reply, status, w) && KeepsField(job, "result", w, w1) && KeepsField(job, "error_status", w, w1)
    ensures Holds(cfg, ret, job, reply, status, w1)
  {
    hide LastStored;
  }

  lemma VoidInjects()
    ensures InjError(Void).None?
  {
  }
}

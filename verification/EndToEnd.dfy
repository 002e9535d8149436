/** The two halves put together: a generated wrapper whose external is the generated
    stub (src/cstubs/cstubs_generate_ml.ml:672-689 over cstubs_generate_c.ml:187-250,
    and src/cbuf/cbuf_generate_ml.ml:646-729 over cbuf_generate_c.ml:174-267). */
module EndToEnd {
  import opened CtypesStatic
  import opened CLanguage
  import opened Projections
  import opened CStub
  import opened MLLanguage
  import opened MLWrapper
  import opened CbufStub
  import opened CbufWrapper

  // What the program around the generated code supplies: the views' functions and C.
  datatype Surroundings = Surroundings(write: (ViewInfo, Val) -> Val, read: (ViewInfo, Val) -> Val, c: Machine)

  /** The wrapper's external, bound to a stub: it takes as many arguments as the stub
      has parameters and runs its body. */
  function Linked(p: Surroundings, d: CFundef): Host {
    Host(p.write, p.read, (args: seq<Val>, w: World) => if |args| == |d.params| then RunBody(p.c, d, args, w) else (Stuck, w), |d.params|)
  }

  // ---- The two generators accept the same descriptions ----

  lemma {:induction false} SameArguments(t: Typ)
    ensures PrjError(t).None? <==> PatError(t, In).None?
  {
    match t case View(_, ty) => SameArguments(ty); case _ =>
  }

  lemma {:induction false} ResultsRaisable(t: Typ)
    ensures InjError(t).None? ==> PatError(t, Out).None? && PatError(t, In).None?
  {
    match t case View(_, ty) => ResultsRaisable(ty); case _ =>
  }

  /** Whenever a stub is generated, so is its wrapper. */
  lemma {:induction false} WrapperWheneverStub(f: Fn)
    ensures FirstError(Params(f), ReturnType(f)).None? ==> Wrappable(f, In)
    decreases f
  {
    hide PrjError;
    hide PatError;
    hide InjError;
    match f
    case Returns(t) => ResultsRaisable(t);
    case Function(t, rest) =>
      assert Params(f)[1..] == Params(rest);
      SameArguments(t);
      WrapperWheneverStub(rest);
  }

  // ---- Foreign calls in a run ----

  /** The arguments of every call of the foreign function in a trace. */
  function ForeignCalls(f: CFunction, trace: seq<Event>): seq<seq<Val>>
    decreases |trace|
  {
    if trace == [] then []
    else
      var front, last := trace[..|trace| - 1], trace[|trace| - 1];
      ForeignCalls(f, front) + if last.op == OCall(f) then [last.args] else []
  }

  lemma DoCalls(f: CFunction, m: Machine, op: Op, args: seq<Val>, w: World)
    ensures ForeignCalls(f, Do(m, op, args, w).1.trace) ==
            ForeignCalls(f, w.trace) + if op == OCall(f) then [args] else []
  {
    var t := Do(m, op, args, w).1.trace;
    assert t[..|t| - 1] == w.trace;
  }

  // A function like the one a stub is generated for; its result can be injected.
  predicate IsForeign(f: CFunction) {
    !f.allocates && !f.readsHeap && f.ret != VALUE
  }

  lemma ProjectCallsNothing(f: CFunction, m: Machine, t: Typ, v: Val, w: World)
    requires PrjError(t).None? && !HasNoArgument(t) && IsForeign(f)
    ensures ForeignCalls(f, Project(m, t, v, w).1.trace) == ForeignCalls(f, w.trace)
  {
    hide PrimPrj;
    hide ForeignCalls;
    hide Do;
    hide IsForeign;
    hide InteriorPointer;
    hide ProjectStructured;
    PrjErrorStrip(t);
    match StripViews(t)
    case Primitive(p) => ReadCallsNothing(f, m, PrimPrj(p), [v], w);
    case Struct(_, _, _) => StructuredCallsNothing(f, m, t, v, w);
    case Union(_, _, _) => StructuredCallsNothing(f, m, t, v, w);
    case OCaml(k) => InteriorReads(k); ReadCallsNothing(f, m, InteriorPointer(k), [v], w);
    case _ => ReadCallsNothing(f, m, ADDR_OF_FATPTR, [v], w);
  }

  lemma InteriorReads(k: OCamlKind)
    ensures InteriorPointer(k).readsHeap
  {
  }

  lemma ReadCallsNothing(f: CFunction, m: Machine, g: CFunction, args: seq<Val>, w: World)
    requires IsForeign(f) && g.readsHeap
    ensures ForeignCalls(f, Do(m, OCall(g), args, w).1.trace) == ForeignCalls(f, w.trace)
  {
    DoCalls(f, m, OCall(g), args, w);
  }

  lemma StructuredCallsNothing(f: CFunction, m: Machine, t: Typ, v: Val, w: World)
    requires IsForeign(f)
    ensures ForeignCalls(f, ProjectStructured(m, t, v, w).1.trace) == ForeignCalls(f, w.trace)
  {
    hide Do;
    hide ForeignCalls;
    ReadCallsNothing(f, m, ADDR_OF_FATPTR, [v], w);
    var (r, w1) := Do(m, OCall(ADDR_OF_FATPTR), [v], w);
    DoCalls(f, m, ODeref, [m.convert(Pointer(t), m.convert(Pointer(Void), r))], w1);
  }

  lemma {:induction false} ProjectAllCallsNothing(f: CFunction, m: Machine, ts: seq<Typ>, vs: seq<Val>, w: World)
    requires |ts| == |vs| && (forall t :: t in ts ==> PrjError(t).None?) && IsForeign(f)
    ensures ForeignCalls(f, ProjectAll(m, ts, vs, w).1.trace) == ForeignCalls(f, w.trace)
    decreases |ts|
  {
    hide Project;
    hide ForeignCalls;
    hide PrjError;
    if ts != [] {
      assert ts[0] in ts;
      if HasNoArgument(ts[0]) { ProjectAllCallsNothing(f, m, ts[1..], vs[1..], w); } else {
        ProjectCallsNothing(f, m, ts[0], vs[0], w);
        ProjectAllCallsNothing(f, m, ts[1..], vs[1..], Project(m, ts[0], vs[0], w).1);
      }
    }
  }

  lemma InjectCallsNothing(f: CFunction, m: Machine, t: Typ, v: Val, w: World)
    requires InjError(t).None? && IsForeign(f)
    ensures ForeignCalls(f, Inject(m, t, v, w).1.trace) == ForeignCalls(f, w.trace)
  {
    hide PrimInj;
    hide ForeignCalls;
    PrjErrorStrip(t);
    match StripViews(t)
    case Void => DoCalls(f, m, OGlobal(VAL_UNIT), [], w);
    case Primitive(p) => DoCalls(f, m, OCall(PrimInj(p)), [m.convert(Primitive(p), v)], w);
    case Struct(_, spec, _) => DoCalls(f, m, OCall(COPY_BYTES), [AddrOf(v), CInt(spec.value.size)], w);
    case Union(_, spec, _) => DoCalls(f, m, OCall(COPY_BYTES), [AddrOf(v), CInt(spec.value.size)], w);
    case _ => DoCalls(f, m, OCall(FROM_PTR), [v], w);
  }

  lemma ForeignIsForeign(cfg: Config, ret: Typ)
    requires InjError(ret).None?
    ensures IsForeign(Foreign(cfg, ret))
  {
  }

  /** The end of a stub calls the foreign function exactly once, on the arguments given. */
  lemma CallsOnce(m: Machine, cfg: Config, cargs: seq<Val>, ret: Typ, w: World)
    requires InjError(ret).None?
    ensures var f := Foreign(cfg, ret);
            ForeignCalls(f, CallSpec(m, cfg, cargs, ret, w).1.trace) == ForeignCalls(f, w.trace) + [cargs]
  {
    hide ForeignCalls;
    hide Inject;
    hide InjError;
    var f := Foreign(cfg, ret);
    ForeignIsForeign(cfg, ret);
    var w0 := if cfg.errno.ReturnErrno? then w.(errno := CInt(0)) else w;
    DoCalls(f, m, OCall(RELEASE_RUNTIME), [], w0);
    var w1 := if cfg.unlocked then Do(m, OCall(RELEASE_RUNTIME), [], w0).1 else w0;
    DoCalls(f, m, OCall(f), cargs, w1);
    var (r, w2) := Do(m, OCall(f), cargs, w1);
    DoCalls(f, m, OCall(ACQUIRE_RUNTIME), [], w2);
    var w3 := if cfg.unlocked then Do(m, OCall(ACQUIRE_RUNTIME), [], w2).1 else w2;
    InjectCallsNothing(f, m, ret, m.convert(ret, r), w3);
    var (v, w4) := Inject(m, ret, m.convert(ret, r), w3);
    DoCalls(f, m, OCall(PAIR_WITH_ERRNO), [v], w4);
  }

  lemma StubCallsOnce(m: Machine, cfg: Config, ts: seq<Typ>, ret: Typ, args: seq<Val>, w: World)
    requires |args| == |ts| && NoErrors(ts, ret)
    ensures var f := Foreign(cfg, ret);
            var w0 := if cfg.unlocked then Do(m, ORoots, args, w).1 else w;
            ForeignCalls(f, StubSpec(m, cfg, ts, ret, args, w).1.trace) ==
              ForeignCalls(f, w.trace) + [ProjectAll(m, ts, args, w0).0]
  {
    hide ForeignCalls;
    hide CallSpec;
    hide ProjectAll;
    hide InjError;
    hide PrjError;
    var f := Foreign(cfg, ret);
    ForeignIsForeign(cfg, ret);
    DoCalls(f, m, ORoots, args, w);
    var w0 := if cfg.unlocked then Do(m, ORoots, args, w).1 else w;
    ProjectAllCallsNothing(f, m, ts, args, w0);
    var (cargs, w1) := ProjectAll(m, ts, args, w0);
    CallsOnce(m, cfg, cargs, ret, w1);
  }

  // ---- Direct stubs ----

  // Pairing with errno builds a pair.
  ghost predicate Pairs(m: Machine) {
    forall args: seq<Val>, w: World {:trigger m.run(OCall(PAIR_WITH_ERRNO), args, w)} ::
      var r := m.run(OCall(PAIR_WITH_ERRNO), args, w).v; r.Tuple? && |r.elems| == 2
  }

  lemma RepliesPaired(m: Machine, cfg: Config, ts: seq<Typ>, ret: Typ, args: seq<Val>, w: World)
    requires |args| == |ts| && NoErrors(ts, ret) && cfg.errno.ReturnErrno? && Pairs(m)
    ensures var v := StubSpec(m, cfg, ts, ret, args, w).0; v.Tuple? && |v.elems| == 2
  {
    hide ProjectAll;
    hide Inject;
    hide InjError;
    hide PrjError;
    hide CallSpec;
    var w0 := if cfg.unlocked then Do(m, ORoots, args, w).1 else w;
    var (cargs, w1) := ProjectAll(m, ts, args, w0);
    CallPaired(m, cfg, cargs, ret, w1);
  }

  lemma CallPaired(m: Machine, cfg: Config, cargs: seq<Val>, ret: Typ, w: World)
    requires InjError(ret).None? && cfg.errno.ReturnErrno? && Pairs(m)
    ensures var v := CallSpec(m, cfg, cargs, ret, w).0; v.Tuple? && |v.elems| == 2
  {
    forall c: Val, w3: World ensures var v := ResultSpec(m, cfg, ret, c, w3).0; v.Tuple? && |v.elems| == 2 {
      hide Inject;
      var (v, w4) := Inject(m, ret, c, w3);
      var r := m.run(OCall(PAIR_WITH_ERRNO), [v], w4).v;
      assert ResultSpec(m, cfg, ret, c, w3).0 == r;
    }
    hide ResultSpec;
    hide InjError;
  }

  // No operation but the call of `f` sets errno.
  ghost predicate OnlyCSetsErrno(m: Machine, f: CFunction) {
    forall op: Op, args: seq<Val>, w: World {:trigger m.run(op, args, w)} :: op != OCall(f) ==> m.run(op, args, w).errno == w.errno
  }

  lemma ErrnoKept(m: Machine, f: CFunction, op: Op, args: seq<Val>, w: World)
    requires OnlyCSetsErrno(m, f) && op != OCall(f)
    ensures Do(m, op, args, w).1.errno == w.errno
  {
  }

  lemma InjectKeepsErrno(m: Machine, f: CFunction, t: Typ, v: Val, w: World)
    requires InjError(t).None? && IsForeign(f) && OnlyCSetsErrno(m, f)
    ensures Inject(m, t, v, w).1.errno == w.errno
  {
    hide PrimInj;
    hide Do;
    hide OnlyCSetsErrno;
    PrjErrorStrip(t);
    match StripViews(t)
    case Void => ErrnoKept(m, f, OGlobal(VAL_UNIT), [], w);
    case Primitive(p) => ErrnoKept(m, f, OCall(PrimInj(p)), [m.convert(Primitive(p), v)], w);
    case Struct(_, spec, _) => ErrnoKept(m, f, OCall(COPY_BYTES), [AddrOf(v), CInt(spec.value.size)], w);
    case Union(_, spec, _) => ErrnoKept(m, f, OCall(COPY_BYTES), [AddrOf(v), CInt(spec.value.size)], w);
    case _ => ErrnoKept(m, f, OCall(FROM_PTR), [v], w);
  }

  // Whether the call at the end of `w` was made from `atCall`, and replied by pairing at `atPair`.
  ghost predicate PairedWithErrno(m: Machine, f: CFunction, cargs: seq<Val>, atCall: World, atPair: World, injected: Val, reply: Val, w: World) {
    && atCall.errno == CInt(0)
    && atPair.errno == m.run(OCall(f), cargs, atCall).errno
    && reply == m.run(OCall(PAIR_WITH_ERRNO), [injected], atPair).v
    && |atCall.trace| < |w.trace| && w.trace[|atCall.trace|].op == OCall(f) && w.trace[|atCall.trace|].args == cargs
    && w.trace == atPair.trace + [Event(OCall(PAIR_WITH_ERRNO), [injected], atPair.locked, atPair.slots, reply)]
  }

  lemma CallErrno(m: Machine, cfg: Config, cargs: seq<Val>, ret: Typ, w: World)
      returns (atCall: World, atPair: World, injected: Val)
    requires InjError(ret).None? && cfg.errno.ReturnErrno? && OnlyCSetsErrno(m, Foreign(cfg, ret))
    ensures var (v, w1) := CallSpec(m, cfg, cargs, ret, w);
            PairedWithErrno(m, Foreign(cfg, ret), cargs, atCall, atPair, injected, v, w1)
  {
    hide Inject;
    hide InjError;
    hide OnlyCSetsErrno;
    var f := Foreign(cfg, ret);
    ForeignIsForeign(cfg, ret);
    var w0 := w.(errno := CInt(0));
    ErrnoKept(m, f, OCall(RELEASE_RUNTIME), [], w0);
    atCall := if cfg.unlocked then Do(m, OCall(RELEASE_RUNTIME), [], w0).1 else w0;
    var (r, w2) := Do(m, OCall(f), cargs, atCall);
    ErrnoKept(m, f, OCall(ACQUIRE_RUNTIME), [], w2);
    var w3 := if cfg.unlocked then Do(m, OCall(ACQUIRE_RUNTIME), [], w2).1 else w2;
    InjectKeepsErrno(m, f, ret, m.convert(ret, r), w3);
    var added := InjectAdds(m, ret, m.convert(ret, r), w3);
    injected, atPair := Inject(m, ret, m.convert(ret, r), w3).0, Inject(m, ret, m.convert(ret, r), w3).1;
    assert atPair.trace == w3.trace + added;
  }

  lemma InjectAdds(m: Machine, t: Typ, v: Val, w: World) returns (added: seq<Event>)
    requires InjError(t).None?
    ensures Inject(m, t, v, w).1.trace == w.trace + added
  {
    hide PrimInj;
    added := Inject(m, t, v, w).1.trace[|w.trace|..];
  }

  /** When errno is to be returned, and only C sets it, what is paired with the result is
      the errno the C function left, and the function found it zero. */
  lemma ErrnoIsTheCalls(m: Machine, c: Concurrency, cname: string, stubName: string, f: Fn, n: nat, args: seq<Val>, w: World)
      returns (atCall: World, atPair: World, injected: Val)
    requires !c.LwtJobs? && Dispatch(c, ReturnErrno, cname, stubName, f, n).Ok? && |args| == |Params(f)| && KeepsValues(m)
    requires OnlyCSetsErrno(m, CFunction(cname, false, false, ReturnType(f)))
    ensures NoErrors(Params(f), ReturnType(f))
    ensures |Dispatch(c, ReturnErrno, cname, stubName, f, n).value.params| == |args|
    ensures var cfun := CFunction(cname, false, false, ReturnType(f));
            var w0 := if c.Sequential? then w else Do(m, ORoots, args, w).1;
            var (v, w1) := RunBody(m, Dispatch(c, ReturnErrno, cname, stubName, f, n).value, args, w);
            PairedWithErrno(m, cfun, ProjectAll(m, Params(f), args, w0).0, atCall, atPair, injected, v, w1)
  {
    hide Dispatch;
    hide RunBody;
    hide CallSpec;
    hide ProjectAll;
    hide Do;
    hide OnlyCSetsErrno;
    hide KeepsValues;
    StubRefinesSpec(m, c, ReturnErrno, cname, stubName, f, n, args, w);
    var cfg := Config(cname, !c.Sequential?, ReturnErrno);
    var w0 := if cfg.unlocked then Do(m, ORoots, args, w).1 else w;
    var (cargs, w1) := ProjectAll(m, Params(f), args, w0);
    atCall, atPair, injected := CallErrno(m, cfg, cargs, ReturnType(f), w1);
  }

  lemma ProjectKeepsErrno(m: Machine, f: CFunction, t: Typ, v: Val, w: World)
    requires PrjError(t).None? && !HasNoArgument(t) && IsForeign(f) && OnlyCSetsErrno(m, f)
    ensures Project(m, t, v, w).1.errno == w.errno
  {
    hide PrimPrj;
    hide InteriorPointer;
    hide Do;
    hide OnlyCSetsErrno;
    hide ProjectStructured;
    PrjErrorStrip(t);
    match StripViews(t)
    case Primitive(p) => ErrnoKept(m, f, OCall(PrimPrj(p)), [v], w);
    case Struct(_, _, _) => StructuredKeepsErrno(m, f, t, v, w);
    case Union(_, _, _) => StructuredKeepsErrno(m, f, t, v, w);
    case OCaml(k) => InteriorReads(k); ErrnoKept(m, f, OCall(InteriorPointer(k)), [v], w);
    case _ => ErrnoKept(m, f, OCall(ADDR_OF_FATPTR), [v], w);
  }

  lemma StructuredKeepsErrno(m: Machine, f: CFunction, t: Typ, v: Val, w: World)
    requires IsForeign(f) && OnlyCSetsErrno(m, f)
    ensures ProjectStructured(m, t, v, w).1.errno == w.errno
  {
    hide Do;
    hide OnlyCSetsErrno;
    ErrnoKept(m, f, OCall(ADDR_OF_FATPTR), [v], w);
    var (r, w1) := Do(m, OCall(ADDR_OF_FATPTR), [v], w);
    ErrnoKept(m, f, ODeref, [m.convert(Pointer(t), m.convert(Pointer(Void), r))], w1);
  }

  lemma {:induction false} ProjectAllKeepsErrno(m: Machine, f: CFunction, ts: seq<Typ>, vs: seq<Val>, w: World)
    requires |ts| == |vs| && (forall t :: t in ts ==> PrjError(t).None?) && IsForeign(f) && OnlyCSetsErrno(m, f)
    ensures ProjectAll(m, ts, vs, w).1.errno == w.errno
    decreases |ts|
  {
    hide Project;
    hide PrjError;
    hide OnlyCSetsErrno;
    if ts != [] {
      assert ts[0] in ts;
      if HasNoArgument(ts[0]) { ProjectAllKeepsErrno(m, f, ts[1..], vs[1..], w); } else {
        ProjectKeepsErrno(m, f, ts[0], vs[0], w);
        ProjectAllKeepsErrno(m, f, ts[1..], vs[1..], Project(m, ts[0], vs[0], w).1);
      }
    }
  }

  /** When errno is not to be returned, and only C sets it, the C function finds the errno
      there was before the stub, and what it leaves is there after it. */
  lemma ErrnoLeftAlone(m: Machine, c: Concurrency, cname: string, stubName: string, f: Fn, n: nat, args: seq<Val>, w: World)
      returns (atCall: World)
    requires !c.LwtJobs? && Dispatch(c, IgnoreErrno, cname, stubName, f, n).Ok? && |args| == |Params(f)| && KeepsValues(m)
    requires OnlyCSetsErrno(m, CFunction(cname, false, false, ReturnType(f)))
    ensures NoErrors(Params(f), ReturnType(f))
    ensures |Dispatch(c, IgnoreErrno, cname, stubName, f, n).value.params| == |args|
    ensures var cfun := CFunction(cname, false, false, ReturnType(f));
            var w0 := if c.Sequential? then w else Do(m, ORoots, args, w).1;
            var w1 := RunBody(m, Dispatch(c, IgnoreErrno, cname, stubName, f, n).value, args, w).1;
            && atCall.errno == w.errno && w1.errno == m.run(OCall(cfun), ProjectAll(m, Params(f), args, w0).0, atCall).errno
            && |atCall.trace| < |w1.trace| && w1.trace[|atCall.trace|].op == OCall(cfun)
  {
    hide Dispatch;
    hide RunBody;
    hide CallSpec;
    hide ProjectAll;
    hide Do;
    hide OnlyCSetsErrno;
    hide KeepsValues;
    StubRefinesSpec(m, c, IgnoreErrno, cname, stubName, f, n, args, w);
    var cfg, cfun := Config(cname, !c.Sequential?, IgnoreErrno), CFunction(cname, false, false, ReturnType(f));
    var w0 := if cfg.unlocked then Do(m, ORoots, args, w).1 else w;
    ErrnoKept(m, cfun, ORoots, args, w);
    ForeignIsForeign(cfg, ReturnType(f));
    ProjectAllKeepsErrno(m, cfun, Params(f), args, w0);
    var (cargs, w1) := ProjectAll(m, Params(f), args, w0);
    atCall := PlainCallErrno(m, cfg, cargs, ReturnType(f), w1);
  }

  lemma PlainCallErrno(m: Machine, cfg: Config, cargs: seq<Val>, ret: Typ, w: World) returns (atCall: World)
    requires InjError(ret).None? && cfg.errno.IgnoreErrno? && OnlyCSetsErrno(m, Foreign(cfg, ret))
    ensures var f := Foreign(cfg, ret); var w1 := CallSpec(m, cfg, cargs, ret, w).1;
            && atCall.errno == w.errno && w1.errno == m.run(OCall(f), cargs, atCall).errno
            && |atCall.trace| < |w1.trace| && w1.trace[|atCall.trace|].op == OCall(f)
  {
    hide Inject;
    hide InjError;
    hide OnlyCSetsErrno;
    var f := Foreign(cfg, ret);
    ForeignIsForeign(cfg, ret);
    ErrnoKept(m, f, OCall(RELEASE_RUNTIME), [], w);
    atCall := if cfg.unlocked then Do(m, OCall(RELEASE_RUNTIME), [], w).1 else w;
    var (r, w2) := Do(m, OCall(f), cargs, atCall);
    ErrnoKept(m, f, OCall(ACQUIRE_RUNTIME), [], w2);
    var w3 := if cfg.unlocked then Do(m, OCall(ACQUIRE_RUNTIME), [], w2).1 else w2;
    InjectKeepsErrno(m, f, ret, m.convert(ret, r), w3);
    var added := InjectAdds(m, ret, m.convert(ret, r), w3);
  }

  lemma StubRepliesFit(p: Surroundings, c: Concurrency, errno: ErrnoPolicy, cname: string, stubName: string, f: Fn, n: nat)
    requires !c.LwtJobs? && Dispatch(c, errno, cname, stubName, f, n).Ok?
    requires KeepsValues(p.c) && (errno.ReturnErrno? ==> Pairs(p.c))
    ensures RepliesFit(Linked(p, Dispatch(c, errno, cname, stubName, f, n).value), errno.ReturnErrno?)
  {
    hide Dispatch;
    hide RunBody;
    hide StubSpec;
    hide NoErrors;
    hide FirstError;
    var d := Dispatch(c, errno, cname, stubName, f, n).value;
    if errno.ReturnErrno? {
      forall args: seq<Val>, w: World | |args| == |d.params|
        ensures var r := Linked(p, d).ext(args, w).0; r.Tuple? && |r.elems| == 2
      {
        DispatchedParams(c, errno, cname, stubName, f, n);
        StubRefinesSpec(p.c, c, errno, cname, stubName, f, n, args, w);
        RepliesPaired(p.c, Config(cname, !c.Sequential?, errno), Params(f), ReturnType(f), args, w);
      }
    }
  }

  lemma DispatchedParams(c: Concurrency, errno: ErrnoPolicy, cname: string, stubName: string, f: Fn, n: nat)
    requires !c.LwtJobs? && Dispatch(c, errno, cname, stubName, f, n).Ok?
    ensures Dispatch(c, errno, cname, stubName, f, n).value.name == stubName
    ensures |Dispatch(c, errno, cname, stubName, f, n).value.params| == |Params(f)|
    ensures FirstError(Params(f), ReturnType(f)).None?
  {
    hide FirstError;
    hide Body;
  }

  /** The whole path of a call, for every supported description, arbitrarily nested
      views and every policy that calls C directly: whenever the stub is generated so is
      the wrapper, and applying the wrapper lowers the arguments, projects them, calls
      the C function once on the non-void ones in order, injects its result and raises
      it, with errno if the policy says so; views' write functions run once each. */
  lemma CallThroughBothSides(p: Surroundings, c: Concurrency, errno: ErrnoPolicy, cname: string, stubName: string,
                             f: Fn, n: nat, k: nat, args: seq<Val>, s: State)
    requires !c.LwtJobs? && Dispatch(c, errno, cname, stubName, f, n).Ok? && f.Function? && KeepsValues(p.c)
    requires errno.ReturnErrno? ==> Pairs(p.c)
    requires var h := Linked(p, Dispatch(c, errno, cname, stubName, f, n).value); FitsAll(h, f, args)
    ensures Wrappable(f, In) && NoErrors(Params(f), ReturnType(f))
    ensures var h := Linked(p, Dispatch(c, errno, cname, stubName, f, n).value);
            var cfun := CFunction(cname, false, false, ReturnType(f));
            var (pat, exp) := WrapperFor(errno.ReturnErrno?, f, In, k);
            var lowered := LowerAll(h, f, args);
            |lowered| == |Params(f)| &&
            var (v, w1) := StubSpec(p.c, Config(cname, !c.Sequential?, errno), Params(f), ReturnType(f), lowered, s.w);
            var w0 := if c.Sequential? then s.w else Do(p.c, ORoots, lowered, s.w).1;
            && (errno.ReturnErrno? ==> v.Tuple? && |v.elems| == 2)
            && MatchFn(pat, f).Some?
            && RunWrapper(h, exp, MatchFn(pat, f).value, args, s) ==
               (RaiseResult(h, errno.ReturnErrno?, ReturnType(f), v), State(w1, s.created, s.writes + AllViews(f)))
            && ForeignCalls(cfun, w1.trace) == ForeignCalls(cfun, s.w.trace) + [ProjectAll(p.c, Params(f), lowered, w0).0]
  {
    hide Dispatch;
    hide StubSpec;
    hide WrapperFor;
    hide RunWrapper;
    hide ForeignCalls;
    hide RunBody;
    hide LowerAll;
    hide FitsAll;
    hide MatchFn;
    hide ProjectAll;
    hide FirstError;
    hide NoErrors;
    hide Do;
    var d := Dispatch(c, errno, cname, stubName, f, n).value;
    var h := Linked(p, d);
    DispatchedParams(c, errno, cname, stubName, f, n);
    WrapperWheneverStub(f);
    FitsCount(h, f, args);
    StubRepliesFit(p, c, errno, cname, stubName, f, n);
    WrapperCorrect(h, errno.ReturnErrno?, f, k, args, s);
    var lowered := LowerAll(h, f, args);
    StubRefinesSpec(p.c, c, errno, cname, stubName, f, n, lowered, s.w);
    StubCallsOnce(p.c, Config(cname, !c.Sequential?, errno), Params(f), ReturnType(f), lowered, s.w);
    if errno.ReturnErrno? {
      RepliesPaired(p.c, Config(cname, !c.Sequential?, errno), Params(f), ReturnType(f), lowered, s.w);
    }
  }

  // ---- Stubs with return buffers ----

  lemma ByteBuffersFit(sizes: seq<nat>)
    requires sizes != []
    ensures Bufferable(ByteBuffers(sizes)) && |BufTypes(ByteBuffers(sizes))| == |sizes|
    ensures forall t :: t in BufTypes(ByteBuffers(sizes)) ==> t == BYTES
  {
  }

  lemma ArgumentsSupported(ts: seq<Typ>, ret: Typ)
    requires (forall t :: t in ts ==> PrjError(t).None?) && InjError(ret).None?
    ensures Supported(ts, ret)
  {
    hide PrjError;
    hide PatError;
    ResultsRaisable(ret);
    forall t | t in ts ensures PatError(t, In).None? { SameArguments(t); }
  }

  lemma {:induction false} NoResultConversion(h: Host, t: Typ, v: Val)
    requires !Converted(t)
    ensures Raise(h, t, v) == v
  {
  }

  // The stub of a description with byte buffers, for the errno policy given.
  function BufStub(errno: ErrnoPolicy, cname: string, stubName: string, ts: seq<Typ>, pos: CPosition, sizes: seq<nat>, ret: Typ, n: nat): Result<CFundef>
    requires sizes != []
  {
    GenerateBuf(errno, cname, stubName, Describe(ts, pos, sizes, ret), n)
  }

  lemma BufStubRuns(m: Machine, errno: ErrnoPolicy, cname: string, stubName: string, ts: seq<Typ>, pos: CPosition,
                    sizes: seq<nat>, ret: Typ, n: nat, args: seq<Val>, bufs: seq<Val>, w: World)
    requires sizes != [] && InjError(ret).None? && (forall t :: t in ts ==> PrjError(t).None?)
    requires |args| == |ts| && |bufs| == |sizes| && KeepsValues(m)
    ensures var d := BufStub(errno, cname, stubName, ts, pos, sizes, ret, n);
            var f := CFunction(cname, false, false, ret);
            && d.Ok? && |d.value.params| == |ts| + |sizes|
            && (forall t :: t in BufTypes(ByteBuffers(sizes)) ==> PrjError(t).None?)
            && var (cargs, w1) := ProjectAll(m, ts, args, w);
            var (starts, w2) := ProjectAll(m, BufTypes(ByteBuffers(sizes)), bufs, w1);
            var r := RunBody(m, d.value, args + bufs, w);
            && r == CallSpec(m, Config(cname, false, errno), PlaceValues(pos, cargs, starts), ret, w2)
            && ForeignCalls(f, r.1.trace) == ForeignCalls(f, w.trace) + [PlaceValues(pos, cargs, starts)]
  {
    hide RunBody;
    hide CallSpec;
    hide ProjectAll;
    hide ForeignCalls;
    hide PrjError;
    hide InjError;
    hide GenerateBuf;
    hide RetBuf;
    hide Nested;
    hide PlaceValues;
    hide Bufferable;
    var cfg := Config(cname, false, errno);
    var f := Foreign(cfg, ret);
    ForeignIsForeign(cfg, ret);
    ByteBuffersFit(sizes);
    BufStubCall(m, errno, cname, stubName, ts, pos, ByteBuffers(sizes), ret, n, args, bufs, w);
    ProjectAllCallsNothing(f, m, ts, args, w);
    var (cargs, w1) := ProjectAll(m, ts, args, w);
    ProjectAllCallsNothing(f, m, BufTypes(ByteBuffers(sizes)), bufs, w1);
    var (starts, w2) := ProjectAll(m, BufTypes(ByteBuffers(sizes)), bufs, w1);
    CallsOnce(m, cfg, PlaceValues(pos, cargs, starts), ret, w2);
  }

  // The byte blocks a value holds or refers to, anywhere inside.
  function Blocks(v: Val): set<nat> {
    match v
    case BytesBlock(id, _) => {id}
    case AddrOf(c) => Blocks(c)
    case Tuple(elems) => set e, i | e in elems && i in Blocks(e) :: i
    case Fat(_, addr) => Blocks(addr)
    case FatFun(_, addr) => Blocks(addr)
    case CPointer(fat) => Blocks(fat)
    case StaticFunptr(fat) => Blocks(fat)
    case Structured(ptr) => Blocks(ptr)
    case OCamlRef(_, obj, _) => Blocks(obj)
    case Applied(_, args) => set e, i | e in args && i in Blocks(e) :: i
    case _ => {}
  }

  // Every block there is has been counted.
  ghost predicate Older(v: Val, created: nat) { forall i :: i in Blocks(v) ==> i < created }

  ghost predicate WorldOlder(w: World, created: nat) {
    && Older(w.errno, created) && (forall k :: k in w.slots ==> Older(w.slots[k], created))
    && forall e :: e in w.trace ==> Older(e.reply, created) && forall a :: a in e.args ==> Older(a, created)
  }

  /** The buffers of one call are of their declared lengths and all different, and when the
      blocks made so far have been counted, none is any argument, occurs inside one, or has
      been seen by C or held in a slot before. */
  lemma BuffersAreNew(created: nat, sizes: seq<nat>, args: seq<Val>, w: World, i: nat)
    requires i < |sizes| && (forall a :: a in args ==> Older(a, created)) && WorldOlder(w, created)
    ensures var b := NewBuffers(created, sizes);
            && b[i].BytesBlock? && b[i].length == sizes[i]
            && (forall j :: 0 <= j < |sizes| && j != i ==> b[j] != b[i])
            && (forall a :: a in args ==> a != b[i] && b[i].id !in Blocks(a))
            && (forall k :: k in w.slots ==> b[i].id !in Blocks(w.slots[k]))
            && forall e :: e in w.trace ==> b[i].id !in Blocks(e.reply) && forall a :: a in e.args ==> b[i].id !in Blocks(a)
  {
    var b := NewBuffers(created, sizes)[i];
    assert b.BytesBlock? && b.id >= created && b.id in Blocks(b);
  }

  /** What a call with return buffers is for: argument values already lowered, the
      buffers new. The C function sees arguments and buffers each in declaration order,
      void erased, placed as the position says. */
  datatype BufferedCall = BufferedCall(passed: seq<Val>, v: Val, w: World)

  function CallWithBuffers(m: Machine, errno: ErrnoPolicy, cname: string, ts: seq<Typ>, pos: CPosition, bufs: seq<Val>, ret: Typ,
                           lowered: seq<Val>, w: World): BufferedCall
    requires |lowered| == |ts| && InjError(ret).None? && forall t :: t in ts ==> PrjError(t).None?
  {
    var bts := seq(|bufs|, _ => BYTES);
    var (cargs, w1) := ProjectAll(m, ts, lowered, w);
    var (starts, w2) := ProjectAll(m, bts, StartsOf(bufs), w1);
    var passed := PlaceValues(pos, cargs, starts);
    var (v, w3) := CallSpec(m, Config(cname, false, errno), passed, ret, w2);
    BufferedCall(passed, v, w3)
  }

  /** Which argument of the foreign call is which: at First the buffers' addresses come
      before the projected arguments, at Last after them, each in declaration order. */
  predicate InPlace(m: Machine, ts: seq<Typ>, pos: CPosition, bufs: seq<Val>, lowered: seq<Val>, w: World, passed: seq<Val>)
    requires |lowered| == |ts| && forall t :: t in ts ==> PrjError(t).None?
  {
    var (cargs, w1) := ProjectAll(m, ts, lowered, w);
    var starts := ProjectAll(m, seq(|bufs|, _ => BYTES), StartsOf(bufs), w1).0;
    && |passed| == |cargs| + |starts|
    && (pos.First? ==> forall i :: 0 <= i < |starts| ==> passed[i] == starts[i])
    && (pos.First? ==> forall i :: 0 <= i < |cargs| ==> passed[|starts| + i] == cargs[i])
    && (pos.Last? ==> forall i :: 0 <= i < |cargs| ==> passed[i] == cargs[i])
    && (pos.Last? ==> forall i :: 0 <= i < |starts| ==> passed[|cargs| + i] == starts[i])
  }

  lemma BuffersPlaced(m: Machine, errno: ErrnoPolicy, cname: string, ts: seq<Typ>, pos: CPosition, bufs: seq<Val>, ret: Typ,
                      lowered: seq<Val>, w: World)
    requires |lowered| == |ts| && InjError(ret).None? && forall t :: t in ts ==> PrjError(t).None?
    ensures InPlace(m, ts, pos, bufs, lowered, w, CallWithBuffers(m, errno, cname, ts, pos, bufs, ret, lowered, w).passed)
  {
    hide ProjectAll;
    hide CallSpec;
    hide PrjError;
    hide InjError;
    hide PlaceValues;
  }

  lemma BufStubCalls(m: Machine, errno: ErrnoPolicy, cname: string, stubName: string, ts: seq<Typ>, pos: CPosition,
                     sizes: seq<nat>, ret: Typ, n: nat, args: seq<Val>, bufs: seq<Val>, w: World)
    requires sizes != [] && InjError(ret).None? && (forall t :: t in ts ==> PrjError(t).None?)
    requires |args| == |ts| && |bufs| == |sizes| && KeepsValues(m)
    ensures var d := BufStub(errno, cname, stubName, ts, pos, sizes, ret, n);
            var f := CFunction(cname, false, false, ret);
            var c := CallWithBuffers(m, errno, cname, ts, pos, bufs, ret, args, w);
            && d.Ok? && |d.value.params| == |ts| + |sizes|
            && RunBody(m, d.value, args + StartsOf(bufs), w) == (c.v, c.w)
            && ForeignCalls(f, c.w.trace) == ForeignCalls(f, w.trace) + [c.passed]
  {
    hide RunBody;
    hide CallSpec;
    hide ProjectAll;
    hide ForeignCalls;
    hide PrjError;
    hide InjError;
    hide BufStub;
    hide PlaceValues;
    BufStubRuns(m, errno, cname, stubName, ts, pos, sizes, ret, n, args, StartsOf(bufs), w);
    assert BufTypes(ByteBuffers(sizes)) == seq(|bufs|, _ => BYTES);
  }

  /** The whole path of a call with return buffers: for every list of supported
      arguments, every non-empty list of right-nested byte buffers, either position and
      either errno policy, the wrapper over the generated stub creates each buffer afresh
      at its declared length, calls the C function exactly once, and returns the buffers in
      the description's nesting paired with the stub's reply as it comes, which needs no
      raising for a result that is not converted. */
  lemma BuffersThroughBothSides(p: Surroundings, errno: ErrnoPolicy, cname: string, stubName: string, ts: seq<Typ>, pos: CPosition,
                                sizes: seq<nat>, ret: Typ, n: nat, k: nat, d: CFundef, h: Host, args: seq<Val>, s: State)
    requires sizes != [] && InjError(ret).None? && forall t :: t in ts ==> PrjError(t).None?
    requires KeepsValues(p.c) && BufStub(errno, cname, stubName, ts, pos, sizes, ret, n) == Ok(d)
    requires h == Linked(p, d) && FitsAll(h, Chain(ts), args)
    ensures BufWrappable(Describe(ts, pos, sizes, ret)) && |args| == |ts|
    ensures var f := Describe(ts, pos, sizes, ret);
            var (pat, exp) := BufWrapperFor(f, k);
            var bufs := NewBuffers(s.created, sizes);
            && |LowerAll(h, Chain(ts), args)| == |ts|
            && var c := CallWithBuffers(p.c, errno, cname, ts, pos, bufs, ret, LowerAll(h, Chain(ts), args), s.w);
            && MatchBufFn(pat, f).Some?
            && (!Converted(ret) ==> Raise(h, ret, c.v) == c.v)
            && RunWrapper(h, exp, MatchBufFn(pat, f).value, args, s) ==
               (Tuple([NestPairs(bufs), c.v]), Created(s, AllViews(Chain(ts)), |sizes|).(w := c.w))
            && ForeignCalls(CFunction(cname, false, false, ret), c.w.trace) ==
               ForeignCalls(CFunction(cname, false, false, ret), s.w.trace) + [c.passed]
    ensures InPlace(p.c, ts, pos, NewBuffers(s.created, sizes), LowerAll(h, Chain(ts), args), s.w,
                    CallWithBuffers(p.c, errno, cname, ts, pos, NewBuffers(s.created, sizes), ret, LowerAll(h, Chain(ts), args), s.w).passed)
  {
    hide RunBody;
    hide InPlace;
    hide CallWithBuffers;
    hide ForeignCalls;
    hide PrjError;
    hide InjError;
    hide BufStub;
    hide Describe;
    hide BufWrapperFor;
    hide RunWrapper;
    hide MatchBufFn;
    hide LowerAll;
    hide FitsAll;
    hide NestPairs;
    hide BufWrappable;
    hide Raise;
    hide AllViews;
    hide Supported;
    hide Chain;
    ArgumentsSupported(ts, ret);
    FitsCount(h, Chain(ts), args);
    var lowered, bufs := LowerAll(h, Chain(ts), args), NewBuffers(s.created, sizes);
    BufStubCalls(p.c, errno, cname, stubName, ts, pos, sizes, ret, n, lowered, bufs, s.w);
    BufWrapperCorrect(h, ts, pos, sizes, ret, k, args, s);
    BuffersPlaced(p.c, errno, cname, ts, pos, bufs, ret, lowered, s.w);
    if !Converted(ret) { NoResultConversion(h, ret, RunBody(p.c, d, lowered + StartsOf(bufs), s.w).0); }
  }

  lemma BufStubGenerates(errno: ErrnoPolicy, cname: string, stubName: string, ts: seq<Typ>, pos: CPosition, sizes: seq<nat>, ret: Typ, n: nat)
    requires sizes != [] && InjError(ret).None? && forall t :: t in ts ==> PrjError(t).None?
    ensures BufStub(errno, cname, stubName, ts, pos, sizes, ret, n).Ok?
  {
    hide BufStub;
    hide PrjError;
    hide InjError;
    var m := Machine((op: Op, args: seq<Val>, w: World) => Reply(UnitVal, UnitVal), (t: Typ, v: Val) => v);
    BufStubRuns(m, errno, cname, stubName, ts, pos, sizes, ret, n, seq(|ts|, _ => UnitVal), seq(|sizes|, _ => UnitVal),
      World([], UnitVal, map[], true, 0));
  }
}

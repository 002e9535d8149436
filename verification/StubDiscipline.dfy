/** What every generated stub keeps: the runtime-lock discipline and the absence of
    collections between reading an interior pointer and using it
    (src/cstubs/cstubs_generate_c.ml:187-250, 536-544; ctypes_static.ml:176-192). */
module StubDiscipline {
  import opened CtypesStatic
  import opened CLanguage
  import opened LetFloat
  import opened Projections
  import opened CStub

  predicate Allocates(op: Op) {
    op.OCall? && op.f.allocates
  }

  // Operations that look at or change OCaml's heap or its root lists.
  predicate TouchesHeap(op: Op) {
    match op
    case OCall(f) => (f.allocates || f.readsHeap) && !IsAcquire(op) && !IsRelease(op)
    case OGlobal(g) => g.onHeap
    case OIndex => true
    case ORoots => true
    case OParam0 => true
    case OLocalN => true
    case ODrop => true
    case _ => false
  }

  predicate LockOp(op: Op) { IsAcquire(op) || IsRelease(op) }

  predicate TakesInteriorPointer(op: Op) {
    && op.OCall? && op.f.readsHeap && !op.f.allocates && op.f.ret == Pointer(Void)
    && (op.f == InteriorPointer(OString) || op.f == InteriorPointer(OBytes) || op.f == InteriorPointer(OFloatArray))
  }

  /** Events added between two worlds. */
  predicate Extends(w: World, w1: World, added: seq<Event>) {
    w1.trace == w.trace + added
  }

  // Every event happened with the lock in the given state and is no lock operation.
  predicate Steady(added: seq<Event>, locked: bool) {
    forall i :: 0 <= i < |added| ==> added[i].locked == locked && !LockOp(added[i].op)
  }

  predicate NoAllocation(added: seq<Event>) {
    forall i :: 0 <= i < |added| ==> !Allocates(added[i].op)
  }

  predicate NoInteriorPointer(added: seq<Event>) {
    forall i :: 0 <= i < |added| ==> !TakesInteriorPointer(added[i].op)
  }

  /** Projecting an argument only reads: nothing is allocated, the lock stays put, and
      an interior pointer is taken only for an OCaml reference. */
  lemma ProjectReads(m: Machine, t: Typ, v: Val, w: World) returns (added: seq<Event>)
    requires PrjError(t).None? && !HasNoArgument(t)
    ensures var w1 := Project(m, t, v, w).1;
            && Extends(w, w1, added) && Steady(added, w.locked) && NoAllocation(added) && w1.locked == w.locked && w1.roots == w.roots
            && (!OCamlValue(t) ==> NoInteriorPointer(added))
  {
    hide PrimPrj;
    OCamlValueStrip(t);
    match StripViews(t)
    case Primitive(p) => added := OneCall(m, PrimPrj(p), [v], w);
    case Struct(_, _, _) => added := StructuredReads(m, t, v, w);
    case Union(_, _, _) => added := StructuredReads(m, t, v, w);
    case OCaml(k) => added := OneCall(m, InteriorPointer(k), [v], w);
    case _ =>
      FatPointerIsNotInterior();
      added := OneCall(m, ADDR_OF_FATPTR, [v], w);
  }

  lemma OneCall(m: Machine, f: CFunction, args: seq<Val>, w: World) returns (added: seq<Event>)
    requires f.ret != Void
    ensures var w1 := Do(m, OCall(f), args, w).1;
            && Extends(w, w1, added) && Steady(added, w.locked) && w1.locked == w.locked && w1.roots == w.roots
            && (!f.allocates ==> NoAllocation(added))
            && (!TakesInteriorPointer(OCall(f)) ==> NoInteriorPointer(added))
  {
    added := [Event(OCall(f), args, w.locked, w.slots, Do(m, OCall(f), args, w).0)];
  }

  lemma OneGlobal(m: Machine, g: CGlobal, w: World) returns (added: seq<Event>)
    ensures var w1 := Do(m, OGlobal(g), [], w).1;
            && Extends(w, w1, added) && Steady(added, w.locked) && w1.locked == w.locked && w1.roots == w.roots
            && NoInteriorPointer(added)
  {
    added := [Event(OGlobal(g), [], w.locked, w.slots, Do(m, OGlobal(g), [], w).0)];
  }

  lemma FatPointerIsNotInterior()
    ensures !TakesInteriorPointer(OCall(ADDR_OF_FATPTR))
  {
    var s := "CTYPES_ADDR_OF_FATPTR";
    assert s[7] == 'A';
    assert "CTYPES_PTR_OF_OCAML_STRING"[7] == 'P' && "CTYPES_PTR_OF_OCAML_BYTES"[7] == 'P' && "CTYPES_PTR_OF_FLOAT_ARRAY"[7] == 'P';
  }

  lemma StructuredReads(m: Machine, t: Typ, v: Val, w: World) returns (added: seq<Event>)
    ensures var w1 := ProjectStructured(m, t, v, w).1;
            && Extends(w, w1, added) && Steady(added, w.locked) && NoAllocation(added) && w1.locked == w.locked && w1.roots == w.roots
            && NoInteriorPointer(added)
  {
    FatPointerIsNotInterior();
    var (r, w1) := Do(m, OCall(ADDR_OF_FATPTR), [v], w);
    var a := [m.convert(Pointer(t), m.convert(Pointer(Void), r))];
    var (d, w2) := Do(m, ODeref, a, w1);
    var e1 := Event(OCall(ADDR_OF_FATPTR), [v], w.locked, w.slots, r);
    var e2 := Event(ODeref, a, w1.locked, w1.slots, d);
    added := [e1] + [e2];
    assert w2.trace == w.trace + [e1] + [e2];
    assert w.trace + [e1] + [e2] == w.trace + added;
  }

  lemma {:induction false} OCamlValueStrip(t: Typ)
    ensures OCamlValue(t) <==> StripViews(t).OCaml?
  {
    match t case View(_, ty) => OCamlValueStrip(ty); case _ =>
  }

  lemma {:induction false} ProjectAllReads(m: Machine, ts: seq<Typ>, vs: seq<Val>, w: World) returns (added: seq<Event>)
    requires |ts| == |vs| && forall t :: t in ts ==> PrjError(t).None?
    ensures var w1 := ProjectAll(m, ts, vs, w).1;
            && Extends(w, w1, added) && Steady(added, w.locked) && NoAllocation(added) && w1.locked == w.locked && w1.roots == w.roots
            && ((forall t :: t in ts ==> !OCamlValue(t)) ==> NoInteriorPointer(added))
    decreases |ts|
  {
    if ts == [] {
      added := [];
      assert w.trace + [] == w.trace;
    } else if HasNoArgument(ts[0]) {
      added := ProjectAllReads(m, ts[1..], vs[1..], w);
    } else {
      assert ts[0] in ts;
      var first := ProjectReads(m, ts[0], vs[0], w);
      var w1 := Project(m, ts[0], vs[0], w).1;
      var rest := ProjectAllReads(m, ts[1..], vs[1..], w1);
      added := first + rest;
      assert w.trace + first + rest == w.trace + added;
    }
  }

  /** Injecting a result happens under the lock if it starts there. */
  lemma InjectSteady(m: Machine, t: Typ, v: Val, w: World) returns (added: seq<Event>)
    requires InjError(t).None?
    ensures var w1 := Inject(m, t, v, w).1;
            Extends(w, w1, added) && Steady(added, w.locked) && w1.locked == w.locked && w1.roots == w.roots && NoInteriorPointer(added)
  {
    hide PrimInj;
    hide Do;
    hide Steady;
    hide NoInteriorPointer;
    hide NoAllocation;
    PrjErrorStrip(t);
    match StripViews(t)
    case Void => added := OneGlobal(m, VAL_UNIT, w);
    case Primitive(p) => added := OneCall(m, PrimInj(p), [m.convert(Primitive(p), v)], w);
    case Struct(_, spec, _) => added := OneCall(m, COPY_BYTES, [AddrOf(v), CInt(spec.value.size)], w);
    case Union(_, spec, _) => added := OneCall(m, COPY_BYTES, [AddrOf(v), CInt(spec.value.size)], w);
    case _ => added := OneCall(m, FROM_PTR, [v], w);
  }

  /** The stub lets go of the lock for the foreign call alone: the lock is released,
      the call follows at once, the lock is taken back at once, and everything else
      happens under the lock. */
  ghost predicate ReleasedOnlyForTheCall(added: seq<Event>, call: CFunction) {
    exists i {:trigger ReleaseAt(added, call, i)} :: ReleaseAt(added, call, i)
  }

  predicate ReleaseAt(added: seq<Event>, call: CFunction, i: int) {
    && 0 <= i && i + 2 < |added|
    && IsRelease(added[i].op) && added[i].locked
    && added[i + 1].op == OCall(call) && !added[i + 1].locked
    && IsAcquire(added[i + 2].op) && !added[i + 2].locked
    && forall j :: 0 <= j < |added| && !(i <= j <= i + 2) ==> added[j].locked && !LockOp(added[j].op)
  }

  lemma PairReadsNothing()
    ensures !TakesInteriorPointer(OCall(PAIR_WITH_ERRNO)) && PAIR_WITH_ERRNO.ret != Void
  {
  }

  // What happens to the result: injection, then pairing with errno if asked for.
  lemma {:induction false} ResultSteady(m: Machine, cfg: Config, ret: Typ, c: Val, w: World) returns (added: seq<Event>)
    requires InjError(ret).None?
    ensures var w1 := ResultSpec(m, cfg, ret, c, w).1;
            Extends(w, w1, added) && Steady(added, w.locked) && w1.locked == w.locked && w1.roots == w.roots && NoInteriorPointer(added)
  {
    hide Inject;
    hide TakesInteriorPointer;
    hide LockOp;
    hide Do;
    hide InjError;
    hide NoInteriorPointer;
    hide Steady;
    PairReadsNothing();
    var inj := InjectSteady(m, ret, c, w);
    var (v, w1) := Inject(m, ret, c, w);
    added := inj;
    if cfg.errno.ReturnErrno? {
      var pair := OneCall(m, PAIR_WITH_ERRNO, [v], w1);
      added := SteadyJoin(w, w1, Do(m, OCall(PAIR_WITH_ERRNO), [v], w1).1, inj, pair, w.locked);
    }
  }

  lemma SteadyJoin(w: World, w1: World, w2: World, a: seq<Event>, b: seq<Event>, locked: bool) returns (added: seq<Event>)
    requires Extends(w, w1, a) && Extends(w1, w2, b) && Steady(a, locked) && Steady(b, locked)
    ensures added == a + b && Extends(w, w2, added) && Steady(added, locked)
    ensures NoAllocation(a) && NoAllocation(b) ==> NoAllocation(added)
    ensures NoInteriorPointer(a) && NoInteriorPointer(b) ==> NoInteriorPointer(added)
  {
    added := a + b;
    assert w.trace + a + b == w.trace + added;
  }

  lemma ReleasedCall(m: Machine, f: CFunction, cargs: seq<Val>, w: World) returns (core: seq<Event>)
    requires !f.allocates && !f.readsHeap && w.locked
    ensures var w1 := Do(m, OCall(RELEASE_RUNTIME), [], w).1;
            var w2 := Do(m, OCall(f), cargs, w1).1;
            var w3 := Do(m, OCall(ACQUIRE_RUNTIME), [], w2).1;
            && Extends(w, w3, core) && w3.locked && w3.roots == w.roots && |core| == 3
            && IsRelease(core[0].op) && core[0].locked && core[1].op == OCall(f) && !core[1].locked
            && IsAcquire(core[2].op) && !core[2].locked && NoInteriorPointer(core)
  {
    AcquireIsNotRelease();
    var (u, w1) := Do(m, OCall(RELEASE_RUNTIME), [], w);
    var (r, w2) := Do(m, OCall(f), cargs, w1);
    var (u2, w3) := Do(m, OCall(ACQUIRE_RUNTIME), [], w2);
    core := [Event(OCall(RELEASE_RUNTIME), [], w.locked, w.slots, u),
             Event(OCall(f), cargs, w1.locked, w1.slots, r),
             Event(OCall(ACQUIRE_RUNTIME), [], w2.locked, w2.slots, u2)];
  }

  // The end of an unlocked stub: release, call, acquire, then steady work.
  lemma UnlockedCallShape(m: Machine, cfg: Config, cargs: seq<Val>, ret: Typ, w: World) returns (added: seq<Event>)
    requires InjError(ret).None? && cfg.unlocked && w.locked
    ensures var w1 := CallSpec(m, cfg, cargs, ret, w).1;
            && Extends(w, w1, added) && w1.locked && w1.roots == w.roots && |added| >= 3 && NoInteriorPointer(added)
            && IsRelease(added[0].op) && added[0].locked
            && added[1].op == OCall(Foreign(cfg, ret)) && !added[1].locked
            && IsAcquire(added[2].op) && !added[2].locked && Steady(added[3..], true)
  {
    hide Inject;
    var w0 := if cfg.errno.ReturnErrno? then w.(errno := CInt(0)) else w;
    var core := ReleasedCall(m, Foreign(cfg, ret), cargs, w0);
    var w1 := Do(m, OCall(RELEASE_RUNTIME), [], w0).1;
    var (r, w2) := Do(m, OCall(Foreign(cfg, ret)), cargs, w1);
    var w3 := Do(m, OCall(ACQUIRE_RUNTIME), [], w2).1;
    var rest := ResultSteady(m, cfg, ret, m.convert(ret, r), w3);
    added := core + rest;
    assert added[3..] == rest;
    assert w.trace + core + rest == w.trace + added;
  }

  /** Runtime-lock discipline of every stub generated for an unlocked policy, in any
      outside world: the lock is held at every access to OCaml's heap, it is let go
      for the foreign call alone, it is held again at the end with the root frame
      closed, every parameter is rooted first, and no interior pointer into the heap is
      ever taken. */
  lemma UnlockedStubsKeepTheLock(m: Machine, c: Concurrency, errno: ErrnoPolicy, cname: string, stubName: string,
                                 f: Fn, n: nat, args: seq<Val>, w: World) returns (added: seq<Event>)
    requires (c.Unlocked? || c.LwtPreemptive?) && Dispatch(c, errno, cname, stubName, f, n).Ok?
    requires |args| == |Params(f)| && KeepsValues(m) && w.locked
    ensures var w1 := RunBody(m, Dispatch(c, errno, cname, stubName, f, n).value, args, w).1;
            && Extends(w, w1, added) && w1.locked && w1.roots == w.roots
            && |added| > 0 && added[0].op == ORoots && added[0].args == args
            && ReleasedOnlyForTheCall(added, CFunction(cname, false, false, ReturnType(f)))
            && (forall i :: 0 <= i < |added| && TouchesHeap(added[i].op) ==> added[i].locked)
            && (forall i :: 0 <= i < |added| ==> !TakesInteriorPointer(added[i].op))
  {
    var cfg := Config(cname, true, errno);
    StubRefinesSpec(m, c, errno, cname, stubName, f, n, args, w);
    NoReferences(f);
    added := UnlockedSpecShape(m, cfg, Params(f), ReturnType(f), args, w);
  }

  lemma {:induction false} NoReferences(f: Fn)
    requires !HasOCamlArgument(f)
    ensures forall t :: t in Params(f) ==> !OCamlValue(t)
  {
    match f
    case Returns(_) =>
    case Function(t, rest) =>
      NoReferences(rest);
  }

  lemma UnlockedSpecShape(m: Machine, cfg: Config, ts: seq<Typ>, ret: Typ, args: seq<Val>, w: World) returns (added: seq<Event>)
    requires |args| == |ts| && NoErrors(ts, ret) && cfg.unlocked && w.locked
    requires forall t :: t in ts ==> !OCamlValue(t)
    ensures var w1 := StubSpec(m, cfg, ts, ret, args, w).1;
            && Extends(w, w1, added) && w1.locked && w1.roots == w.roots
            && |added| > 0 && added[0].op == ORoots && added[0].args == args
            && ReleasedOnlyForTheCall(added, Foreign(cfg, ret))
            && (forall i :: 0 <= i < |added| && TouchesHeap(added[i].op) ==> added[i].locked)
            && (forall i :: 0 <= i < |added| ==> !TakesInteriorPointer(added[i].op))
  {
    hide ProjectAll;
    hide CallSpec;
    hide TakesInteriorPointer;
    hide NoInteriorPointer;
    hide TouchesHeap;
    hide InjError;
    hide PrjError;
    hide ReleasedOnlyForTheCall;
    var (u, w0) := Do(m, ORoots, args, w);
    var root := [Event(ORoots, args, w.locked, w.slots, u)];
    var proj := ProjectAllReads(m, ts, args, w0);
    var (cargs, w1) := ProjectAll(m, ts, args, w0);
    var tail := UnlockedCallShape(m, cfg, cargs, ret, w1);
    added := root + proj + tail;
    assert w.trace + root + proj + tail == w.trace + added;
    ShapeJoins(root, proj, tail, cfg, ret);
  }

  lemma ShapeJoins(root: seq<Event>, proj: seq<Event>, tail: seq<Event>, cfg: Config, ret: Typ)
    requires |root| == 1 && root[0].op == ORoots && root[0].locked && Steady(proj, true) && NoInteriorPointer(proj)
    requires |tail| >= 3 && NoInteriorPointer(tail)
    requires IsRelease(tail[0].op) && tail[0].locked && tail[1].op == OCall(Foreign(cfg, ret)) && !tail[1].locked
    requires IsAcquire(tail[2].op) && !tail[2].locked && Steady(tail[3..], true)
    ensures var added := root + proj + tail;
            && |added| > 0 && added[0] == root[0]
            && ReleasedOnlyForTheCall(added, Foreign(cfg, ret))
            && (forall i :: 0 <= i < |added| && TouchesHeap(added[i].op) ==> added[i].locked)
            && (forall i :: 0 <= i < |added| ==> !TakesInteriorPointer(added[i].op))
  {
    var added := root + proj + tail;
    var k := 1 + |proj|;
    forall i | 0 <= i < |added|
      ensures !(k <= i <= k + 2) ==> added[i].locked && !LockOp(added[i].op)
      ensures !TakesInteriorPointer(added[i].op)
    {
      if 1 <= i < k { assert added[i] == proj[i - 1]; }
      if k <= i { assert added[i] == tail[i - k]; }
      if k + 3 <= i { assert added[i] == tail[3..][i - k - 3]; }
    }
    assert added[k] == tail[0] && added[k + 1] == tail[1] && added[k + 2] == tail[2];
    assert ReleaseAt(added, Foreign(cfg, ret), k);
  }

  /** GC safety of every stub that keeps the lock: the foreign call comes after every
      projection, nothing up to and including it allocates, so an interior pointer
      handed to C is still valid. */
  lemma SequentialStubsAreGCSafe(m: Machine, errno: ErrnoPolicy, cname: string, stubName: string,
                                 f: Fn, n: nat, args: seq<Val>, w: World) returns (added: seq<Event>, call: nat)
    requires Dispatch(Sequential, errno, cname, stubName, f, n).Ok?
    requires |args| == |Params(f)| && KeepsValues(m)
    ensures var w1 := RunBody(m, Dispatch(Sequential, errno, cname, stubName, f, n).value, args, w).1;
            && Extends(w, w1, added) && w1.locked == w.locked && w1.roots == w.roots
            && call < |added| && added[call].op == OCall(CFunction(cname, false, false, ReturnType(f)))
            && (forall i :: 0 <= i <= call ==> !Allocates(added[i].op))
            && (forall i :: call < i < |added| ==> !TakesInteriorPointer(added[i].op))
            && forall i :: 0 <= i < |added| ==> !LockOp(added[i].op)
  {
    var cfg := Config(cname, false, errno);
    StubRefinesSpec(m, Sequential, errno, cname, stubName, f, n, args, w);
    added, call := SequentialSpecShape(m, cfg, Params(f), ReturnType(f), args, w);
  }

  lemma SequentialSpecShape(m: Machine, cfg: Config, ts: seq<Typ>, ret: Typ, args: seq<Val>, w: World)
      returns (added: seq<Event>, call: nat)
    requires |args| == |ts| && NoErrors(ts, ret) && !cfg.unlocked
    ensures var w1 := StubSpec(m, cfg, ts, ret, args, w).1;
            && Extends(w, w1, added) && w1.locked == w.locked && w1.roots == w.roots
            && call < |added| && added[call].op == OCall(Foreign(cfg, ret))
            && (forall i :: 0 <= i <= call ==> !Allocates(added[i].op))
            && (forall i :: call < i < |added| ==> !TakesInteriorPointer(added[i].op))
            && forall i :: 0 <= i < |added| ==> !LockOp(added[i].op)
  {
    hide Project;
    hide CallSpec;
    var proj := ProjectAllReads(m, ts, args, w);
    var (cargs, w1) := ProjectAll(m, ts, args, w);
    var tail := SequentialCallShape(m, cfg, cargs, ret, w1);
    added := proj + tail;
    call := |proj|;
    assert w.trace + proj + tail == w.trace + added;
    CallAfterReads(proj, tail, cfg, ret, w.locked);
  }

  lemma CallAfterReads(proj: seq<Event>, tail: seq<Event>, cfg: Config, ret: Typ, locked: bool)
    requires Steady(proj, locked) && NoAllocation(proj) && Steady(tail, locked)
    requires |tail| >= 1 && tail[0].op == OCall(Foreign(cfg, ret)) && NoInteriorPointer(tail[1..])
    ensures var added := proj + tail;
            && (forall i :: 0 <= i <= |proj| ==> !Allocates(added[i].op))
            && (forall i :: |proj| < i < |added| ==> !TakesInteriorPointer(added[i].op))
            && forall i :: 0 <= i < |added| ==> !LockOp(added[i].op)
  {
    var added, call := proj + tail, |proj|;
    forall i | 0 <= i < |added|
      ensures i <= call ==> !Allocates(added[i].op)
      ensures i > call ==> !TakesInteriorPointer(added[i].op)
      ensures !LockOp(added[i].op)
    {
      if i < call { assert added[i] == proj[i]; } else { assert added[i] == tail[i - call]; }
      if i > call { assert added[i] == tail[1..][i - call - 1]; }
    }
  }

  lemma SequentialCallShape(m: Machine, cfg: Config, cargs: seq<Val>, ret: Typ, w: World) returns (added: seq<Event>)
    requires InjError(ret).None? && !cfg.unlocked
    ensures var w1 := CallSpec(m, cfg, cargs, ret, w).1;
            && Extends(w, w1, added) && w1.locked == w.locked && w1.roots == w.roots && |added| >= 1
            && added[0].op == OCall(Foreign(cfg, ret)) && Steady(added, w.locked) && NoInteriorPointer(added[1..])
  {
    hide Inject;
    var w0 := if cfg.errno.ReturnErrno? then w.(errno := CInt(0)) else w;
    var (r, w1) := Do(m, OCall(Foreign(cfg, ret)), cargs, w0);
    var rest := ResultSteady(m, cfg, ret, m.convert(ret, r), w1);
    var core := [Event(OCall(Foreign(cfg, ret)), cargs, w0.locked, w0.slots, r)];
    assert w1.trace == w.trace + core;
    added := core + rest;
    assert added[1..] == rest;
    assert w.trace + core + rest == w.trace + added;
  }

  // ---- What the code after the call mentions ----

  function FreeExp(e: CExp): set<Name> {
    match e
    case IntConst(_) => {}
    case Local(x, _) => {x}
    case Cast(_, e') => FreeExp(e')
    case AddrLocal(x, _) => {x}
    case AddrGlobal(_) => {}
  }

  function FreeExps(es: seq<CExp>): set<Name> { set i, x | 0 <= i < |es| && x in FreeExp(es[i]) :: x }

  function FreeEff(e: CEff): set<Name> {
    match e
    case Exp(e') => FreeExp(e')
    case CamlLocalN(a, k) => FreeExp(a) + FreeExp(k)
    case App(_, args) => FreeExps(args)
    case Index(b, i) => FreeEff(b) + FreeExp(i)
    case Deref(p) => FreeExp(p)
    case DerefField(p, _) => FreeExp(p)
    case _ => {}
  }

  function FreeLValue(lv: CLValue): set<Name> {
    match lv
    case LLocal(x) => {x}
    case LGlobal(_) => {}
    case LIndex(b, i) => FreeLValue(b) + FreeExp(i)
    case LField(b, _) => FreeLValue(b)
    case LPointerField(b, _) => FreeLValue(b)
  }

  function FreeComp(c: CComp): set<Name> {
    match c
    case Eff(e) => FreeEff(e)
    case CamlParam(xs, b) => (set x | x in xs) + FreeComp(b)
    case LetConst(x, _, b) => FreeComp(b) - {x}
    case LetAssign(lv, e, b) => FreeLValue(lv) + FreeEff(e) + FreeComp(b)
    case CamlReturnT(_, e) => FreeExp(e)
    case Return(_, e) => FreeExp(e)
    case Let(x, _, e, b) => FreeEff(e) + (FreeComp(b) - {x})
  }

  // The code that follows the first call of f.
  function CodeAfter(c: CComp, f: CFunction): Option<CComp> {
    match c
    case Let(_, _, e, b) => if e.App? && e.f == f then Some(b) else CodeAfter(b, f)
    case LetAssign(_, _, b) => CodeAfter(b, f)
    case LetConst(_, _, b) => CodeAfter(b, f)
    case CamlParam(_, b) => CodeAfter(b, f)
    case _ => None
  }

  predicate CallsNot(c: CComp, f: CFunction) {
    match c
    case Eff(e) => !(e.App? && e.f == f)
    case Let(_, _, e, b) => !(e.App? && e.f == f) && CallsNot(b, f)
    case LetAssign(_, _, b) => CallsNot(b, f)
    case LetConst(_, _, b) => CallsNot(b, f)
    case CamlParam(_, b) => CallsNot(b, f)
    case _ => true
  }

  lemma {:induction false} AfterBind(e: CComp, ty: Typ, k: Cont, n: nat, f: CFunction)
    requires !EndsInReturn(e) && CallsNot(e, f)
    ensures Tail(e, ty, n).1 > n && CodeAfter(Bind(e, ty, k, n).0, f) == CodeAfter(k(Tail(e, ty, n).0, Tail(e, ty, n).1).0, f)
    decreases e
  {
    match e
    case Eff(_) =>
    case CamlParam(_, b) => AfterBind(b, TypeOfComp(b), k, n + 1, f);
    case LetConst(_, _, b) => AfterBind(b, TypeOfComp(b), k, n + 1, f);
    case LetAssign(_, _, b) => AfterBind(b, TypeOfComp(b), k, n + 1, f);
    case Let(_, _, _, b) => AfterBind(b, TypeOfComp(b), k, n + 1, f);
  }

  lemma {:induction false} ProjectionCallsNot(t: Typ, orig: Typ, x: CExp, n: nat, f: CFunction)
    requires PrjError(t).None? && !f.readsHeap
    ensures Prj(t, orig, x, n).Some? ==> CallsNot(Prj(t, orig, x, n).value.0, f) && Prj(t, orig, x, n).value.1 >= n
  {
    hide PrimPrj;
    match t
    case View(_, ty) => ProjectionCallsNot(ty, orig, x, n, f);
    case OCaml(k) => InteriorPointersRead(k);
    case _ =>
  }

  lemma InteriorPointersRead(k: OCamlKind)
    ensures InteriorPointer(k).readsHeap
  {
  }

  lemma {:induction false} InjectionFree(t: Typ, x: Name, xt: Typ)
    requires InjError(t).None?
    ensures FreeEff(Inj(t, x, xt)) <= {x}
  {
    hide PrimInj;
    hide FreeEff;
    hide FreeExp;
    FreeLocal(x, xt);
    match t
    case View(_, ty) => InjectionFree(ty, x, xt);
    case Primitive(p) => FreeCast(p, x, xt); OneArgument(PrimInj(p), Cast(Primitive(p), Local(x, xt)));
    case Struct(_, spec, _) => AddressAndSize(COPY_BYTES, x, xt, spec.value.size);
    case Union(_, spec, _) => AddressAndSize(COPY_BYTES, x, xt, spec.value.size);
    case Void => NothingFree(VAL_UNIT);
    case _ => OneArgument(FROM_PTR, Local(x, xt));
  }

  lemma FreeLocal(x: Name, xt: Typ)
    ensures FreeExp(Local(x, xt)) == {x}
  {
  }

  lemma FreeCast(p: Prim, x: Name, xt: Typ)
    ensures FreeExp(Cast(Primitive(p), Local(x, xt))) == {x}
  {
  }

  lemma OneArgument(f: CFunction, a: CExp)
    ensures FreeEff(App(f, [a])) == FreeExp(a)
  {
    FreeOne(a);
  }

  lemma AddressAndSize(f: CFunction, x: Name, xt: Typ, size: int)
    ensures FreeEff(App(f, [AddrLocal(x, xt), IntConst(size)])) == {x}
  {
    FreeTwo(AddrLocal(x, xt), IntConst(size));
  }

  lemma NothingFree(g: CGlobal)
    ensures FreeEff(Global(g)) == {}
  {
  }

  lemma FreeOne(a: CExp)
    ensures FreeExps([a]) == FreeExp(a)
  {
    assert [a][0] == a;
  }

  lemma FreeTwo(a: CExp, b: CExp)
    ensures FreeExps([a, b]) == FreeExp(a) + FreeExp(b)
  {
    assert [a, b][0] == a && [a, b][1] == b;
  }

  // Injecting x, then pairing with errno, mentions x alone.
  lemma PairingFree(ret: Typ, x: Name, y: Name, z: Name)
    requires InjError(ret).None?
    ensures FreeComp(Let(y, VALUE, Inj(ret, x, ret), Eff(App(PAIR_WITH_ERRNO, [Local(y, VALUE)])))) <= {x}
    ensures FreeComp(Let(y, VALUE, Inj(ret, x, ret),
                       Let(z, VALUE, App(PAIR_WITH_ERRNO, [Local(y, VALUE)]), CamlReturnT(VALUE, Local(z, VALUE))))) <= {x}
    ensures FreeComp(Let(y, VALUE, Inj(ret, x, ret), CamlReturnT(VALUE, Local(y, VALUE)))) <= {x}
    ensures FreeComp(Eff(Inj(ret, x, ret))) <= {x}
  {
    InjectionFree(ret, x, ret);
    hide Inj;
    hide InjError;
    FreeLocal(y, VALUE);
    FreeLocal(z, VALUE);
    var pair, inj := App(PAIR_WITH_ERRNO, [Local(y, VALUE)]), Inj(ret, x, ret);
    OneArgument(PAIR_WITH_ERRNO, Local(y, VALUE));
    FreeParts(inj, CamlReturnT(VALUE, Local(y, VALUE)), y);
    FreeParts(inj, Eff(pair), y);
    FreeParts(pair, CamlReturnT(VALUE, Local(z, VALUE)), z);
    FreeParts(inj, Let(z, VALUE, pair, CamlReturnT(VALUE, Local(z, VALUE))), y);
    FreeEnds(Local(y, VALUE), pair);
    FreeEnds(Local(z, VALUE), inj);
    hide FreeComp;
    hide FreeEff;
    hide FreeExp;
  }

  lemma FreeParts(e: CEff, b: CComp, x: Name)
    ensures FreeComp(Let(x, VALUE, e, b)) == FreeEff(e) + (FreeComp(b) - {x})
  {
  }

  lemma FreeEnds(a: CExp, e: CEff)
    ensures FreeComp(CamlReturnT(VALUE, a)) == FreeExp(a) && FreeComp(Eff(e)) == FreeEff(e)
  {
  }

  // The call under its let, the lock taken back after it if it was released before.
  lemma AfterReleased(cfg: Config, vars: seq<CExp>, ret: Typ, x: Name, rel: Name, acq: Name, rest: CComp)
    requires FreeComp(rest) <= {x}
    ensures var c := Released(cfg, vars, ret, x, rel, acq, rest);
            var after := CodeAfter(c, Foreign(cfg, ret));
            after.Some? && FreeComp(after.value) <= {x}
  {
    var after := Let(acq, Void, App(ACQUIRE_RUNTIME, []), rest);
    assert FreeExps([]) == {};
    assert FreeComp(after) == FreeComp(rest) - {acq};
    assert !Foreign(cfg, ret).allocates && RELEASE_RUNTIME.allocates;
    var call := Let(x, ret, App(Foreign(cfg, ret), Reverse(vars)), after);
    assert CodeAfter(call, Foreign(cfg, ret)) == Some(after);
  }

  // The end of a stub, for each policy: after the call only its result is mentioned.
  lemma FinishAfter(cfg: Config, vars: seq<CExp>, ret: Typ, n: nat)
    requires InjError(ret).None?
    ensures var rest := CodeAfter(Finish(cfg, vars, ret, n).0, Foreign(cfg, ret));
            rest.Some? && FreeComp(rest.value) <= {Fresh(n + 1)}
  {
    var x, f := Fresh(n + 1), Foreign(cfg, ret);
    hide FreeComp;
    hide InjError;
    hide Finish;
    hide Released;
    hide Inj;
    var call := App(f, Reverse(vars));
    match (cfg.errno, cfg.unlocked)
    case (IgnoreErrno, false) =>
      PairingFree(ret, x, x, x);
      IgnoreSequentialCode(cfg, vars, ret, n);
    case (ReturnErrno, false) =>
      PairingFree(ret, x, Fresh(n + 2), x);
      ReturnSequentialCode(cfg, vars, ret, n);
      var rest := Let(Fresh(n + 2), VALUE, Inj(ret, x, ret), Eff(App(PAIR_WITH_ERRNO, [Local(Fresh(n + 2), VALUE)])));
      AfterReset(Let(x, ret, call, rest), f);
      assert CodeAfter(Let(x, ret, call, rest), f) == Some(rest);
    case (IgnoreErrno, true) =>
      hide CodeAfter;
      PairingFree(ret, x, Fresh(n + 2), x);
      IgnoreUnlockedCode(cfg, vars, ret, n);
      AfterReleased(cfg, vars, ret, x, Fresh(n + 4), Fresh(n + 3),
        Let(Fresh(n + 2), VALUE, Inj(ret, x, ret), CamlReturnT(VALUE, Local(Fresh(n + 2), VALUE))));
    case (ReturnErrno, true) =>
      hide CodeAfter;
      PairingFree(ret, x, Fresh(n + 4), Fresh(n + 5));
      ReturnUnlockedCode(cfg, vars, ret, n);
      var rest := Let(Fresh(n + 4), VALUE, Inj(ret, x, ret),
        Let(Fresh(n + 5), VALUE, App(PAIR_WITH_ERRNO, [Local(Fresh(n + 4), VALUE)]), CamlReturnT(VALUE, Local(Fresh(n + 5), VALUE))));
      AfterReset(Released(cfg, vars, ret, x, Fresh(n + 6), Fresh(n + 2), rest), f);
      AfterReleased(cfg, vars, ret, x, Fresh(n + 6), Fresh(n + 2), rest);
  }

  lemma AfterReset(c: CComp, f: CFunction)
    ensures CodeAfter(LetAssign(LGlobal(ERRNO), Exp(IntConst(0)), c), f) == CodeAfter(c, f)
  {
  }

  lemma IgnoreSequentialCode(cfg: Config, vars: seq<CExp>, ret: Typ, n: nat)
    requires InjError(ret).None? && cfg.errno.IgnoreErrno? && !cfg.unlocked
    ensures var x := Fresh(n + 1);
            Finish(cfg, vars, ret, n).0 == Let(x, ret, App(Foreign(cfg, ret), Reverse(vars)), Eff(Inj(ret, x, ret)))
    ensures var x := Fresh(n + 1); CodeAfter(Finish(cfg, vars, ret, n).0, Foreign(cfg, ret)) == Some(Eff(Inj(ret, x, ret)))
  {
    hide Inj;
  }

  lemma ReturnSequentialCode(cfg: Config, vars: seq<CExp>, ret: Typ, n: nat)
    requires InjError(ret).None? && cfg.errno.ReturnErrno? && !cfg.unlocked
    ensures var x, y := Fresh(n + 1), Fresh(n + 2);
            Finish(cfg, vars, ret, n).0 ==
              LetAssign(LGlobal(ERRNO), Exp(IntConst(0)),
                Let(x, ret, App(Foreign(cfg, ret), Reverse(vars)),
                  Let(y, VALUE, Inj(ret, x, ret), Eff(App(PAIR_WITH_ERRNO, [Local(y, VALUE)])))))
  {
    hide Inj;
  }

  lemma IgnoreUnlockedCode(cfg: Config, vars: seq<CExp>, ret: Typ, n: nat)
    requires InjError(ret).None? && cfg.errno.IgnoreErrno? && cfg.unlocked
    ensures var x, y := Fresh(n + 1), Fresh(n + 2);
            Finish(cfg, vars, ret, n).0 ==
              Released(cfg, vars, ret, x, Fresh(n + 4), Fresh(n + 3), Let(y, VALUE, Inj(ret, x, ret), CamlReturnT(VALUE, Local(y, VALUE))))
  {
    hide Inj;
  }

  /** After the foreign call a stub mentions nothing but the call's result: no parameter,
      no projected argument, no interior pointer. */
  lemma {:induction false} OnlyTheResultIsMentioned(cfg: Config, vars: seq<CExp>, ps: seq<Param>, ret: Typ, n: nat) returns (x: Name)
    requires InjError(ret).None? && forall p :: p in ps ==> PrjError(p.ty).None?
    ensures x.Fresh? && x.n > n
    ensures var rest := CodeAfter(Body(cfg, vars, ps, ret, n).0, Foreign(cfg, ret)); rest.Some? && FreeComp(rest.value) <= {x}
    decreases |ps|
  {
    hide Finish;
    hide Prj;
    hide FreeComp;
    hide CodeAfter;
    hide PrjError;
    hide InjError;
    if ps == [] {
      x := Fresh(n + 1);
      FinishAfter(cfg, vars, ret, n);
    } else {
      assert ps[0] in ps;
      var t, e := ps[0].ty, Local(ps[0].x, VALUE);
      ProjectionCallsNot(t, t, e, n, Foreign(cfg, ret));
      match Prj(t, t, e, n)
      case None => x := OnlyTheResultIsMentioned(cfg, vars, ps[1..], ret, n);
      case Some((c, n1)) =>
        AfterBind(c, t, BodyAfter(cfg, vars, ps[1..], ret), n1, Foreign(cfg, ret));
        var (r, j) := Tail(c, t, n1);
        x := OnlyTheResultIsMentioned(cfg, [r] + vars, ps[1..], ret, j);
    }
  }
}

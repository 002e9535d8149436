/** The analysis of a description for the attributes of its external,
    src/cstubs/cstubs_analysis.ml:60-115, against what the generated stub does. */
module Analysis {
  import opened CtypesStatic
  import opened CLanguage
  import opened Projections
  import opened CStub
  import opened StubDiscipline

  /** `primitive_allocation`. */
  predicate PrimitiveAllocation(p: Prim) {
    match p
    case Char => false
    case Bool => false
    case Schar => false
    case Short => false
    case Int => false
    case Int8T => false
    case Int16T => false
    case Uint8T => false
    case Uint16T => false
    case Camlint => false
    case _ => true
  }

  /** `allocation`: whether reading a value of the type may allocate. */
  predicate Allocation(t: Typ) {
    match t
    case Void => false
    case Primitive(p) => PrimitiveAllocation(p)
    case View(_, ty) => Allocation(ty)
    case _ => true
  }

  /** `may_allocate`: only the result counts. */
  predicate MayAllocate(f: Fn) {
    match f case Returns(t) => Allocation(t) case Function(_, rest) => MayAllocate(rest)
  }

  // Whether the value built for a result is a new block.
  predicate BuildsBlock(t: Typ) {
    match StripViews(t) case Void => false case Primitive(p) => PrimInj(p).allocates case _ => true
  }

  lemma PrimitiveAllocationIff(p: Prim)
    ensures PrimitiveAllocation(p) <==> PrimInj(p).allocates || p == Uchar
  {
  }

  lemma {:induction false} AllocationIff(t: Typ)
    ensures Allocation(t) <==> BuildsBlock(t) || StripViews(t) == Primitive(Uchar)
  {
    hide PrimInj;
    hide PrimitiveAllocation;
    match t
    case Primitive(p) => PrimitiveAllocationIff(p);
    case View(_, ty) => AllocationIff(ty);
    case _ =>
  }

  /** The analysis is right about a result except that it expects a block for an
      `unsigned char`, which there is none for. */
  lemma {:induction false} MayAllocateIff(f: Fn)
    ensures MayAllocate(f) <==> BuildsBlock(ReturnType(f)) || StripViews(ReturnType(f)) == Primitive(Uchar)
    decreases f
  {
    match f
    case Returns(t) => AllocationIff(t);
    case Function(_, rest) => MayAllocateIff(rest);
  }

  // Whether something among the events allocates.
  predicate SomeAllocation(added: seq<Event>) { exists i :: 0 <= i < |added| && Allocates(added[i].op) }

  lemma SomeEither(a: seq<Event>, b: seq<Event>)
    ensures SomeAllocation(a + b) <==> SomeAllocation(a) || SomeAllocation(b)
  {
    if i :| 0 <= i < |a| && Allocates(a[i].op) { assert (a + b)[i] == a[i]; }
    if i :| 0 <= i < |b| && Allocates(b[i].op) { assert (a + b)[|a| + i] == b[i]; }
    if i :| 0 <= i < |a + b| && Allocates((a + b)[i].op) {
      if i < |a| { assert a[i] == (a + b)[i]; } else { assert b[i - |a|] == (a + b)[i]; }
    }
  }

  lemma OneEvent(m: Machine, op: Op, args: seq<Val>, w: World) returns (added: seq<Event>)
    ensures Extends(w, Do(m, op, args, w).1, added) && (SomeAllocation(added) <==> Allocates(op))
  {
    added := [Event(op, args, w.locked, w.slots, Do(m, op, args, w).0)];
    assert added[0].op == op;
  }

  lemma InjectionAllocates(m: Machine, t: Typ, v: Val, w: World) returns (added: seq<Event>)
    requires InjError(t).None?
    ensures Extends(w, Inject(m, t, v, w).1, added) && (SomeAllocation(added) <==> BuildsBlock(t))
  {
    hide PrimInj;
    hide Do;
    hide SomeAllocation;
    PrjErrorStrip(t);
    match StripViews(t)
    case Void => added := OneEvent(m, OGlobal(VAL_UNIT), [], w);
    case Primitive(p) => added := OneEvent(m, OCall(PrimInj(p)), [m.convert(Primitive(p), v)], w);
    case Struct(_, spec, _) => added := OneEvent(m, OCall(COPY_BYTES), [AddrOf(v), CInt(spec.value.size)], w);
    case Union(_, spec, _) => added := OneEvent(m, OCall(COPY_BYTES), [AddrOf(v), CInt(spec.value.size)], w);
    case _ => added := OneEvent(m, OCall(FROM_PTR), [v], w);
  }

  lemma ResultAllocates(m: Machine, cfg: Config, ret: Typ, c: Val, w: World) returns (added: seq<Event>)
    requires InjError(ret).None?
    ensures Extends(w, ResultSpec(m, cfg, ret, c, w).1, added)
    ensures SomeAllocation(added) <==> cfg.errno.ReturnErrno? || BuildsBlock(ret)
  {
    hide Inject;
    hide InjError;
    hide SomeAllocation;
    hide Do;
    hide BuildsBlock;
    added := InjectionAllocates(m, ret, c, w);
    if cfg.errno.ReturnErrno? {
      var (v, w1) := Inject(m, ret, c, w);
      var paired := OneEvent(m, OCall(PAIR_WITH_ERRNO), [v], w1);
      SomeEither(added, paired);
      assert w.trace + added + paired == w.trace + (added + paired);
      added := added + paired;
    }
  }

  lemma CallAllocates(m: Machine, cfg: Config, cargs: seq<Val>, ret: Typ, w: World) returns (added: seq<Event>)
    requires InjError(ret).None?
    ensures Extends(w, CallSpec(m, cfg, cargs, ret, w).1, added)
    ensures SomeAllocation(added) <==> cfg.unlocked || cfg.errno.ReturnErrno? || BuildsBlock(ret)
  {
    hide ResultSpec;
    hide InjError;
    hide SomeAllocation;
    hide BuildsBlock;
    var w0 := if cfg.errno.ReturnErrno? then w.(errno := CInt(0)) else w;
    var w1, head := w0, [];
    SomeNone();
    assert w0.trace == w.trace + head;
    if cfg.unlocked {
      head := OneEvent(m, OCall(RELEASE_RUNTIME), [], w0);
      w1 := Do(m, OCall(RELEASE_RUNTIME), [], w0).1;
    }
    hide Do;
    var call := OneEvent(m, OCall(Foreign(cfg, ret)), cargs, w1);
    var (r, w2) := Do(m, OCall(Foreign(cfg, ret)), cargs, w1);
    var w3 := w2;
    added := Joined(w, w1, w2, head, call);
    if cfg.unlocked {
      var back := OneEvent(m, OCall(ACQUIRE_RUNTIME), [], w2);
      w3 := Do(m, OCall(ACQUIRE_RUNTIME), [], w2).1;
      added := Joined(w, w2, w3, added, back);
    }
    var rest := ResultAllocates(m, cfg, ret, m.convert(ret, r), w3);
    added := Joined(w, w3, CallSpec(m, cfg, cargs, ret, w).1, added, rest);
  }

  lemma SomeNone()
    ensures !SomeAllocation([])
  {
  }

  lemma Joined(w: World, w1: World, w2: World, a: seq<Event>, b: seq<Event>) returns (added: seq<Event>)
    requires Extends(w, w1, a) && Extends(w1, w2, b)
    ensures Extends(w, w2, added) && (SomeAllocation(added) <==> SomeAllocation(a) || SomeAllocation(b))
  {
    added := a + b;
    SomeEither(a, b);
    assert w.trace + a + b == w.trace + added;
  }

  /** What a run of a generated stub allocates in OCaml's heap, outside the C function itself:
      something exactly when the lock is released and taken back, errno is paired with the
      result, or the result is a block. */
  lemma RunAllocatesIff(m: Machine, c: Concurrency, errno: ErrnoPolicy, cname: string, stubName: string, f: Fn, n: nat,
                        args: seq<Val>, w: World) returns (added: seq<Event>)
    requires !c.LwtJobs? && Dispatch(c, errno, cname, stubName, f, n).Ok? && |args| == |Params(f)| && KeepsValues(m)
    ensures |Dispatch(c, errno, cname, stubName, f, n).value.params| == |args|
    ensures Extends(w, RunBody(m, Dispatch(c, errno, cname, stubName, f, n).value, args, w).1, added)
    ensures SomeAllocation(added) <==> !c.Sequential? || errno.ReturnErrno? || BuildsBlock(ReturnType(f))
  {
    hide Dispatch;
    hide RunBody;
    hide ProjectAll;
    hide CallSpec;
    hide InjError;
    hide PrjError;
    hide SomeAllocation;
    hide BuildsBlock;
    hide KeepsValues;
    StubRefinesSpec(m, c, errno, cname, stubName, f, n, args, w);
    var cfg := Config(cname, !c.Sequential?, errno);
    var w0, head := w, [];
    SomeNone();
    assert w.trace == w.trace + head;
    if cfg.unlocked {
      head := OneEvent(m, ORoots, args, w);
      w0 := Do(m, ORoots, args, w).1;
    }
    hide Do;
    var proj := ProjectAllReads(m, Params(f), args, w0);
    Quiet(proj);
    var (cargs, w1) := ProjectAll(m, Params(f), args, w0);
    added := Joined(w, w0, w1, head, proj);
    var rest := CallAllocates(m, cfg, cargs, ReturnType(f), w1);
    added := Joined(w, w1, CallSpec(m, cfg, cargs, ReturnType(f), w1).1, added, rest);
  }

  lemma Quiet(added: seq<Event>)
    requires NoAllocation(added)
    ensures !SomeAllocation(added)
  {
  }

  // No run allocates, whatever is outside and whatever it is called with.
  ghost predicate NeverAllocates(d: CFundef) {
    forall m: Machine, args: seq<Val>, w: World, added: seq<Event>
      {:trigger Extends(w, RunBody(m, d, args, w).1, added)} ::
      |args| == |d.params| && KeepsValues(m) && Extends(w, RunBody(m, d, args, w).1, added) ==> !SomeAllocation(added)
  }

  /** A description the analysis calls free of allocation has a stub that never allocates
      exactly when the lock is kept and errno is not returned: the pair with errno, and
      taking the lock back, are not looked at. */
  lemma NoallocIff(c: Concurrency, errno: ErrnoPolicy, cname: string, stubName: string, f: Fn, n: nat)
    requires !c.LwtJobs? && Dispatch(c, errno, cname, stubName, f, n).Ok? && !MayAllocate(f)
    ensures NeverAllocates(Dispatch(c, errno, cname, stubName, f, n).value) <==> c.Sequential? && errno.IgnoreErrno?
  {
    hide Dispatch;
    hide RunBody;
    hide SomeAllocation;
    hide KeepsValues;
    MayAllocateIff(f);
    var d := Dispatch(c, errno, cname, stubName, f, n).value;
    Parameters(c, errno, cname, stubName, f, n);
    if c.Sequential? && errno.IgnoreErrno? {
      forall m: Machine, args: seq<Val>, w: World, added: seq<Event>
        | |args| == |d.params| && KeepsValues(m) && Extends(w, RunBody(m, d, args, w).1, added)
        ensures !SomeAllocation(added)
      {
        var a := RunAllocatesIff(m, c, errno, cname, stubName, f, n, args, w);
        assert added == a by { assert (w.trace + added)[|w.trace|..] == (w.trace + a)[|w.trace|..]; }
      }
    } else {
      var m := Machine((op, args, w) => Reply(UnitVal, UnitVal), (t, v) => v);
      assert KeepsValues(m) by { KeepsIdentity(m); }
      var args := seq(|d.params|, _ => UnitVal);
      var w := World([], UnitVal, map[], true, 0);
      var a := RunAllocatesIff(m, c, errno, cname, stubName, f, n, args, w);
    }
  }

  lemma KeepsIdentity(m: Machine)
    requires forall t: Typ, v: Val :: m.convert(t, v) == v
    ensures KeepsValues(m)
  {
  }

  lemma Parameters(c: Concurrency, errno: ErrnoPolicy, cname: string, stubName: string, f: Fn, n: nat)
    requires !c.LwtJobs? && Dispatch(c, errno, cname, stubName, f, n).Ok?
    ensures |Dispatch(c, errno, cname, stubName, f, n).value.params| == |Params(f)|
  {
    hide FirstError;
    hide Body;
  }
}

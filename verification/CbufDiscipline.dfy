/** What stubs with return buffers keep: the buffers' addresses handed to C are read
    after the last allocation before the call (src/cbuf/cbuf_generate_c.ml:174-267). */
module CbufDiscipline {
  import opened CtypesStatic
  import opened CLanguage
  import opened Projections
  import opened CStub
  import opened LetFloat
  import opened CbufStub
  import opened StubDiscipline

  /** GC safety of stubs with return buffers: the foreign call comes after every
      projection, nothing up to and including it allocates, no interior pointer is
      taken after it, and the lock is never touched. */
  lemma BufStubsAreGCSafe(m: Machine, errno: ErrnoPolicy, cname: string, stubName: string, ts: seq<Typ>, pos: CPosition,
                          bufs: seq<(nat, Typ)>, ret: Typ, n: nat, args: seq<Val>, bargs: seq<Val>, w: World)
      returns (added: seq<Event>, call: nat)
    requires Bufferable(bufs) && InjError(ret).None? && (forall t :: t in ts ==> PrjError(t).None?)
    requires |args| == |ts| && |bargs| == |bufs| && KeepsValues(m)
    ensures var d := GenerateBuf(errno, cname, stubName, RetBuf(ts, pos, Nested(bufs), ret), n);
            && d.Ok? && |d.value.params| == |ts| + |bufs|
            && var w1 := RunBody(m, d.value, args + bargs, w).1;
            && Extends(w, w1, added) && w1.locked == w.locked && w1.roots == w.roots
            && call < |added| && added[call].op == OCall(CFunction(cname, false, false, ret))
            && (forall i :: 0 <= i <= call ==> !Allocates(added[i].op))
            && (forall i :: call < i < |added| ==> !TakesInteriorPointer(added[i].op))
            && forall i :: 0 <= i < |added| ==> !LockOp(added[i].op)
  {
    hide GenerateBuf;
    hide RunBody;
    hide BufStubMeans;
    hide Bufferable;
    hide RetBuf;
    hide Nested;
    hide PrjError;
    hide InjError;
    BufStubMeaning(m, errno, cname, stubName, ts, pos, bufs, ret, n, args, bargs, w);
    added, call := BufSpecShape(m, Config(cname, false, errno), ts, pos, BufTypes(bufs), ret, args, bargs, w);
  }

  lemma BufSpecShape(m: Machine, cfg: Config, ts: seq<Typ>, pos: CPosition, bts: seq<Typ>, ret: Typ,
                     args: seq<Val>, bargs: seq<Val>, w: World) returns (added: seq<Event>, call: nat)
    requires |ts| == |args| && |bts| == |bargs| && InjError(ret).None? && !cfg.unlocked
    requires (forall t :: t in ts ==> PrjError(t).None?) && forall t :: t in bts ==> PrjError(t).None?
    ensures var w1 := BufStubMeans(m, cfg, ts, pos, bts, ret, args, bargs, w).1;
            && Extends(w, w1, added) && w1.locked == w.locked && w1.roots == w.roots
            && call < |added| && added[call].op == OCall(Foreign(cfg, ret))
            && (forall i :: 0 <= i <= call ==> !Allocates(added[i].op))
            && (forall i :: call < i < |added| ==> !TakesInteriorPointer(added[i].op))
            && forall i :: 0 <= i < |added| ==> !LockOp(added[i].op)
  {
    hide ProjectAll;
    hide CallSpec;
    hide PrjError;
    hide InjError;
    hide TakesInteriorPointer;
    var first := ProjectAllReads(m, ts, args, w);
    var (cargs, w1) := ProjectAll(m, ts, args, w);
    var second := ProjectAllReads(m, bts, bargs, w1);
    var (bs, w2) := ProjectAll(m, bts, bargs, w1);
    PassedAsMeantIff(m, cargs, bts, bargs, w1);
    hide PassedBuffers;
    var passed := PassedBuffers(m, cargs, [], bts, bargs, w1).0;
    var tail := SequentialCallShape(m, cfg, PlaceValues(pos, cargs, passed), ret, w2);
    var proj := first + second;
    added, call := proj + tail, |proj|;
    assert w.trace + first + second + tail == w.trace + added;
    CallAfterReads(proj, tail, cfg, ret, w.locked);
  }

  lemma {:induction false} AfterBuffers(cfg: Config, pos: CPosition, vars: seq<CExp>, bufvars: seq<CExp>, b: NBuffers, ret: Typ, n: nat)
      returns (x: Name)
    requires GenerableBuffers(b) && InjError(ret).None?
    ensures x.Fresh? && x.n > n
    ensures var rest := CodeAfter(BuffersBody(cfg, pos, vars, bufvars, b, NReturns(ret), n).0, Foreign(cfg, ret));
            rest.Some? && FreeComp(rest.value) <= {x}
    decreases b
  {
    hide Finish;
    hide Prj;
    hide FreeComp;
    hide CodeAfter;
    hide PrjError;
    hide InjError;
    var first := if b.NLast? then b else b.left;
    var t, e := first.ty, Local(first.x, VALUE);
    ProjectionCallsNot(t, t, e, n, Foreign(cfg, ret));
    match Prj(t, t, e, n)
    case None =>
      if b.NLast? { x := AfterReturns(cfg, Place(pos, vars, bufvars), ret, n); }
      else { x := AfterBuffers(cfg, pos, vars, vars, b.right, ret, n); }
    case Some((c, n1)) =>
      var (r, j) := Tail(c, t, n1);
      if b.NLast? {
        AfterBind(c, t, LastAfter(cfg, pos, vars, bufvars, NReturns(ret)), n1, Foreign(cfg, ret));
        x := AfterReturns(cfg, Place(pos, vars, [r] + bufvars), ret, j);
      } else {
        AfterBind(c, t, ConAfter(cfg, pos, vars, bufvars, b.right, NReturns(ret)), n1, Foreign(cfg, ret));
        x := AfterBuffers(cfg, pos, vars, [r] + bufvars, b.right, ret, j);
      }
  }

  lemma AfterReturns(cfg: Config, vars: seq<CExp>, ret: Typ, n: nat) returns (x: Name)
    requires InjError(ret).None?
    ensures x.Fresh? && x.n > n
    ensures var rest := CodeAfter(BufBody(cfg, vars, NReturns(ret), n).0, Foreign(cfg, ret)); rest.Some? && FreeComp(rest.value) <= {x}
  {
    hide Finish;
    hide FreeComp;
    hide CodeAfter;
    x := Fresh(n + 1);
    BodyOfReturns(cfg, vars, ret, n);
    FinishAfter(cfg, vars, ret, n);
  }

  /** After the foreign call a stub with return buffers mentions nothing but the call's
      result: no parameter, no projected argument, and none of the buffers' addresses. */
  lemma {:induction false} OnlyTheResultIsMentioned(cfg: Config, vars: seq<CExp>, f: NFn, n: nat) returns (x: Name)
    requires WellShaped(f) && Generable(f)
    ensures x.Fresh? && x.n > n
    ensures var rest := CodeAfter(BufBody(cfg, vars, f, n).0, Foreign(cfg, BuffersOf(f).rest.ret)); rest.Some? && FreeComp(rest.value) <= {x}
    decreases f
  {
    hide Finish;
    hide Prj;
    hide FreeComp;
    hide CodeAfter;
    hide PrjError;
    hide InjError;
    match f
    case NBuf(pos, b, rest) => x := AfterBuffers(cfg, pos, vars, [], b, rest.ret, n);
    case NFunction(y, t, rest) =>
      var e, foreign := Local(y, VALUE), Foreign(cfg, BuffersOf(f).rest.ret);
      ProjectionCallsNot(t, t, e, n, foreign);
      match Prj(t, t, e, n) {
        case None => x := OnlyTheResultIsMentioned(cfg, vars, rest, n);
        case Some((c, n1)) =>
          AfterBind(c, t, BufBodyAfter(cfg, vars, rest), n1, foreign);
          var (r, j) := Tail(c, t, n1);
          x := OnlyTheResultIsMentioned(cfg, [r] + vars, rest, j);
      }
  }
}

/** Stubs for functions with return buffers: the descriptions of
    src/cbuf/cbuf_static.ml and `fn` of src/cbuf/cbuf_generate_c.ml:174-267. */
module CbufStub {
  import opened CtypesStatic
  import opened CLanguage
  import opened LetFloat
  import opened Projections
  import opened CStub

  // Whether the buffers come before or after the other arguments of the C function.
  datatype CPosition = First | Last

  datatype CBuffers = LastBuf(size: nat, ty: Typ) | ConBuf(left: CBuffers, right: CBuffers)

  datatype BufFn =
    | BReturns(ret: Typ)
    | BFunction(arg: Typ, rest: BufFn)
    | BBuffers(pos: CPosition, bufs: CBuffers, rest: BufFn)

  // The same with generated parameter names.
  datatype NBuffers = NLast(x: Name, size: nat, ty: Typ) | NCon(left: NBuffers, right: NBuffers)

  datatype NFn =
    | NReturns(ret: Typ)
    | NFunction(x: Name, arg: Typ, rest: NFn)
    | NBuf(pos: CPosition, bufs: NBuffers, rest: NFn)

  function NameBuffers(b: CBuffers, n: nat): (NBuffers, nat) {
    match b
    case LastBuf(i, t) => (NLast(Fresh(n + 1), i, t), n + 1)
    case ConBuf(l, r) =>
      var (l', n1) := NameBuffers(l, n);
      var (r', n2) := NameBuffers(r, n1);
      (NCon(l', r'), n2)
  }

  function NameBufParams(f: BufFn, n: nat): (NFn, nat) {
    match f
    case BReturns(t) => (NReturns(t), n)
    case BFunction(t, rest) => var (r, j) := NameBufParams(rest, n + 1); (NFunction(Fresh(n + 1), t, r), j)
    case BBuffers(pos, b, rest) =>
      var (b', n1) := NameBuffers(b, n);
      var (r, j) := NameBufParams(rest, n1);
      (NBuf(pos, b', r), j)
  }

  function BufferParams(b: NBuffers): seq<(Name, Typ)> {
    match b
    case NLast(x, _, _) => [(x, VALUE)]
    case NCon(l, r) => BufferParams(l) + BufferParams(r)
  }

  /** The stub's C parameters; nothing after the buffers is declared. */
  function BufValueParams(f: NFn): seq<(Name, Typ)> {
    match f
    case NReturns(_) => []
    case NFunction(x, _, rest) => [(x, VALUE)] + BufValueParams(rest)
    case NBuf(_, b, _) => BufferParams(b)
  }

  function Size(b: NBuffers): nat {
    match b case NLast(_, _, _) => 1 case NCon(l, r) => 1 + Size(l) + Size(r)
  }

  // No exception is raised while the body is generated.
  predicate Generable(f: NFn) {
    match f
    case NReturns(t) => InjError(t).None?
    case NFunction(_, t, rest) => PrjError(t).None? && Generable(rest)
    case NBuf(_, b, rest) => GenerableBuffers(b) && Generable(rest)
  }

  // Nested to the right, every buffer projectable.
  predicate GenerableBuffers(b: NBuffers) {
    match b
    case NLast(_, _, t) => PrjError(t).None?
    case NCon(l, r) => l.NLast? && PrjError(l.ty).None? && GenerableBuffers(r)
  }

  /** The first exception, in the order the original runs into them. */
  function BufError(f: NFn): Option<Error> {
    match f
    case NReturns(t) => InjError(t)
    case NFunction(_, t, rest) => if PrjError(t).Some? then PrjError(t) else BufError(rest)
    case NBuf(_, b, rest) => if BuffersError(b).Some? then BuffersError(b) else BufError(rest)
  }

  function BuffersError(b: NBuffers): Option<Error> {
    match b
    case NLast(_, _, t) => PrjError(t)
    case NCon(NLast(_, _, t), r) => if PrjError(t).Some? then PrjError(t) else BuffersError(r)
    case NCon(_, _) => Some(Unsupported("not implemented!(Cbuf_generate_c.fn)"))
  }

  lemma {:induction false} NoBufError(f: NFn)
    ensures BufError(f).None? <==> Generable(f)
  {
    match f
    case NReturns(_) =>
    case NFunction(_, _, rest) => NoBufError(rest);
    case NBuf(_, b, rest) => NoBuffersError(b); NoBufError(rest);
  }

  lemma {:induction false} NoBuffersError(b: NBuffers)
    ensures BuffersError(b).None? <==> GenerableBuffers(b)
  {
    match b
    case NLast(_, _, _) =>
    case NCon(_, r) => NoBuffersError(r);
  }

  /** `body`: argument expressions are kept last one first. */
  function BufBody(cfg: Config, vars: seq<CExp>, f: NFn, n: nat): (CComp, nat)
    requires Generable(f)
    decreases f, 0, 0
  {
    match f
    case NReturns(t) => Finish(cfg, vars, t, n)
    case NFunction(x, t, rest) =>
      (match Prj(t, t, Local(x, VALUE), n)
       case None => BufBody(cfg, vars, rest, n)
       case Some((projected, n1)) => Bind(projected, t, BufBodyAfter(cfg, vars, rest), n1))
    case NBuf(pos, b, rest) => BuffersBody(cfg, pos, vars, [], b, rest, n)
  }

  function BufBodyAfter(cfg: Config, vars: seq<CExp>, f: NFn): Cont
    requires Generable(f)
    decreases f, 0, 1
  {
    (x': CExp, j: nat) => BufBody(cfg, [x'] + vars, f, j)
  }

  /** Where the buffers go among the arguments; both lists are last one first. */
  function Place(pos: CPosition, vars: seq<CExp>, bufvars: seq<CExp>): seq<CExp> {
    match pos case First => vars + bufvars case Last => bufvars + vars
  }

  /** `body_for_cbuffers`. A buffer in front that projects to nothing restarts the
      buffer list from the other arguments, as in the original. */
  function BuffersBody(cfg: Config, pos: CPosition, vars: seq<CExp>, bufvars: seq<CExp>, b: NBuffers, rest: NFn, n: nat): (CComp, nat)
    requires GenerableBuffers(b) && Generable(rest)
    decreases rest, 2 * Size(b), 0
  {
    match b
    case NLast(x, _, t) =>
      (match Prj(t, t, Local(x, VALUE), n)
       case None => BufBody(cfg, Place(pos, vars, bufvars), rest, n)
       case Some((projected, n1)) => Bind(projected, t, LastAfter(cfg, pos, vars, bufvars, rest), n1))
    case NCon(NLast(x, _, t), r) =>
      (match Prj(t, t, Local(x, VALUE), n)
       case None => BuffersBody(cfg, pos, vars, vars, r, rest, n)
       case Some((projected, n1)) => Bind(projected, t, ConAfter(cfg, pos, vars, bufvars, r, rest), n1))
  }

  function LastAfter(cfg: Config, pos: CPosition, vars: seq<CExp>, bufvars: seq<CExp>, rest: NFn): Cont
    requires Generable(rest)
    decreases rest, 1, 0
  {
    (x': CExp, j: nat) => BufBody(cfg, Place(pos, vars, [x'] + bufvars), rest, j)
  }

  function ConAfter(cfg: Config, pos: CPosition, vars: seq<CExp>, bufvars: seq<CExp>, r: NBuffers, rest: NFn): Cont
    requires GenerableBuffers(r) && Generable(rest)
    decreases rest, 2 * Size(r), 1
  {
    (x': CExp, j: nat) => BuffersBody(cfg, pos, vars, [x'] + bufvars, r, rest, j)
  }

  /** `Cbuf_generate_c.fn`; Cbuf stubs never release the lock. */
  function GenerateBuf(errno: ErrnoPolicy, cname: string, stubName: string, f: BufFn, n: nat): Result<CFundef> {
    var (f', n1) := NameBufParams(f, n);
    match BufError(f')
    case Some(e) => Raises(e)
    case None =>
      NoBufError(f');
      Ok(CFundef(stubName, BufValueParams(f'), VALUE, BufBody(Config(cname, false, errno), [], f', n1).0))
  }

  // ---- Reference meaning ----

  // A description with return buffers, taken apart: `ts @-> retbuf ~cposition bufs (returning ret)`.
  function RetBuf(ts: seq<Typ>, pos: CPosition, bufs: CBuffers, ret: Typ): BufFn {
    if ts == [] then BBuffers(pos, bufs, BReturns(ret)) else BFunction(ts[0], RetBuf(ts[1..], pos, bufs, ret))
  }

  // `buffer i1 t1 @* ... @* buffer ik tk`, which nests to the right.
  function Nested(bufs: seq<(nat, Typ)>): CBuffers
    requires bufs != []
  {
    if |bufs| == 1 then LastBuf(bufs[0].0, bufs[0].1)
    else ConBuf(LastBuf(bufs[0].0, bufs[0].1), Nested(bufs[1..]))
  }

  // The C arguments of a call with buffers, by place: at First the buffers come before the
  // other arguments, at Last after them, each group in its own order.
  function PlaceValues(pos: CPosition, cargs: seq<Val>, bufs: seq<Val>): (passed: seq<Val>)
    ensures |passed| == |cargs| + |bufs|
    ensures pos.First? ==> forall i :: 0 <= i < |bufs| ==> passed[i] == bufs[i]
    ensures pos.First? ==> forall i :: 0 <= i < |cargs| ==> passed[|bufs| + i] == cargs[i]
    ensures pos.Last? ==> forall i :: 0 <= i < |cargs| ==> passed[i] == cargs[i]
    ensures pos.Last? ==> forall i :: 0 <= i < |bufs| ==> passed[|cargs| + i] == bufs[i]
  {
    match pos case First => bufs + cargs case Last => cargs + bufs
  }

  /** The buffers the original passes, `bdone` of them projected so far: one without a C
      argument is dropped at the end, but in front of others it drops those collected and
      starts again from the arguments. */
  function PassedBuffers(m: Machine, done: seq<Val>, bdone: seq<Val>, ts: seq<Typ>, vs: seq<Val>, w: World): (seq<Val>, World)
    requires |ts| == |vs| && forall t :: t in ts ==> PrjError(t).None?
    decreases |ts|
  {
    if ts == [] then (bdone, w)
    else if HasNoArgument(ts[0]) then PassedBuffers(m, done, if |ts| == 1 then bdone else done, ts[1..], vs[1..], w)
    else var (c, w1) := Project(m, ts[0], vs[0], w); PassedBuffers(m, done, bdone + [c], ts[1..], vs[1..], w1)
  }

  /** What the stub does, for any buffers. */
  function BufStubMeans(m: Machine, cfg: Config, ts: seq<Typ>, pos: CPosition, bts: seq<Typ>, ret: Typ,
                        args: seq<Val>, bargs: seq<Val>, w: World): (Val, World)
    requires |ts| == |args| && |bts| == |bargs| && InjError(ret).None?
    requires (forall t :: t in ts ==> PrjError(t).None?) && forall t :: t in bts ==> PrjError(t).None?
  {
    var (cargs, w1) := ProjectAll(m, ts, args, w);
    var (bufs, w2) := PassedBuffers(m, cargs, [], bts, bargs, w1);
    CallSpec(m, cfg, PlaceValues(pos, cargs, bufs), ret, w2)
  }

  // How many buffers come up to and including the last one without a C argument that has
  // others behind it.
  function Dropped(ts: seq<Typ>): (k: nat)
    ensures k <= |ts|
  {
    if |ts| <= 1 then 0
    else if Dropped(ts[1..]) > 0 then Dropped(ts[1..]) + 1
    else if HasNoArgument(ts[0]) then 1
    else 0
  }

  lemma {:induction false} NothingDropped(ts: seq<Typ>)
    ensures Dropped(ts) == 0 <==> forall i :: 0 <= i < |ts| - 1 ==> !HasNoArgument(ts[i])
    decreases |ts|
  {
    hide HasNoArgument;
    if |ts| > 1 {
      NothingDropped(ts[1..]);
      assert forall i :: 0 <= i < |ts| - 2 ==> ts[1..][i] == ts[i + 1];
      if forall i :: 0 <= i < |ts| - 2 ==> !HasNoArgument(ts[1..][i]) {
        forall i | 0 < i < |ts| - 1 ensures !HasNoArgument(ts[i]) { assert ts[i] == ts[1..][i - 1]; }
      }
    }
  }

  // One value projected, or none.
  function ProjectOne(m: Machine, t: Typ, v: Val, w: World): (seq<Val>, World)
    requires PrjError(t).None?
  {
    if HasNoArgument(t) then ([], w) else var (c, w1) := Project(m, t, v, w); ([c], w1)
  }

  lemma ProjectAllCons(m: Machine, t: Typ, ts: seq<Typ>, v: Val, vs: seq<Val>, w: World)
    requires |ts| == |vs| && PrjError(t).None? && forall u :: u in ts ==> PrjError(u).None?
    ensures var (c, w0) := ProjectOne(m, t, v, w); var (cs, w1) := ProjectAll(m, ts, vs, w0);
            ProjectAll(m, [t] + ts, [v] + vs, w) == (c + cs, w1)
  {
    hide Project;
    hide PrjError;
    hide HasNoArgument;
    assert ([t] + ts)[1..] == ts && ([v] + vs)[1..] == vs;
    var (c, w0) := ProjectOne(m, t, v, w);
    var cs := ProjectAll(m, ts, vs, w0).0;
    assert [] + cs == cs;
  }

  lemma {:induction false} ProjectSplit(m: Machine, front: seq<Typ>, back: seq<Typ>, fs: seq<Val>, bs: seq<Val>, w: World)
    requires |front| == |fs| && |back| == |bs|
    requires (forall t :: t in front ==> PrjError(t).None?) && forall t :: t in back ==> PrjError(t).None?
    ensures var (before, w1) := ProjectAll(m, front, fs, w);
            var (after, w2) := ProjectAll(m, back, bs, w1);
            ProjectAll(m, front + back, fs + bs, w) == (before + after, w2)
    decreases |front|
  {
    hide PrjError;
    hide ProjectOne;
    if front == [] {
      hide Project;
      hide HasNoArgument;
      var after := ProjectAll(m, back, bs, w).0;
      assert front + back == back && fs + bs == bs && [] + after == after;
    } else {
      hide ProjectAll;
      assert front[0] in front;
      var (c, w0) := ProjectOne(m, front[0], fs[0], w);
      ProjectSplit(m, front[1..], back, fs[1..], bs, w0);
      ProjectAllCons(m, front[0], front[1..], fs[0], fs[1..], w);
      ProjectAllCons(m, front[0], front[1..] + back, fs[0], fs[1..] + bs, w);
      assert [front[0]] + front[1..] == front && [fs[0]] + fs[1..] == fs;
      assert [front[0]] + (front[1..] + back) == front + back && [fs[0]] + (fs[1..] + bs) == fs + bs;
      var (before, w1) := ProjectAll(m, front[1..], fs[1..], w0);
      var after := ProjectAll(m, back, bs, w1).0;
      assert c + (before + after) == (c + before) + after;
    }
  }

  // One buffer of several.
  lemma PassedCons(m: Machine, done: seq<Val>, bdone: seq<Val>, t: Typ, ts: seq<Typ>, v: Val, vs: seq<Val>, w: World)
    requires |ts| == |vs| && PrjError(t).None? && forall u :: u in ts ==> PrjError(u).None?
    ensures var (c, w0) := ProjectOne(m, t, v, w);
            PassedBuffers(m, done, bdone, [t] + ts, [v] + vs, w) ==
              PassedBuffers(m, done, if HasNoArgument(t) && ts != [] then done else bdone + c, ts, vs, w0)
  {
    hide Project;
    hide PrjError;
    hide HasNoArgument;
    assert ([t] + ts)[1..] == ts && ([v] + vs)[1..] == vs;
    assert bdone + [] == bdone;
  }

  lemma DroppedCons(t: Typ, ts: seq<Typ>)
    ensures Dropped([t] + ts) == if ts == [] then 0 else if Dropped(ts) > 0 then Dropped(ts) + 1 else if HasNoArgument(t) then 1 else 0
  {
    hide HasNoArgument;
    assert ([t] + ts)[1..] == ts;
  }

  // The buffers passed: all of them, or the arguments and those after the ones dropped.
  lemma {:induction false} PassedSplit(m: Machine, done: seq<Val>, bdone: seq<Val>, front: seq<Typ>, back: seq<Typ>,
                                       fs: seq<Val>, bs: seq<Val>, w: World)
    requires |front| == |fs| && |back| == |bs| && Dropped(front + back) == |front|
    requires (forall t :: t in front ==> PrjError(t).None?) && forall t :: t in back ==> PrjError(t).None?
    ensures var (before, w1) := ProjectAll(m, front, fs, w);
            var (after, w2) := ProjectAll(m, back, bs, w1);
            PassedBuffers(m, done, bdone, front + back, fs + bs, w) == ((if front == [] then bdone else done) + after, w2)
    decreases |front| + |back|
  {
    hide PrjError;
    hide ProjectOne;
    hide HasNoArgument;
    hide Dropped;
    if front != [] {
      hide ProjectAll;
      hide PassedBuffers;
      var t, rest := front[0], front[1..];
      assert t in front;
      assert front == [t] + rest && fs == [fs[0]] + fs[1..];
      assert front + back == [t] + (rest + back) && fs + bs == [fs[0]] + (fs[1..] + bs);
      var (c, w0) := ProjectOne(m, t, fs[0], w);
      DroppedCons(t, rest + back);
      PassedCons(m, done, bdone, t, rest + back, fs[0], fs[1..] + bs, w);
      ProjectAllCons(m, t, rest, fs[0], fs[1..], w);
      var next := if HasNoArgument(t) && rest + back != [] then done else bdone + c;
      PassedSplit(m, done, next, rest, back, fs[1..], bs, w0);
    } else if back != [] {
      assert front + back == back && fs + bs == bs;
      KeptOne(m, done, bdone, back, bs, w);
      hide ProjectAll;
      hide PassedBuffers;
      var (c, w0) := ProjectOne(m, back[0], bs[0], w);
      assert [] + back[1..] == back[1..] && [] + bs[1..] == bs[1..];
      PassedSplit(m, done, bdone + c, [], back[1..], [], bs[1..], w0);
      var rest := ProjectAll(m, back[1..], bs[1..], w0).0;
      assert (bdone + c) + rest == bdone + (c + rest);
      NoneProjected(m, w0);
      NoneProjected(m, w);
    } else {
      assert front + back == [] && fs + bs == [] && bdone + [] == bdone;
    }
  }

  lemma NoneProjected(m: Machine, w: World)
    ensures ProjectAll(m, [], [], w) == ([], w)
  {
  }

  // A buffer that is kept.
  lemma KeptOne(m: Machine, done: seq<Val>, bdone: seq<Val>, ts: seq<Typ>, vs: seq<Val>, w: World)
    requires |ts| == |vs| && ts != [] && Dropped(ts) == 0 && forall t :: t in ts ==> PrjError(t).None?
    ensures Dropped(ts[1..]) == 0 && ts[0] in ts
    ensures var (c, w0) := ProjectOne(m, ts[0], vs[0], w); var (cs, w1) := ProjectAll(m, ts[1..], vs[1..], w0);
            && PassedBuffers(m, done, bdone, ts, vs, w) == PassedBuffers(m, done, bdone + c, ts[1..], vs[1..], w0)
            && ProjectAll(m, ts, vs, w) == (c + cs, w1)
  {
    hide PrjError;
    hide HasNoArgument;
    hide Project;
    hide ProjectOne;
    hide PassedBuffers;
    hide ProjectAll;
    hide Dropped;
    assert ts[0] in ts;
    assert ts == [ts[0]] + ts[1..] && vs == [vs[0]] + vs[1..];
    DroppedCons(ts[0], ts[1..]);
    if ts[1..] == [] { NoneDropped(); }
    PassedCons(m, done, bdone, ts[0], ts[1..], vs[0], vs[1..], w);
    ProjectAllCons(m, ts[0], ts[1..], vs[0], vs[1..], w);
  }

  lemma NoneDropped()
    ensures Dropped([]) == 0
  {
  }

  /** The stub does what it is for exactly when no buffer without a C argument has others
      behind it, or the arguments happen to be what was projected for the buffers dropped. */
  lemma PassedAsMeantIff(m: Machine, done: seq<Val>, ts: seq<Typ>, vs: seq<Val>, w: World)
    requires |ts| == |vs| && forall t :: t in ts ==> PrjError(t).None?
    ensures PassedBuffers(m, done, [], ts, vs, w).1 == ProjectAll(m, ts, vs, w).1
    ensures var k := Dropped(ts);
            PassedBuffers(m, done, [], ts, vs, w).0 == ProjectAll(m, ts, vs, w).0 <==>
              (forall i :: 0 <= i < |ts| - 1 ==> !HasNoArgument(ts[i])) || done == ProjectAll(m, ts[..k], vs[..k], w).0
  {
    hide Project;
    hide HasNoArgument;
    hide PrjError;
    hide PassedBuffers;
    hide Dropped;
    var k := Dropped(ts);
    NothingDropped(ts);
    assert ts[..k] + ts[k..] == ts && vs[..k] + vs[k..] == vs;
    ProjectSplit(m, ts[..k], ts[k..], vs[..k], vs[k..], w);
    PassedSplit(m, done, [], ts[..k], ts[k..], vs[..k], vs[k..], w);
    var (before, w1) := ProjectAll(m, ts[..k], vs[..k], w);
    var after := ProjectAll(m, ts[k..], vs[k..], w1).0;
    if k == 0 { assert ts[..k] == [] && before == [] && [] + after == after; } else { assert ts[..k] != []; SameFront(done, before, after); }
  }

  lemma SameFront(a: seq<Val>, b: seq<Val>, c: seq<Val>)
    ensures a + c == b + c <==> a == b
  {
    if a + c == b + c {
      assert |a| == |b| && (a + c)[..|a|] == a && (b + c)[..|b|] == b;
    }
  }

  // ---- The generated code meets it ----

  // The names and types of buffers nested to the right, in order.
  function Flatten(b: NBuffers): (r: seq<Param>)
    requires GenerableBuffers(b)
    ensures |r| > 0 && forall p :: p in r ==> PrjError(p.ty).None?
  {
    match b
    case NLast(x, _, t) => [Param(x, t)]
    case NCon(l, r) => [Param(l.x, l.ty)] + Flatten(r)
  }

  // Arguments, then buffers, then a result.
  predicate WellShaped(f: NFn) {
    match f
    case NReturns(_) => false
    case NFunction(_, t, rest) => PrjError(t).None? && WellShaped(rest)
    case NBuf(_, b, rest) => GenerableBuffers(b) && rest.NReturns? && InjError(rest.ret).None?
  }

  function Arguments(f: NFn): (r: seq<Param>)
    requires WellShaped(f)
    ensures forall p :: p in r ==> PrjError(p.ty).None?
  {
    match f
    case NFunction(x, t, rest) => [Param(x, t)] + Arguments(rest)
    case NBuf(_, _, _) => []
  }

  function BuffersOf(f: NFn): NFn
    requires WellShaped(f)
    ensures BuffersOf(f).NBuf? && WellShaped(BuffersOf(f))
  {
    match f case NFunction(_, _, rest) => BuffersOf(rest) case _ => f
  }

  lemma {:induction false} WellShapedIsGenerable(f: NFn)
    requires WellShaped(f)
    ensures Generable(f)
  {
    match f
    case NFunction(_, _, rest) => WellShapedIsGenerable(rest);
    case NBuf(_, _, _) =>
  }

  // The meaning with arguments `done` and buffers `bdone` projected so far.
  function BuffersFrom(m: Machine, cfg: Config, pos: CPosition, done: seq<Val>, bdone: seq<Val>,
                       ts: seq<Typ>, vs: seq<Val>, ret: Typ, w: World): Outcome
    requires |ts| == |vs| && InjError(ret).None? && forall t :: t in ts ==> PrjError(t).None?
  {
    var (bufs, w1) := PassedBuffers(m, done, bdone, ts, vs, w);
    var (v, w2) := CallSpec(m, cfg, PlaceValues(pos, done, bufs), ret, w1);
    Outcome(v, w2, ExitFor(cfg))
  }

  lemma BuffersFromVoid(m: Machine, cfg: Config, pos: CPosition, done: seq<Val>, bdone: seq<Val>,
                        ts: seq<Typ>, vs: seq<Val>, ret: Typ, w: World)
    requires |ts| == |vs| && ts != [] && InjError(ret).None? && (forall t :: t in ts ==> PrjError(t).None?) && HasNoArgument(ts[0])
    ensures BuffersFrom(m, cfg, pos, done, bdone, ts, vs, ret, w) ==
            BuffersFrom(m, cfg, pos, done, if |ts| == 1 then bdone else done, ts[1..], vs[1..], ret, w)
  {
    hide CallSpec;
    hide HasNoArgument;
    hide PrjError;
  }

  lemma BuffersFromNext(m: Machine, cfg: Config, pos: CPosition, done: seq<Val>, bdone: seq<Val>,
                        ts: seq<Typ>, vs: seq<Val>, ret: Typ, w: World)
    requires |ts| == |vs| && ts != [] && InjError(ret).None? && (forall t :: t in ts ==> PrjError(t).None?) && !HasNoArgument(ts[0])
    ensures ts[0] in ts && var (c, w1) := Project(m, ts[0], vs[0], w);
            BuffersFrom(m, cfg, pos, done, bdone, ts, vs, ret, w) == BuffersFrom(m, cfg, pos, done, bdone + [c], ts[1..], vs[1..], ret, w1)
  {
    hide CallSpec;
    hide HasNoArgument;
    hide PrjError;
    hide Project;
  }

  /** Binding one projection, whatever continuation follows. */
  lemma ProjectionStep(m: Machine, p: Param, vars: seq<CExp>, k: Cont, n: nat, env: Env, w: World)
      returns (r: CExp, j: nat, env1: Env, w1: World)
    requires PrjError(p.ty).None? && !HasNoArgument(p.ty) && p.x.Fresh? && p.x.n <= n
    ensures Prj(p.ty, p.ty, Local(p.x, VALUE), n).Some?
    ensures var (c, n1) := Prj(p.ty, p.ty, Local(p.x, VALUE), n).value;
            EvalComp(m, Bind(c, p.ty, k, n1).0, env, w) == EvalComp(m, k(r, j).0, env1, w1)
    ensures j > n && ExpBelow(r, j)
    ensures (EvalExp(m, r, env1), w1) == Project(m, p.ty, Lookup(env, p.x), w)
    ensures forall y: Name {:trigger Lookup(env1, y)} :: (y.Fresh? ==> y.n <= n) ==> Lookup(env1, y) == Lookup(env, y)
  {
    hide Project;
    hide Prj;
    var x := Local(p.x, VALUE);
    PrjMeaning(m, p.ty, p.ty, x, n, env, w);
    var (c, n1) := Prj(p.ty, p.ty, x, n).value;
    PrjEndsPlainly(p.ty, x, n);
    r, j := Tail(c, p.ty, n1).0, Tail(c, p.ty, n1).1;
    env1, w1 := After(m, c, p.ty, n1, env, w).0, After(m, c, p.ty, n1, env, w).1;
    BindMeaning(m, c, p.ty, k, n1, env, w);
  }

  lemma PrjEndsPlainly(t: Typ, x: CExp, n: nat)
    requires PrjError(t).None?
    ensures Prj(t, t, x, n).Some? ==> !EndsInReturn(Prj(t, t, x, n).value.0)
  {
  }

  lemma Placed(m: Machine, pos: CPosition, vars: seq<CExp>, bufvars: seq<CExp>, env: Env)
    ensures EvalExps(m, Reverse(Place(pos, vars, bufvars)), env) ==
            PlaceValues(pos, EvalExps(m, Reverse(vars), env), EvalExps(m, Reverse(bufvars), env))
  {
    hide Reverse;
    hide EvalExp;
    ReverseAppend(vars, bufvars);
    ReverseAppend(bufvars, vars);
    EvalExpsAppend(m, Reverse(vars), Reverse(bufvars), env);
    EvalExpsAppend(m, Reverse(bufvars), Reverse(vars), env);
  }

  lemma EvalExpsAppend(m: Machine, a: seq<CExp>, b: seq<CExp>, env: Env)
    ensures EvalExps(m, a + b, env) == EvalExps(m, a, env) + EvalExps(m, b, env)
  {
  }

  lemma {:induction false} ReverseAppend<T>(a: seq<T>, b: seq<T>)
    ensures Reverse(a + b) == Reverse(b) + Reverse(a)
  {
    if a == [] {
      assert a + b == b;
    } else {
      ReverseAppend(a[1..], b);
      assert (a + b)[1..] == a[1..] + b;
      assert Reverse(b) + Reverse(a[1..]) + [a[0]] == Reverse(b) + (Reverse(a[1..]) + [a[0]]);
    }
  }

  // With nothing left to project, the call.
  lemma AllPassed(m: Machine, cfg: Config, pos: CPosition, vars: seq<CExp>, bufvars: seq<CExp>, ret: Typ, n: nat, env: Env, w: World)
    requires InjError(ret).None? && KeepsValues(m)
    requires (forall e :: e in vars ==> ExpBelow(e, n)) && forall e :: e in bufvars ==> ExpBelow(e, n)
    ensures EvalComp(m, BufBody(cfg, Place(pos, vars, bufvars), NReturns(ret), n).0, env, w) ==
            BuffersFrom(m, cfg, pos, EvalExps(m, Reverse(vars), env), EvalExps(m, Reverse(bufvars), env), [], [], ret, w)
  {
    hide CallSpec;
    hide Finish;
    hide PlaceValues;
    hide ExpBelow;
    hide EvalComp;
    var placed := Place(pos, vars, bufvars);
    PlacedBelow(pos, vars, bufvars, n);
    BodyOfReturns(cfg, placed, ret, n);
    FinishMeaning(m, cfg, placed, ret, n, env, w);
    Placed(m, pos, vars, bufvars, env);
  }

  lemma LastBufferMeaning(m: Machine, cfg: Config, pos: CPosition, vars: seq<CExp>, bufvars: seq<CExp>,
                          p: Param, size: nat, ret: Typ, n: nat, arg: Val, env: Env, w: World)
    requires PrjError(p.ty).None? && InjError(ret).None? && KeepsValues(m)
    requires p.x.Fresh? && p.x.n <= n && Lookup(env, p.x) == arg
    requires (forall e :: e in vars ==> ExpBelow(e, n)) && forall e :: e in bufvars ==> ExpBelow(e, n)
    ensures GenerableBuffers(NLast(p.x, size, p.ty))
    ensures EvalComp(m, BuffersBody(cfg, pos, vars, bufvars, NLast(p.x, size, p.ty), NReturns(ret), n).0, env, w) ==
            BuffersFrom(m, cfg, pos, EvalExps(m, Reverse(vars), env), EvalExps(m, Reverse(bufvars), env), [p.ty], [arg], ret, w)
  {
    hide Project;
    hide Prj;
    hide HasNoArgument;
    hide PrjError;
    hide InjError;
    hide BufBody;
    hide Place;
    hide ExpBelow;
    hide BuffersFrom;
    var done, bdone := EvalExps(m, Reverse(vars), env), EvalExps(m, Reverse(bufvars), env);
    NothingToProject(p.ty, p.ty, Local(p.x, VALUE), n);
    assert [p.ty][1..] == [] && [arg][1..] == [];
    if HasNoArgument(p.ty) {
      BuffersFromVoid(m, cfg, pos, done, bdone, [p.ty], [arg], ret, w);
      AllPassed(m, cfg, pos, vars, bufvars, ret, n, env, w);
    } else {
      BuffersFromNext(m, cfg, pos, done, bdone, [p.ty], [arg], ret, w);
      var k := LastAfter(cfg, pos, vars, bufvars, NReturns(ret));
      var r, j, env1, w1 := ProjectionStep(m, p, vars, k, n, env, w);
      Step(m, vars, bufvars, r, n, j, env, env1);
      assert k(r, j) == BufBody(cfg, Place(pos, vars, [r] + bufvars), NReturns(ret), j);
      hide EvalComp;
      AllPassed(m, cfg, pos, vars, [r] + bufvars, ret, j, env1, w1);
    }
  }

  lemma BodyOfReturns(cfg: Config, vars: seq<CExp>, ret: Typ, j: nat)
    requires InjError(ret).None?
    ensures BufBody(cfg, vars, NReturns(ret), j) == Finish(cfg, vars, ret, j)
  {
  }

  lemma PlacedBelow(pos: CPosition, vars: seq<CExp>, bufvars: seq<CExp>, j: nat)
    requires (forall e :: e in vars ==> ExpBelow(e, j)) && forall e :: e in bufvars ==> ExpBelow(e, j)
    ensures forall e :: e in Place(pos, vars, bufvars) ==> ExpBelow(e, j)
  {
  }

  lemma {:induction false} BuffersBodyMeaning(m: Machine, cfg: Config, pos: CPosition, vars: seq<CExp>, bufvars: seq<CExp>,
                                              b: NBuffers, ret: Typ, n: nat, args: seq<Val>, env: Env, w: World)
    requires GenerableBuffers(b) && InjError(ret).None? && KeepsValues(m)
    requires CStub.Bound(env, Flatten(b), args, n)
    requires (forall e :: e in vars ==> ExpBelow(e, n)) && forall e :: e in bufvars ==> ExpBelow(e, n)
    ensures EvalComp(m, BuffersBody(cfg, pos, vars, bufvars, b, NReturns(ret), n).0, env, w) ==
            BuffersFrom(m, cfg, pos, EvalExps(m, Reverse(vars), env), EvalExps(m, Reverse(bufvars), env),
                        Types(Flatten(b)), args, ret, w)
    decreases b
  {
    hide Project;
    hide Prj;
    hide CallSpec;
    hide Finish;
    hide PrjError;
    hide InjError;
    hide ExpBelow;
    hide HasNoArgument;
    hide Bind;
    hide BuffersFrom;
    var p := Flatten(b)[0];
    assert p in Flatten(b);
    match b
    case NLast(_, _, _) =>
      LastBufferMeaning(m, cfg, pos, vars, bufvars, p, b.size, ret, n, args[0], env, w);
      assert Types(Flatten(b)) == [p.ty] && args == [args[0]];
    case NCon(_, rest) =>
      FlattenStep(b);
      FlatTypes(b);
      NothingToProject(p.ty, p.ty, Local(p.x, VALUE), n);
      var done, bdone, ts := EvalExps(m, Reverse(vars), env), EvalExps(m, Reverse(bufvars), env), Types(Flatten(b));
      assert ts[1..] == Types(Flatten(rest)) && |ts| > 1;
      if HasNoArgument(p.ty) {
        BuffersFromVoid(m, cfg, pos, done, bdone, ts, args, ret, w);
        RestBound(b, args, n, n, env, env);
        assert BuffersBody(cfg, pos, vars, bufvars, b, NReturns(ret), n) == BuffersBody(cfg, pos, vars, vars, rest, NReturns(ret), n);
        hide Flatten;
        hide GenerableBuffers;
        BuffersBodyMeaning(m, cfg, pos, vars, vars, rest, ret, n, args[1..], env, w);
      } else {
        BuffersFromNext(m, cfg, pos, done, bdone, ts, args, ret, w);
        var r, j, env1, w1 := ProjectionStep(m, p, vars, ConAfter(cfg, pos, vars, bufvars, rest, NReturns(ret)), n, env, w);
        Step(m, vars, bufvars, r, n, j, env, env1);
        RestBound(b, args, n, j, env, env1);
        hide Flatten;
        hide GenerableBuffers;
        BuffersBodyMeaning(m, cfg, pos, vars, [r] + bufvars, rest, ret, j, args[1..], env1, w1);
      }
  }

  lemma FlattenStep(b: NBuffers)
    requires GenerableBuffers(b) && b.NCon?
    ensures GenerableBuffers(b.right) && Flatten(b) == [Flatten(b)[0]] + Flatten(b.right) && Flatten(b)[0] == Param(b.left.x, b.left.ty)
    ensures Types(Flatten(b)) == [Flatten(b)[0].ty] + Types(Flatten(b.right))
  {
    hide PrjError;
    hide HasNoArgument;
    assert Flatten(b) == [Param(b.left.x, b.left.ty)] + Flatten(b.right);
    hide Flatten;
    TypesCons(Param(b.left.x, b.left.ty), Flatten(b.right));
  }

  lemma TypesCons(p: Param, rest: seq<Param>)
    ensures Types([p] + rest) == [p.ty] + Types(rest)
  {
  }

  // The other buffers are still bound after the first one's projection.
  lemma RestBound(b: NBuffers, args: seq<Val>, n: nat, j: nat, env: Env, env1: Env)
    requires GenerableBuffers(b) && b.NCon? && CStub.Bound(env, Flatten(b), args, n) && n <= j
    requires forall y: Name {:trigger Lookup(env1, y)} :: (y.Fresh? ==> y.n <= n) ==> Lookup(env1, y) == Lookup(env, y)
    ensures GenerableBuffers(b.right) && CStub.Bound(env1, Flatten(b.right), args[1..], j)
  {
    FlattenStep(b);
    hide Flatten;
    hide GenerableBuffers;
    var all, rest := Flatten(b), Flatten(b.right);
    forall i | 0 <= i < |rest| ensures rest[i].x.Fresh? && rest[i].x.n <= j && Lookup(env1, rest[i].x) == args[1..][i] {
      assert rest[i] == all[i + 1];
    }
  }

  lemma Step(m: Machine, vars: seq<CExp>, bufvars: seq<CExp>, r: CExp, n: nat, j: nat, env: Env, env1: Env)
    requires (forall e :: e in vars ==> ExpBelow(e, n)) && (forall e :: e in bufvars ==> ExpBelow(e, n))
    requires n < j && ExpBelow(r, j)
    requires forall y: Name {:trigger Lookup(env1, y)} :: (y.Fresh? ==> y.n <= n) ==> Lookup(env1, y) == Lookup(env, y)
    ensures (forall e :: e in vars ==> ExpBelow(e, j)) && (forall e :: e in [r] + bufvars ==> ExpBelow(e, j))
    ensures EvalExps(m, Reverse(vars), env1) == EvalExps(m, Reverse(vars), env)
    ensures EvalExps(m, Reverse([r] + bufvars), env1) == EvalExps(m, Reverse(bufvars), env) + [EvalExp(m, r, env1)]
  {
    StillBelow(vars, r, n, j);
    StillBelow(bufvars, r, n, j);
    assert forall e :: e in vars ==> e in [r] + vars;
    StillTheSame(m, vars, n, env, env1);
    StillTheSame(m, bufvars, n, env, env1);
    ReverseCons(m, r, bufvars, env1);
  }

  lemma FlatTypes(b: NBuffers)
    requires GenerableBuffers(b)
    ensures forall t :: t in Types(Flatten(b)) ==> PrjError(t).None?
  {
    hide PrjError;
    hide Flatten;
    forall t | t in Types(Flatten(b)) ensures PrjError(t).None? {
      var i :| 0 <= i < |Flatten(b)| && Types(Flatten(b))[i] == t;
      assert Flatten(b)[i] in Flatten(b);
    }
  }

  ghost predicate BufBound(env: Env, f: NFn, args: seq<Val>, bargs: seq<Val>, n: nat)
    requires WellShaped(f)
  {
    && CStub.Bound(env, Arguments(f), args, n)
    && CStub.Bound(env, Flatten(BuffersOf(f).bufs), bargs, n)
  }

  // The meaning from any point of the description on.
  function BufSpecFrom(m: Machine, cfg: Config, done: seq<Val>, f: NFn, args: seq<Val>, bargs: seq<Val>, w: World): Outcome
    requires WellShaped(f) && |args| == |Arguments(f)| && |bargs| == |Flatten(BuffersOf(f).bufs)|
    decreases f
  {
    match f
    case NFunction(_, t, rest) =>
      if HasNoArgument(t) then BufSpecFrom(m, cfg, done, rest, args[1..], bargs, w)
      else var (c, w1) := Project(m, t, args[0], w); BufSpecFrom(m, cfg, done + [c], rest, args[1..], bargs, w1)
    case NBuf(pos, b, rest) => BuffersFrom(m, cfg, pos, done, [], Types(Flatten(b)), bargs, rest.ret, w)
  }

  lemma {:induction false} BufBodyMeaning(m: Machine, cfg: Config, vars: seq<CExp>, f: NFn, n: nat,
                                          args: seq<Val>, bargs: seq<Val>, env: Env, w: World)
    requires WellShaped(f) && Generable(f) && KeepsValues(m) && BufBound(env, f, args, bargs, n)
    requires forall e :: e in vars ==> ExpBelow(e, n)
    ensures EvalComp(m, BufBody(cfg, vars, f, n).0, env, w) ==
            BufSpecFrom(m, cfg, EvalExps(m, Reverse(vars), env), f, args, bargs, w)
    decreases f
  {
    hide Project;
    hide Prj;
    hide CallSpec;
    hide BuffersBody;
    hide BuffersFrom;
    hide PrjError;
    hide ExpBelow;
    hide Bind;
    match f
    case NBuf(pos, b, rest) =>
      BuffersBodyMeaning(m, cfg, pos, vars, [], b, rest.ret, n, bargs, env, w);
      assert EvalExps(m, Reverse([]), env) == [];
    case NFunction(x, t, rest) =>
      assert Arguments(f)[1..] == Arguments(rest);
      var p := Arguments(f)[0];
      NothingToProject(t, t, Local(x, VALUE), n);
      forall i | 0 <= i < |Arguments(rest)| ensures Arguments(rest)[i] == Arguments(f)[i + 1] {}
      if HasNoArgument(t) {
        BufBodyMeaning(m, cfg, vars, rest, n, args[1..], bargs, env, w);
      } else {
        var r, j, env1, w1 := ProjectionStep(m, p, vars, BufBodyAfter(cfg, vars, rest), n, env, w);
        Step(m, vars, vars, r, n, j, env, env1);
        BufBodyMeaning(m, cfg, [r] + vars, rest, j, args[1..], bargs, env1, w1);
      }
  }

  function ArgTypes(f: NFn): (r: seq<Typ>)
    requires WellShaped(f)
    ensures forall t :: t in r ==> PrjError(t).None?
  {
    var ps := Arguments(f);
    assert forall i :: 0 <= i < |ps| ==> ps[i] in ps;
    Types(ps)
  }

  lemma {:induction false} BufSpecFromProjects(m: Machine, cfg: Config, done: seq<Val>, f: NFn, args: seq<Val>, bargs: seq<Val>, w: World)
    requires WellShaped(f) && |args| == |Arguments(f)| && |bargs| == |Flatten(BuffersOf(f).bufs)|
    ensures var (cs, w1) := ProjectAll(m, ArgTypes(f), args, w);
            var NBuf(pos, b, rest) := BuffersOf(f);
            BufSpecFrom(m, cfg, done, f, args, bargs, w) ==
              BuffersFrom(m, cfg, pos, done + cs, [], Types(Flatten(b)), bargs, rest.ret, w1)
    decreases f
  {
    hide Project;
    hide BuffersFrom;
    match f
    case NBuf(_, _, _) => assert done + [] == done;
    case NFunction(_, t, rest) =>
      assert Types(Arguments(f))[1..] == Types(Arguments(rest));
      if HasNoArgument(t) {
        BufSpecFromProjects(m, cfg, done, rest, args[1..], bargs, w);
      } else {
        var (c, w1) := Project(m, t, args[0], w);
        BufSpecFromProjects(m, cfg, done + [c], rest, args[1..], bargs, w1);
        var (cs, w2) := ProjectAll(m, ArgTypes(rest), args[1..], w1);
        assert done + [c] + cs == done + ([c] + cs);
      }
  }

  /** From a well-shaped named description and an environment binding its names. */
  lemma ShapedBodyMeaning(m: Machine, cfg: Config, f: NFn, n: nat, args: seq<Val>, bargs: seq<Val>, env: Env, w: World)
    requires WellShaped(f) && Generable(f) && KeepsValues(m) && BufBound(env, f, args, bargs, n)
    ensures var NBuf(pos, b, rest) := BuffersOf(f);
            var (v, w1) := BufStubMeans(m, cfg, ArgTypes(f), pos, Types(Flatten(b)), rest.ret, args, bargs, w);
            EvalComp(m, BufBody(cfg, [], f, n).0, env, w) == Outcome(v, w1, ExitFor(cfg))
  {
    hide CallSpec;
    hide BufBody;
    hide BufSpecFrom;
    var NBuf(pos, b, rest) := BuffersOf(f);
    BufBodyMeaning(m, cfg, [], f, n, args, bargs, env, w);
    assert EvalExps(m, Reverse([]), env) == [];
    BufSpecFromProjects(m, cfg, [], f, args, bargs, w);
    var (cs, w1) := ProjectAll(m, ArgTypes(f), args, w);
    assert [] + cs == cs;
  }

  ghost predicate Bufferable(bufs: seq<(nat, Typ)>) {
    bufs != [] && forall i :: 0 <= i < |bufs| ==> PrjError(bufs[i].1).None?
  }

  function BufTypes(bufs: seq<(nat, Typ)>): (r: seq<Typ>)
    ensures |r| == |bufs| && forall i :: 0 <= i < |bufs| ==> r[i] == bufs[i].1
  {
    seq(|bufs|, i requires 0 <= i < |bufs| => bufs[i].1)
  }

  lemma {:induction false} NamedNested(bufs: seq<(nat, Typ)>, n: nat)
    requires Bufferable(bufs)
    ensures var (b, j) := NameBuffers(Nested(bufs), n);
            && GenerableBuffers(b) && j == n + |bufs| && |Flatten(b)| == |bufs|
            && forall i :: 0 <= i < |bufs| ==> Flatten(b)[i] == Param(Fresh(n + 1 + i), bufs[i].1)
    decreases |bufs|
  {
    hide PrjError;
    hide StripViews;
    if |bufs| == 1 {
      assert NameBuffers(Nested(bufs), n) == (NLast(Fresh(n + 1), bufs[0].0, bufs[0].1), n + 1);
    } else {
      assert Bufferable(bufs[1..]);
      NamedNested(bufs[1..], n + 1);
      var (r, j) := NameBuffers(Nested(bufs[1..]), n + 1);
      var b := NCon(NLast(Fresh(n + 1), bufs[0].0, bufs[0].1), r);
      assert NameBuffers(Nested(bufs), n) == (b, j);
      assert Flatten(b) == [Param(Fresh(n + 1), bufs[0].1)] + Flatten(r);
      forall i | 0 <= i < |bufs| ensures Flatten(b)[i] == Param(Fresh(n + 1 + i), bufs[i].1) {
        if i > 0 { assert Flatten(b)[i] == Flatten(r)[i - 1]; }
      }
    }
  }

  lemma {:induction false} BufferParamsAre(b: NBuffers)
    requires GenerableBuffers(b)
    ensures BufferParams(b) == ValueParams(Flatten(b))
  {
    match b case NLast(_, _, _) => case NCon(_, r) => BufferParamsAre(r);
  }

  // The declared C parameters are the arguments, then the buffers.
  lemma {:induction false} ValueParamsAre(f: NFn)
    requires WellShaped(f)
    ensures BufValueParams(f) == ValueParams(Arguments(f) + Flatten(BuffersOf(f).bufs))
  {
    match f
    case NBuf(_, b, _) =>
      BufferParamsAre(b);
      assert Arguments(f) + Flatten(b) == Flatten(b);
    case NFunction(x, t, rest) =>
      ValueParamsAre(rest);
      var bs := Flatten(BuffersOf(f).bufs);
      assert Arguments(f) + bs == [Param(x, t)] + (Arguments(rest) + bs);
  }

  lemma {:induction false} NamedRetBuf(ts: seq<Typ>, pos: CPosition, bufs: seq<(nat, Typ)>, ret: Typ, n: nat)
    requires Bufferable(bufs) && InjError(ret).None? && forall t :: t in ts ==> PrjError(t).None?
    ensures var (f, j) := NameBufParams(RetBuf(ts, pos, Nested(bufs), ret), n);
            var b := NameBuffers(Nested(bufs), n + |ts|).0;
            && WellShaped(f) && BuffersOf(f) == NBuf(pos, b, NReturns(ret)) && GenerableBuffers(b) && |Arguments(f)| == |ts|
            && (forall i :: 0 <= i < |ts| ==> Arguments(f)[i] == Param(Fresh(n + 1 + i), ts[i]))
            && j == n + |ts| + |bufs|
    decreases |ts|
  {
    var b := NameBuffers(Nested(bufs), n + |ts|).0;
    NamedNested(bufs, n + |ts|);
    var (f, _) := NameBufParams(RetBuf(ts, pos, Nested(bufs), ret), n);
    hide PrjError;
    hide InjError;
    hide StripViews;
    hide Flatten;
    hide GenerableBuffers;
    hide Nested;
    hide NameBuffers;
    if ts == [] {
      assert n + |ts| == n;
      assert NameBufParams(BReturns(ret), n + |bufs|) == (NReturns(ret), n + |bufs|);
      assert f == NBuf(pos, b, NReturns(ret));
    } else {
      assert ts[0] in ts;
      NamedRetBuf(ts[1..], pos, bufs, ret, n + 1);
      var (r, _) := NameBufParams(RetBuf(ts[1..], pos, Nested(bufs), ret), n + 1);
      RetBufStep(ts, pos, bufs, ret, n);
      hide NameBufParams;
      hide RetBuf;
      OneMoreArgument(Fresh(n + 1), ts[0], r);
      hide Arguments;
      hide WellShaped;
      hide BuffersOf;
      ConsNamed(Fresh(n + 1), ts, n, Arguments(r), Arguments(f));
    }
  }

  lemma RetBufStep(ts: seq<Typ>, pos: CPosition, bufs: seq<(nat, Typ)>, ret: Typ, n: nat)
    requires bufs != [] && ts != []
    ensures var (f, j) := NameBufParams(RetBuf(ts, pos, Nested(bufs), ret), n);
            var (r, j1) := NameBufParams(RetBuf(ts[1..], pos, Nested(bufs), ret), n + 1);
            f == NFunction(Fresh(n + 1), ts[0], r) && j == j1
  {
    hide Nested;
  }

  lemma OneMoreArgument(x: Name, t: Typ, r: NFn)
    requires PrjError(t).None? && WellShaped(r)
    ensures var f := NFunction(x, t, r);
            WellShaped(f) && Arguments(f) == [Param(x, t)] + Arguments(r) && BuffersOf(f) == BuffersOf(r)
  {
    hide PrjError;
  }

  lemma ConsNamed(x: Name, ts: seq<Typ>, n: nat, rest: seq<Param>, all: seq<Param>)
    requires ts != [] && x == Fresh(n + 1) && |rest| == |ts| - 1 && all == [Param(x, ts[0])] + rest
    requires forall i :: 0 <= i < |rest| ==> rest[i] == Param(Fresh(n + 2 + i), ts[1..][i])
    ensures forall i :: 0 <= i < |ts| ==> all[i] == Param(Fresh(n + 1 + i), ts[i])
  {
    forall i | 0 <= i < |ts| ensures all[i] == Param(Fresh(n + 1 + i), ts[i]) {
      if i > 0 { assert all[i] == rest[i - 1]; }
    }
  }

  /** Stubs with return buffers: for every list of arguments and of buffers nested to the
      right, the generated stub declares one parameter for each and makes one foreign call
      on the projected arguments, void erased, and the buffers `PassedBuffers` describes,
      placed as the position says. */
  lemma BufStubMeaning(m: Machine, errno: ErrnoPolicy, cname: string, stubName: string, ts: seq<Typ>, pos: CPosition,
                       bufs: seq<(nat, Typ)>, ret: Typ, n: nat, args: seq<Val>, bargs: seq<Val>, w: World)
    requires Bufferable(bufs) && InjError(ret).None? && (forall t :: t in ts ==> PrjError(t).None?)
    requires |args| == |ts| && |bargs| == |bufs| && KeepsValues(m)
    ensures forall t :: t in BufTypes(bufs) ==> PrjError(t).None?
    ensures var d := GenerateBuf(errno, cname, stubName, RetBuf(ts, pos, Nested(bufs), ret), n);
            && d.Ok? && |d.value.params| == |ts| + |bufs|
            && RunBody(m, d.value, args + bargs, w) ==
               BufStubMeans(m, Config(cname, false, errno), ts, pos, BufTypes(bufs), ret, args, bargs, w)
  {
    hide BufBody;
    hide BufStubMeans;
    hide RetBuf;
    hide Nested;
    hide PrjError;
    hide InjError;
    hide StripViews;
    hide BindParams;
    hide ArgTypes;
    hide BufError;
    hide WellShaped;
    hide BufValueParams;
    hide GenerableBuffers;
    hide Flatten;
    hide Arguments;
    hide BuffersOf;
    hide NameBufParams;
    hide NameBuffers;
    hide Generable;
    var cfg := Config(cname, false, errno);
    var (f, j) := NameBufParams(RetBuf(ts, pos, Nested(bufs), ret), n);
    var b := NameBuffers(Nested(bufs), n + |ts|).0;
    NamedRetBuf(ts, pos, bufs, ret, n);
    NamedNested(bufs, n + |ts|);
    WellShapedIsGenerable(f);
    ValueParamsAre(f);
    NoBufError(f);
    var params := ValueParams(Arguments(f) + Flatten(b));
    NamesBound(Arguments(f), Flatten(b), args, bargs, n);
    ArgTypesAre(f, ts);
    BufTypesAre(b, bufs);
    ShapedBodyMeaning(m, cfg, f, j, args, bargs, BindParams(params, args + bargs), w);
  }

  // With no buffer but the last without a C argument, the buffers passed are their projections.
  lemma BufStubCall(m: Machine, errno: ErrnoPolicy, cname: string, stubName: string, ts: seq<Typ>, pos: CPosition,
                    bufs: seq<(nat, Typ)>, ret: Typ, n: nat, args: seq<Val>, bargs: seq<Val>, w: World)
    requires Bufferable(bufs) && InjError(ret).None? && (forall t :: t in ts ==> PrjError(t).None?)
    requires |args| == |ts| && |bargs| == |bufs| && KeepsValues(m)
    requires forall i :: 0 <= i < |bufs| - 1 ==> !HasNoArgument(bufs[i].1)
    ensures forall t :: t in BufTypes(bufs) ==> PrjError(t).None?
    ensures var d := GenerateBuf(errno, cname, stubName, RetBuf(ts, pos, Nested(bufs), ret), n);
            var (cargs, w1) := ProjectAll(m, ts, args, w);
            var (starts, w2) := ProjectAll(m, BufTypes(bufs), bargs, w1);
            && d.Ok? && |d.value.params| == |ts| + |bufs|
            && RunBody(m, d.value, args + bargs, w) ==
               CallSpec(m, Config(cname, false, errno), PlaceValues(pos, cargs, starts), ret, w2)
  {
    hide GenerateBuf;
    hide RunBody;
    hide RetBuf;
    hide Nested;
    hide ProjectAll;
    hide PassedBuffers;
    hide PlaceValues;
    hide CallSpec;
    hide PrjError;
    hide InjError;
    hide HasNoArgument;
    hide Dropped;
    BufStubMeaning(m, errno, cname, stubName, ts, pos, bufs, ret, n, args, bargs, w);
    var (cargs, w1) := ProjectAll(m, ts, args, w);
    PassedAsMeantIff(m, cargs, BufTypes(bufs), bargs, w1);
  }

  /** With no buffer but the last without a C argument, the stub is one foreign call, whose
      arguments are, at First, the projected buffers and then the projected arguments, at
      Last the other way round, each in declaration order with void erased. */
  lemma BufStubRefinesSpec(m: Machine, errno: ErrnoPolicy, cname: string, stubName: string, ts: seq<Typ>, pos: CPosition,
                           bufs: seq<(nat, Typ)>, ret: Typ, n: nat, args: seq<Val>, bargs: seq<Val>, w: World)
      returns (passed: seq<Val>)
    requires Bufferable(bufs) && InjError(ret).None? && (forall t :: t in ts ==> PrjError(t).None?)
    requires |args| == |ts| && |bargs| == |bufs| && KeepsValues(m)
    requires forall i :: 0 <= i < |bufs| - 1 ==> !HasNoArgument(bufs[i].1)
    ensures forall t :: t in BufTypes(bufs) ==> PrjError(t).None?
    ensures var d := GenerateBuf(errno, cname, stubName, RetBuf(ts, pos, Nested(bufs), ret), n);
            var (cargs, w1) := ProjectAll(m, ts, args, w);
            var (starts, w2) := ProjectAll(m, BufTypes(bufs), bargs, w1);
            && d.Ok? && |d.value.params| == |ts| + |bufs|
            && RunBody(m, d.value, args + bargs, w) == CallSpec(m, Config(cname, false, errno), passed, ret, w2)
            && |passed| == |cargs| + |starts|
            && (pos.First? ==> forall i :: 0 <= i < |starts| ==> passed[i] == starts[i])
            && (pos.First? ==> forall i :: 0 <= i < |cargs| ==> passed[|starts| + i] == cargs[i])
            && (pos.Last? ==> forall i :: 0 <= i < |cargs| ==> passed[i] == cargs[i])
            && (pos.Last? ==> forall i :: 0 <= i < |starts| ==> passed[|cargs| + i] == starts[i])
  {
    hide GenerateBuf;
    hide RunBody;
    hide RetBuf;
    hide Nested;
    hide ProjectAll;
    hide PlaceValues;
    hide CallSpec;
    hide PrjError;
    hide InjError;
    hide HasNoArgument;
    BufStubCall(m, errno, cname, stubName, ts, pos, bufs, ret, n, args, bargs, w);
    var (cargs, w1) := ProjectAll(m, ts, args, w);
    passed := PlaceValues(pos, cargs, ProjectAll(m, BufTypes(bufs), bargs, w1).0);
  }

  // The exceptions of a description are those of its parameters, then its buffers, then its result.
  lemma {:induction false} NestedErrors(bufs: seq<(nat, Typ)>, ret: Typ, n: nat)
    requires bufs != []
    ensures var e := BuffersError(NameBuffers(Nested(bufs), n).0);
            FirstError(BufTypes(bufs), ret) == if e.Some? then e else InjError(ret)
    decreases |bufs|
  {
    hide PrjError;
    hide InjError;
    var ts := BufTypes(bufs);
    if |bufs| == 1 {
      assert FirstError(ts[1..], ret) == InjError(ret);
    } else {
      assert ts[1..] == BufTypes(bufs[1..]);
      NestedErrors(bufs[1..], ret, n + 1);
    }
  }

  /** Generation for buffers nested to the right raises the first exception there is: the
      parameters' in order, then the buffers' in order, then the result's. */
  lemma {:induction false} BufErrorIsFirst(errno: ErrnoPolicy, cname: string, stubName: string, ts: seq<Typ>, pos: CPosition,
                                           bufs: seq<(nat, Typ)>, ret: Typ, n: nat)
    requires bufs != []
    ensures var d := GenerateBuf(errno, cname, stubName, RetBuf(ts, pos, Nested(bufs), ret), n);
            var e := FirstError(ts + BufTypes(bufs), ret);
            (d.Raises? <==> e.Some?) && (d.Raises? ==> Some(d.error) == e)
  {
    hide FirstError;
    hide BufBody;
    hide NameBufParams;
    hide RetBuf;
    RetBufErrors(ts, pos, bufs, ret, n);
  }

  lemma {:induction false} RetBufErrors(ts: seq<Typ>, pos: CPosition, bufs: seq<(nat, Typ)>, ret: Typ, n: nat)
    requires bufs != []
    ensures BufError(NameBufParams(RetBuf(ts, pos, Nested(bufs), ret), n).0) == FirstError(ts + BufTypes(bufs), ret)
    decreases |ts|
  {
    hide PrjError;
    hide InjError;
    hide BuffersError;
    if ts == [] {
      NestedErrors(bufs, ret, n);
      assert ts + BufTypes(bufs) == BufTypes(bufs);
      assert RetBuf(ts, pos, Nested(bufs), ret) == BBuffers(pos, Nested(bufs), BReturns(ret));
      var (b, n1) := NameBuffers(Nested(bufs), n);
      assert NameBufParams(BBuffers(pos, Nested(bufs), BReturns(ret)), n).0 == NBuf(pos, b, NReturns(ret));
    } else {
      RetBufErrors(ts[1..], pos, bufs, ret, n + 1);
      RetBufStep(ts, pos, bufs, ret, n);
      assert (ts + BufTypes(bufs))[1..] == ts[1..] + BufTypes(bufs);
    }
  }

  lemma BufTypesAre(b: NBuffers, bufs: seq<(nat, Typ)>)
    requires GenerableBuffers(b) && |Flatten(b)| == |bufs| && forall i :: 0 <= i < |bufs| ==> Flatten(b)[i].ty == bufs[i].1
    ensures Types(Flatten(b)) == BufTypes(bufs) && forall t :: t in BufTypes(bufs) ==> PrjError(t).None?
  {
    FlatTypes(b);
  }

  lemma ArgTypesAre(f: NFn, ts: seq<Typ>)
    requires WellShaped(f) && |Arguments(f)| == |ts| && forall i :: 0 <= i < |ts| ==> Arguments(f)[i].ty == ts[i]
    ensures ArgTypes(f) == ts
  {
  }

  lemma NamesBound(ps: seq<Param>, bs: seq<Param>, args: seq<Val>, bargs: seq<Val>, n: nat)
    requires |ps| == |args| && |bs| == |bargs|
    requires forall i :: 0 <= i < |ps| ==> ps[i].x == Fresh(n + 1 + i)
    requires forall i :: 0 <= i < |bs| ==> bs[i].x == Fresh(n + |ps| + 1 + i)
    ensures var env := BindParams(ValueParams(ps + bs), args + bargs);
            CStub.Bound(env, ps, args, n + |ps| + |bs|) && CStub.Bound(env, bs, bargs, n + |ps| + |bs|)
  {
    var all, vs := ValueParams(ps + bs), args + bargs;
    forall i | 0 <= i < |all| ensures all[i].0 == Fresh(n + 1 + i) {
      assert (ps + bs)[i] == if i < |ps| then ps[i] else bs[i - |ps|];
    }
    forall i | 0 <= i < |ps| ensures Lookup(BindParams(all, vs), ps[i].x) == args[i] { ParamsBound(all, vs, i); }
    forall i | 0 <= i < |bs| ensures Lookup(BindParams(all, vs), bs[i].x) == bargs[i] { ParamsBound(all, vs, |ps| + i); }
  }
}

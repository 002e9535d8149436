/** Wrappers that create and return buffers: `pattern_and_exp_of_cbuffers` and
    `wrapper_body` of src/cbuf/cbuf_generate_ml.ml:561-621, 641-729. */
module CbufWrapper {
  import opened CtypesStatic
  import opened CLanguage
  import opened MLLanguage
  import opened MLWrapper
  import CbufStub

  type CBuffers = CbufStub.CBuffers
  type BufFn = CbufStub.BufFn

  // ---- Generation ----

  datatype BufExp = BufExp(pat: Pat, exp: Exp, buffers: Exp, binds: seq<Binding>, n: nat)

  function CreateBuffer(x: Name, size: nat): Binding { (PVar(x), Appl(Path(BytesCreate), ConstInt(size))) }

  function StartOf(x: Name): Exp { Appl(Path(OCamlBytesStart), Ident(x)) }

  // Nested to the right, with types the wrapper generator supports.
  predicate BuffersWrappable(b: CBuffers) {
    match b
    case LastBuf(_, t) => PatError(t, In).None?
    case ConBuf(l, r) => l.LastBuf? && PatError(l.ty, In).None? && BuffersWrappable(r)
  }

  /** `pattern_and_exp_of_cbuffers2`: at each buffer but the last the bindings passed in
      are put before the buffer's own and again, by the recursive call, after it. */
  function BuffersExp(b: CBuffers, e: Exp, binds: seq<Binding>, n: nat): BufExp
    requires BuffersWrappable(b)
    decreases b
  {
    match b
    case LastBuf(i, t) =>
      var r := PatAndExp(false, t, e, In, [], n);
      var x := Fresh(r.n + 1);
      BufExp(PCon2(KLastBuf, PInt(i), r.pat), Appl(e, StartOf(x)), Ident(x), binds + [CreateBuffer(x, i)], r.n + 1)
    case ConBuf(l, rest) =>
      var r := PatAndExp(false, l.ty, e, In, [], n);
      var x := Fresh(r.n + 1);
      var q := BuffersExp(rest, Appl(e, StartOf(x)), binds, r.n + 1);
      BufExp(PCon2(KConBuf, PCon2(KLastBuf, PInt(l.size), r.pat), q.pat), q.exp, Pair(Ident(x), q.buffers),
             binds + ([CreateBuffer(x, l.size)] + q.binds), q.n)
  }

  predicate BufWrappable(f: BufFn) {
    match f
    case BReturns(t) => PatError(t, Out).None?
    case BFunction(t, rest) => PatError(t, In).None? && BufWrappable(rest)
    case BBuffers(_, b, rest) => BuffersWrappable(b) && rest.BReturns? && PatError(rest.ret, In).None?
  }

  /** `wrapper_body`. With buffers the result is bound as it comes and paired with them. */
  function BufWrapperBody(f: BufFn, e: Exp, binds: seq<Binding>, n: nat): Wrapper
    requires BufWrappable(f)
    decreases f
  {
    match f
    case BReturns(t) => WrapperBody(false, Returns(t), e, In, binds, n)
    case BFunction(t, rest) =>
      var x := Fresh(n + 1);
      var r := PatAndExp(false, t, Ident(x), In, binds, n + 1);
      var arg := if r.exp.Some? then r.exp.value else Ident(x);
      var w := BufWrapperBody(rest, Appl(e, arg), r.binds, r.n);
      Wrapper(PCon2(KFunction, r.pat, w.pat), w.exp, [x] + w.args, w.trivial && r.exp.None?, w.binds, w.n)
    case BBuffers(_, b, rest) =>
      var r := PatAndExp(false, rest.ret, e, In, [], n);
      var q := BuffersExp(b, e, binds, r.n);
      var x := Fresh(q.n + 1);
      Wrapper(PCon3(KBuffers, PAny, q.pat, PCon1(KReturns, r.pat)),
              LetIn(PVar(x), q.exp, Pair(q.buffers, Ident(x))), [], false, q.binds, q.n + 1)
  }

  function BufWrapperFor(f: BufFn, n: nat): (Pat, Exp)
    requires BufWrappable(f)
  {
    var w := BufWrapperBody(f, Path(External), [], n);
    (w.pat, if w.trivial then LetBind(w.binds, Path(External)) else Fun(w.args, LetBind(w.binds, w.exp)))
  }

  // ---- Matching descriptions with buffers ----

  function MatchBuffers(p: Pat, b: CBuffers): Option<Env>
    decreases p
  {
    match p
    case PCon2(KLastBuf, PInt(i), q) => if b.LastBuf? && b.size == i then MatchTyp(q, b.ty) else None
    case PCon2(KConBuf, q, r) =>
      if !b.ConBuf? then None
      else (match (MatchBuffers(q, b.left), MatchBuffers(r, b.right))
            case (Some(x), Some(y)) => Some(x + y)
            case _ => None)
    case _ => None
  }

  function MatchBufFn(p: Pat, f: BufFn): Option<Env>
    decreases p
  {
    match p
    case PCon1(KReturns, q) => if f.BReturns? then MatchTyp(q, f.ret) else None
    case PCon2(KFunction, q, r) =>
      if !f.BFunction? then None
      else (match (MatchTyp(q, f.arg), MatchBufFn(r, f.rest))
            case (Some(x), Some(y)) => Some(x + y)
            case _ => None)
    case PCon3(KBuffers, PAny, q, r) =>
      if !f.BBuffers? then None
      else (match (MatchBuffers(q, f.bufs), MatchBufFn(r, f.rest))
            case (Some(x), Some(y)) => Some(x + y)
            case _ => None)
    case _ => None
  }

  // ---- Reference meaning ----

  const BYTES := OCaml(OBytes)

  function ByteBuffers(sizes: seq<nat>): (r: seq<(nat, Typ)>)
    ensures |r| == |sizes| && forall i :: 0 <= i < |sizes| ==> r[i] == (sizes[i], BYTES)
  {
    seq(|sizes|, i requires 0 <= i < |sizes| => (sizes[i], BYTES))
  }

  /** The buffers a wrapper creates, in declaration order: all distinct, all new since
      `created`, each of its declared length. The last one is created first. */
  function NewBuffers(created: nat, sizes: seq<nat>): (r: seq<Val>)
    ensures |r| == |sizes|
    ensures forall i :: 0 <= i < |sizes| ==> r[i] == BytesBlock(created + (|sizes| - 1 - i), sizes[i])
  {
    seq(|sizes|, i requires 0 <= i < |sizes| => BytesBlock(created + (|sizes| - 1 - i), sizes[i]))
  }

  function StartsOf(bufs: seq<Val>): (r: seq<Val>)
    ensures |r| == |bufs| && forall i :: 0 <= i < |bufs| ==> r[i] == OCamlRef(0, bufs[i], OBytes)
  {
    seq(|bufs|, i requires 0 <= i < |bufs| => OCamlRef(0, bufs[i], OBytes))
  }

  /** The nesting of the description: (b1, (b2, ... bk)). */
  function NestPairs(bufs: seq<Val>): Val
    requires bufs != []
  {
    if |bufs| == 1 then bufs[0] else Tuple([bufs[0], NestPairs(bufs[1..])])
  }

  // ---- The bindings ----

  function BufEnv(sizes: seq<nat>, n: nat, created: nat): Env {
    if sizes == [] then map[]
    else BufEnv(sizes[1..], n + 1, created)[Fresh(n + 1) := BytesBlock(created + (|sizes| - 1), sizes[0])]
  }

  lemma {:induction false} BufEnvRange(sizes: seq<nat>, n: nat, created: nat)
    ensures Within(BufEnv(sizes, n, created), n, n + |sizes|)
    decreases |sizes|
  {
    if sizes != [] { BufEnvRange(sizes[1..], n + 1, created); }
  }

  // The binding list built for byte buffers of the given sizes.
  function BufBinds(binds: seq<Binding>, sizes: seq<nat>, n: nat): seq<Binding>
    requires sizes != []
    decreases |sizes|
  {
    if |sizes| == 1 then binds + [CreateBuffer(Fresh(n + 1), sizes[0])]
    else binds + ([CreateBuffer(Fresh(n + 1), sizes[0])] + BufBinds(binds, sizes[1..], n + 1))
  }

  function Created(s: State, k: nat, bufs: nat): State {
    State(s.w, s.created + bufs, s.writes + bufs * k)
  }

  lemma CreateRuns(h: Host, x: Name, size: nat, env: Env, s: State)
    ensures RunBinds(h, [CreateBuffer(x, size)], env, s) ==
            Some((env + map[x := BytesBlock(s.created, size)], s.(created := s.created + 1)))
  {
    OneBinding(h, PVar(x), Appl(Path(BytesCreate), ConstInt(size)), env, s);
    assert [] + [CInt(size)] == [CInt(size)];
    assert EvalML(h, ConstInt(size), env, s) == (CInt(size), s);
    assert EvalML(h, Path(BytesCreate), env, s) == (Applied(BytesCreate, []), s);
    assert EvalML(h, Appl(Path(BytesCreate), ConstInt(size)), env, s) == Feed(h, BytesCreate, [CInt(size)], s);
  }

  // The argument bindings run again on top of what is already bound.
  lemma RunAgain(h: Host, binds: seq<Binding>, base: Env, m: Env, k: nat, env: Env, bufs: Env, x: Name, block: Val, s: State, n: nat)
    requires Pure(h, binds, base, m, k) && Sub(base, env) && m.Keys !! base.Keys && x == Fresh(n + 1)
    requires forall y :: y in base || y in m ==> y.Fresh? && y.n <= n
    requires forall y :: y in bufs ==> y.Fresh? && y.n > n + 1
    ensures RunBinds(h, binds, (env + (m + bufs)) + map[x := block], s) == Some((env + (m + bufs[x := block]), Wrote(s, k)))
  {
    var env2 := (env + (m + bufs)) + map[x := block];
    forall y | y in base ensures y in env2 && env2[y] == base[y] { assert env[y] == base[y]; }
    assert env2 + m == env + (m + bufs[x := block]);
  }

  /** Running them: the argument bindings take effect once per buffer, to the same
      values each time, and each buffer is created once. */
  lemma {:induction false} BufBindsRun(h: Host, binds: seq<Binding>, sizes: seq<nat>, n: nat,
                                       base: Env, m: Env, k: nat, env: Env, s: State)
    requires sizes != [] && Pure(h, binds, base, m, k) && Sub(base, env) && m.Keys !! base.Keys
    requires forall x :: x in base || x in m ==> x.Fresh? && x.n <= n
    ensures RunBinds(h, BufBinds(binds, sizes, n), env, s) ==
            Some((env + (m + BufEnv(sizes, n, s.created)), Created(s, k, |sizes|)))
    decreases |sizes|
  {
    hide Pure;
    hide RunBinds;
    hide Created;
    hide CreateBuffer;
    hide Wrote;
    var x := Fresh(n + 1);
    if |sizes| == 1 {
      CreatedOnce(s, k);
      RunBindsAppend(h, binds, [CreateBuffer(x, sizes[0])], env, s);
      CreateRuns(h, x, sizes[0], env, s);
      var block := BytesBlock(s.created, sizes[0]);
      assert BufEnv(sizes[1..], n + 1, s.created) == map[];
      assert BufEnv(sizes, n, s.created) == map[x := block];
      FirstRun(h, binds, base, m, k, env, x, block, s.(created := s.created + 1), n);
    } else {
      var rest := sizes[1..];
      var inner := BufBinds(binds, rest, n + 1);
      BufBindsRun(h, binds, rest, n + 1, base, m, k, env, s);
      BufEnvRange(rest, n + 1, s.created);
      var bufs := BufEnv(rest, n + 1, s.created);
      var env1, s1 := env + (m + bufs), Created(s, k, |rest|);
      RunBindsAppend(h, binds, [CreateBuffer(x, sizes[0])] + inner, env, s);
      RunBindsAppend(h, [CreateBuffer(x, sizes[0])], inner, env, s);
      CreateRuns(h, x, sizes[0], env1, s1);
      CreatedMore(s, k, |rest|);
      RunAgain(h, binds, base, m, k, env, bufs, x, BytesBlock(s1.created, sizes[0]), s1.(created := s1.created + 1), n);
    }
  }

  lemma CreatedOnce(s: State, k: nat)
    ensures Wrote(s.(created := s.created + 1), k) == Created(s, k, 1)
  {
  }

  lemma CreatedMore(s: State, k: nat, j: nat)
    ensures Created(s, k, j).created == s.created + j
    ensures var s1 := Created(s, k, j); Wrote(s1.(created := s1.created + 1), k) == Created(s, k, j + 1)
  {
    assert j * k + k == (j + 1) * k;
  }

  lemma FirstRun(h: Host, binds: seq<Binding>, base: Env, m: Env, k: nat, env: Env, x: Name, block: Val, s: State, n: nat)
    requires Pure(h, binds, base, m, k) && Sub(base, env) && x == Fresh(n + 1)
    requires forall y :: y in base || y in m ==> y.Fresh? && y.n <= n
    ensures RunBinds(h, binds, env + map[x := block], s) == Some((env + (m + map[x := block]), Wrote(s, k)))
  {
    var env1 := env + map[x := block];
    forall y | y in base ensures y in env1 && env1[y] == base[y] { assert env[y] == base[y]; }
    assert env1 + m == env + (m + map[x := block]);
  }

  // ---- The buffer expressions ----

  function ByteDescr(sizes: seq<nat>): CBuffers
    requires sizes != []
  {
    CbufStub.Nested(ByteBuffers(sizes))
  }

  function ApplyStarts(e: Exp, sizes: seq<nat>, n: nat): Exp
    decreases |sizes|
  {
    if sizes == [] then e else ApplyStarts(Appl(e, StartOf(Fresh(n + 1))), sizes[1..], n + 1)
  }

  function NestIdents(sizes: seq<nat>, n: nat): Exp
    requires sizes != []
    decreases |sizes|
  {
    if |sizes| == 1 then Ident(Fresh(n + 1)) else Pair(Ident(Fresh(n + 1)), NestIdents(sizes[1..], n + 1))
  }

  /** For byte buffers nested to the right, the generator's output written out; its
      pattern matches the description and binds nothing. */
  lemma {:induction false} BytesExp(sizes: seq<nat>, e: Exp, binds: seq<Binding>, n: nat)
    requires sizes != []
    ensures BuffersWrappable(ByteDescr(sizes))
    ensures var q := BuffersExp(ByteDescr(sizes), e, binds, n);
            && q.exp == ApplyStarts(e, sizes, n) && q.buffers == NestIdents(sizes, n)
            && q.binds == BufBinds(binds, sizes, n) && q.n == n + |sizes|
            && MatchBuffers(q.pat, ByteDescr(sizes)) == Some(map[])
    decreases |sizes|
  {
    hide PatAndExp;
    hide MatchTyp;
    hide PatError;
    hide BufBinds;
    var x := Fresh(n + 1);
    var pat := PCon2(KLastBuf, PInt(sizes[0]), PCon0(KOCaml(OBytes)));
    BytesPattern(sizes[0], e, n);
    if |sizes| == 1 {
      assert ByteDescr(sizes) == CbufStub.LastBuf(sizes[0], BYTES);
      assert sizes[1..] == [];
      assert ApplyStarts(e, sizes, n) == Appl(e, StartOf(x));
      assert BufBinds(binds, sizes, n) == binds + [CreateBuffer(x, sizes[0])] by { BufBindsStep(binds, sizes, n); }
    } else {
      var rest := sizes[1..];
      assert ByteBuffers(sizes)[1..] == ByteBuffers(rest);
      assert ByteDescr(sizes) == CbufStub.ConBuf(CbufStub.LastBuf(sizes[0], BYTES), ByteDescr(rest));
      BytesExp(rest, Appl(e, StartOf(x)), binds, n + 1);
      BufBindsStep(binds, sizes, n);
      var q := BuffersExp(ByteDescr(rest), Appl(e, StartOf(x)), binds, n + 1);
      ConMatches(pat, q.pat, sizes[0], ByteDescr(rest));
    }
  }

  lemma BufBindsStep(binds: seq<Binding>, sizes: seq<nat>, n: nat)
    requires sizes != []
    ensures BufBinds(binds, sizes, n) ==
            if |sizes| == 1 then binds + [CreateBuffer(Fresh(n + 1), sizes[0])]
            else binds + ([CreateBuffer(Fresh(n + 1), sizes[0])] + BufBinds(binds, sizes[1..], n + 1))
  {
  }

  lemma BytesPattern(size: nat, e: Exp, n: nat)
    ensures PatError(BYTES, In).None? && PatAndExp(false, BYTES, e, In, [], n) == PatExp(PCon0(KOCaml(OBytes)), None, [], n)
    ensures MatchBuffers(PCon2(KLastBuf, PInt(size), PCon0(KOCaml(OBytes))), CbufStub.LastBuf(size, BYTES)) == Some(map[])
  {
  }

  lemma ConMatches(p: Pat, q: Pat, size: nat, rest: CBuffers)
    requires MatchBuffers(p, CbufStub.LastBuf(size, BYTES)) == Some(map[]) && MatchBuffers(q, rest) == Some(map[])
    ensures MatchBuffers(PCon2(KConBuf, p, q), CbufStub.ConBuf(CbufStub.LastBuf(size, BYTES), rest)) == Some(map[])
  {
    var nothing: Env := map[];
    assert nothing + nothing == nothing;
  }

  lemma StartEvals(h: Host, x: Name, base: Env, block: Val)
    requires x in base && base[x] == block
    ensures Evals(h, StartOf(x), base, OCamlRef(0, block, OBytes), 0)
  {
    forall env: Env, s: State | Sub(base, env) ensures EvalML(h, StartOf(x), env, s) == (OCamlRef(0, block, OBytes), Wrote(s, 0)) {
      assert env[x] == base[x];
      assert [] + [block] == [block];
      assert EvalML(h, Ident(x), env, s) == (block, s);
      assert EvalML(h, Path(OCamlBytesStart), env, s) == (Applied(OCamlBytesStart, []), s);
    }
  }

  lemma BufEnvSplit(sizes: seq<nat>, n: nat, created: nat, base: Env)
    requires sizes != [] && Sub(BufEnv(sizes, n, created), base)
    ensures Fresh(n + 1) in base && base[Fresh(n + 1)] == NewBuffers(created, sizes)[0]
    ensures Sub(BufEnv(sizes[1..], n + 1, created), base)
    ensures NewBuffers(created, sizes) == [NewBuffers(created, sizes)[0]] + NewBuffers(created, sizes[1..])
  {
    var rest := BufEnv(sizes[1..], n + 1, created);
    BufEnvRange(sizes[1..], n + 1, created);
    assert BufEnv(sizes, n, created)[Fresh(n + 1)] == NewBuffers(created, sizes)[0];
    forall y | y in rest ensures y in base && base[y] == rest[y] { assert BufEnv(sizes, n, created)[y] == rest[y]; }
  }

  lemma StartsCons(sizes: seq<nat>, created: nat)
    requires sizes != []
    ensures StartsOf(NewBuffers(created, sizes)) ==
            [OCamlRef(0, NewBuffers(created, sizes)[0], OBytes)] + StartsOf(NewBuffers(created, sizes[1..]))
  {
    var a, b := NewBuffers(created, sizes), NewBuffers(created, sizes[1..]);
    forall i | 0 <= i < |b| ensures a[i + 1] == b[i] {}
    StartsOfCons(a, b);
  }

  lemma StartsOfCons(a: seq<Val>, b: seq<Val>)
    requires |a| == |b| + 1 && forall i :: 0 <= i < |b| ==> a[i + 1] == b[i]
    ensures StartsOf(a) == [OCamlRef(0, a[0], OBytes)] + StartsOf(b)
  {
    var l, r := StartsOf(a), [OCamlRef(0, a[0], OBytes)] + StartsOf(b);
    forall i | 0 <= i < |l| ensures l[i] == r[i] {
      if i > 0 { assert a[(i - 1) + 1] == b[i - 1]; }
    }
  }

  lemma {:induction false} StartsCall(h: Host, e: Exp, sizes: seq<nat>, n: nat, base: Env, acc: seq<Val>, created: nat)
    requires EvalsCall(h, e, base, acc) && Sub(BufEnv(sizes, n, created), base) && |acc| + |sizes| <= h.arity
    ensures EvalsCall(h, ApplyStarts(e, sizes, n), base, acc + StartsOf(NewBuffers(created, sizes)))
    decreases |sizes|
  {
    hide EvalsCall;
    hide Evals;
    hide BufEnv;
    hide Sub;
    hide NewBuffers;
    hide StartsOf;
    if sizes == [] {
      assert acc + StartsOf(NewBuffers(created, sizes)) == acc;
    } else {
      var block := NewBuffers(created, sizes)[0];
      var start, e1 := OCamlRef(0, block, OBytes), Appl(e, StartOf(Fresh(n + 1)));
      BufEnvSplit(sizes, n, created, base);
      StartEvals(h, Fresh(n + 1), base, block);
      ApplyOne(h, e, StartOf(Fresh(n + 1)), base, acc, start);
      StartsCall(h, e1, sizes[1..], n + 1, base, acc + [start], created);
      StartsJoin(acc, sizes, created);
      assert ApplyStarts(e, sizes, n) == ApplyStarts(e1, sizes[1..], n + 1);
    }
  }

  lemma StartsJoin(acc: seq<Val>, sizes: seq<nat>, created: nat)
    requires sizes != []
    ensures acc + [OCamlRef(0, NewBuffers(created, sizes)[0], OBytes)] + StartsOf(NewBuffers(created, sizes[1..])) ==
            acc + StartsOf(NewBuffers(created, sizes))
  {
    StartsCons(sizes, created);
    var first, rest := [OCamlRef(0, NewBuffers(created, sizes)[0], OBytes)], StartsOf(NewBuffers(created, sizes[1..]));
    assert acc + first + rest == acc + (first + rest);
  }

  lemma {:induction false} NestEvals(h: Host, sizes: seq<nat>, n: nat, env: Env, created: nat, s: State)
    requires sizes != [] && Sub(BufEnv(sizes, n, created), env)
    ensures EvalML(h, NestIdents(sizes, n), env, s) == (NestPairs(NewBuffers(created, sizes)), s)
    decreases |sizes|
  {
    BufEnvSplit(sizes, n, created, env);
    if |sizes| > 1 {
      NestEvals(h, sizes[1..], n + 1, env, created, s);
      assert NewBuffers(created, sizes)[1..] == NewBuffers(created, sizes[1..]);
    }
  }

  /** The last part of a wrapper with buffers: the call on the arguments so far and
      the new buffers, its reply paired with them as it comes. */
  lemma BuffersMeaning(h: Host, pos: CbufStub.CPosition, sizes: seq<nat>, ret: Typ, e: Exp, binds: seq<Binding>, n: nat,
                       base: Env, m: Env, k: nat, acc: seq<Val>, s: State)
    requires sizes != [] && PatError(ret, In).None? && BuffersWrappable(ByteDescr(sizes))
    requires Pure(h, binds, base, m, k) && EvalsCall(h, e, base + m, acc) && m.Keys !! base.Keys
    requires |acc| + |sizes| == h.arity
    requires forall x :: x in base || x in m ==> x.Fresh? && x.n <= NextIn(ret, n)
    ensures var w := BufWrapperBody(CbufStub.BBuffers(pos, ByteDescr(sizes), CbufStub.BReturns(ret)), e, binds, n);
            var bufs := NewBuffers(s.created, sizes);
            var (r, s1) := CallVal(h, acc + StartsOf(bufs), Created(s, k, |sizes|));
            EvalML(h, LetBind(w.binds, w.exp), base, s) == (Tuple([NestPairs(bufs), r]), s1)
  {
    hide BufWrapperBody;
    hide Pure;
    hide EvalsCall;
    hide Sub;
    hide BufEnv;
    hide ApplyStarts;
    hide NestIdents;
    hide NestPairs;
    hide LetBind;
    hide Created;
    hide CallVal;
    hide PatError;
    SubSelf(base);
    hide ByteDescr;
    hide RunBinds;
    hide EvalML;
    var n1 := NextIn(ret, n);
    BuffersBody(pos, sizes, ret, e, binds, n);
    BufBindsRun(h, binds, sizes, n1, base, m, k, base, s);
    var bufEnv := BufEnv(sizes, n1, s.created);
    BufEnvRange(sizes, n1, s.created);
    var env := base + (m + bufEnv);
    EnvExtends(base, m, bufEnv, n1);
    EvalsCallMore(h, e, base + m, env, acc);
    StartsCall(h, e, sizes, n1, env, acc, s.created);
    var call := ApplyStarts(e, sizes, n1);
    var x := Fresh(n1 + |sizes| + 1);
    var exp := LetIn(PVar(x), call, Pair(NestIdents(sizes, n1), Ident(x)));
    LetBindMeaning(h, BufBinds(binds, sizes, n1), exp, base, s);
    PairedReply(h, sizes, n1, call, env, acc + StartsOf(NewBuffers(s.created, sizes)), s.created, Created(s, k, |sizes|));
  }

  lemma SubSelf(env: Env)
    ensures Sub(env, env)
  {
  }

  lemma EnvExtends(base: Env, m: Env, bufs: Env, n: nat)
    requires Above(bufs, n)
    requires forall x :: x in base || x in m ==> x.Fresh? && x.n <= n
    ensures Sub(base + m, base + (m + bufs)) && Sub(bufs, base + (m + bufs))
  {
  }

  lemma BuffersBody(pos: CbufStub.CPosition, sizes: seq<nat>, ret: Typ, e: Exp, binds: seq<Binding>, n: nat)
    requires sizes != [] && PatError(ret, In).None? && BuffersWrappable(ByteDescr(sizes))
    ensures var f := CbufStub.BBuffers(pos, ByteDescr(sizes), CbufStub.BReturns(ret));
            var w := BufWrapperBody(f, e, binds, n);
            var n1 := NextIn(ret, n);
            var x := Fresh(n1 + |sizes| + 1);
            && w.binds == BufBinds(binds, sizes, n1) && w.args == [] && !w.trivial
            && w.exp == LetIn(PVar(x), ApplyStarts(e, sizes, n1), Pair(NestIdents(sizes, n1), Ident(x)))
            && MatchBufFn(w.pat, f) == Some(InSigma(ret, n))
  {
    hide PatAndExp;
    hide BuffersExp;
    hide ByteDescr;
    hide MatchTyp;
    hide MatchBuffers;
    hide InSigma;
    hide NextIn;
    hide ApplyStarts;
    hide NestIdents;
    hide BufBinds;
    hide PatError;
    PatternMatches(false, ret, e, In, [], n);
    BytesExp(sizes, e, binds, NextIn(ret, n));
    assert map[] + InSigma(ret, n) == InSigma(ret, n);
  }

  lemma PairedReply(h: Host, sizes: seq<nat>, n: nat, call: Exp, env: Env, acc: seq<Val>, created: nat, s: State)
    requires sizes != [] && EvalsCall(h, call, env, acc) && Sub(BufEnv(sizes, n, created), env)
    ensures var x := Fresh(n + |sizes| + 1);
            var (r, s1) := CallVal(h, acc, s);
            EvalML(h, LetIn(PVar(x), call, Pair(NestIdents(sizes, n), Ident(x))), env, s) ==
              (Tuple([NestPairs(NewBuffers(created, sizes)), r]), s1)
  {
    hide NestPairs;
    hide NestIdents;
    hide NewBuffers;
    var x := Fresh(n + |sizes| + 1);
    var (r, s1) := CallVal(h, acc, s);
    var env1 := env + map[x := r];
    BufEnvRange(sizes, n, created);
    assert Sub(BufEnv(sizes, n, created), env1) by { hide BufEnv; }
    NestEvals(h, sizes, n, env1, created, s1);
    assert Sub(env, env);
    assert EvalML(h, call, env, s) == (r, s1);
    assert EvalML(h, Pair(NestIdents(sizes, n), Ident(x)), env1, s1) == (Tuple([NestPairs(NewBuffers(created, sizes)), r]), s1);
  }

  // ---- Whole descriptions ----

  // The arguments of a description, as a function type of their own.
  function Chain(ts: seq<Typ>): (f: Fn)
    ensures Params(f) == ts
  {
    if ts == [] then Returns(Void) else Function(ts[0], Chain(ts[1..]))
  }

  function EndIn(ts: seq<Typ>, n: nat): (r: nat)
    ensures r >= n
  {
    if ts == [] then n else EndIn(ts[1..], NextIn(ts[0], n + 1))
  }

  function Describe(ts: seq<Typ>, pos: CbufStub.CPosition, sizes: seq<nat>, ret: Typ): BufFn
    requires sizes != []
  {
    CbufStub.RetBuf(ts, pos, ByteDescr(sizes), ret)
  }

  ghost predicate Supported(ts: seq<Typ>, ret: Typ) {
    PatError(ret, In).None? && forall t :: t in ts ==> PatError(t, In).None?
  }

  lemma {:induction false} DescribeWrappable(ts: seq<Typ>, pos: CbufStub.CPosition, sizes: seq<nat>, ret: Typ)
    requires sizes != [] && Supported(ts, ret)
    ensures BufWrappable(Describe(ts, pos, sizes, ret))
    decreases |ts|
  {
    hide PatError;
    if ts == [] { BytesExp(sizes, Path(External), [], 0); } else {
      assert ts[0] in ts;
      DescribeWrappable(ts[1..], pos, sizes, ret);
    }
  }

  // What a wrapper with buffers returns, and the state it leaves.
  function BufReply(h: Host, acc: seq<Val>, sizes: seq<nat>, k: nat, s: State): (Val, State)
    requires sizes != []
  {
    var bufs := NewBuffers(s.created, sizes);
    var (r, s1) := CallVal(h, acc + StartsOf(bufs), Created(s, k, |sizes|));
    (Tuple([NestPairs(bufs), r]), s1)
  }

  // The wrapper body of a description with at least one argument, unfolded once.
  lemma BodyUnfold(ts: seq<Typ>, pos: CbufStub.CPosition, sizes: seq<nat>, ret: Typ, e: Exp, binds: seq<Binding>, n: nat)
    requires ts != [] && sizes != [] && BufWrappable(Describe(ts, pos, sizes, ret))
    ensures PatError(ts[0], In).None? && BufWrappable(Describe(ts[1..], pos, sizes, ret))
    ensures var x := Fresh(n + 1);
            var r := PatAndExp(false, ts[0], Ident(x), In, binds, n + 1);
            var arg := if r.exp.Some? then r.exp.value else Ident(x);
            var w := BufWrapperBody(Describe(ts[1..], pos, sizes, ret), Appl(e, arg), r.binds, r.n);
            BufWrapperBody(Describe(ts, pos, sizes, ret), e, binds, n) ==
              Wrapper(PCon2(KFunction, r.pat, w.pat), w.exp, [x] + w.args, w.trivial && r.exp.None?, w.binds, w.n)
    ensures Describe(ts, pos, sizes, ret) == CbufStub.BFunction(ts[0], Describe(ts[1..], pos, sizes, ret))
  {
    hide PatAndExp;
    hide PatError;
    hide ByteDescr;
  }

  lemma MatchFunction(q: Pat, r: Pat, f: BufFn, a: Env, b: Env)
    requires f.BFunction? && MatchTyp(q, f.arg) == Some(a) && MatchBufFn(r, f.rest) == Some(b)
    ensures MatchBufFn(PCon2(KFunction, q, r), f) == Some(a + b)
  {
    hide MatchTyp;
  }

  // One argument of a chain.
  lemma ChainStep(h: Host, ts: seq<Typ>, args: seq<Val>)
    requires ts != [] && FitsAll(h, Chain(ts), args)
    ensures Chain(ts) == Function(ts[0], Chain(ts[1..]))
    ensures args != [] && Fits(h, ts[0], args[0]) && FitsAll(h, Chain(ts[1..]), args[1..])
    ensures LowerAll(h, Chain(ts), args) == [Lower(h, ts[0], args[0])] + LowerAll(h, Chain(ts[1..]), args[1..])
    ensures AllViews(Chain(ts)) == ViewDepth(ts[0]) + AllViews(Chain(ts[1..]))
  {
    hide Lower;
    hide Fits;
  }

  // The body of a description with at least one argument, its first argument handled.
  lemma BufArgStep(h: Host, ts: seq<Typ>, pos: CbufStub.CPosition, sizes: seq<nat>, ret: Typ,
                   e: Exp, binds: seq<Binding>, n: nat, base: Env, m: Env, k: nat, acc: seq<Val>, args: seq<Val>)
      returns (e1: Exp, binds1: seq<Binding>, n1: nat, m1: Env)
    requires ts != [] && sizes != [] && Supported(ts, ret) && BufWrappable(Describe(ts, pos, sizes, ret))
    requires FitsAll(h, Chain(ts), args) && NamesReady(h, Chain(ts), args, n, base, m)
    requires Pure(h, binds, base, m, k) && EvalsCall(h, e, base + m, acc) && |acc| < h.arity
    ensures args != [] && Fits(h, ts[0], args[0]) && FitsAll(h, Chain(ts[1..]), args[1..])
    ensures n1 == NextIn(ts[0], n + 1) && NamesReady(h, Chain(ts[1..]), args[1..], n1, base, m1)
    ensures Pure(h, binds1, base, m1, k + ViewDepth(ts[0])) && EvalsCall(h, e1, base + m1, acc + [Lower(h, ts[0], args[0])])
    ensures BufWrappable(Describe(ts[1..], pos, sizes, ret)) && Supported(ts[1..], ret) && |args| == 1 + |args[1..]|
    ensures var w, w1 := BufWrapperBody(Describe(ts, pos, sizes, ret), e, binds, n), BufWrapperBody(Describe(ts[1..], pos, sizes, ret), e1, binds1, n1);
            w.binds == w1.binds && w.exp == w1.exp
  {
    hide PatAndExp;
    hide PatError;
    hide Pure;
    hide EvalsCall;
    hide Describe;
    hide BufWrapperBody;
    hide BufWrappable;
    hide NamesReady;
    hide Lower;
    hide InEnv;
    BodyUnfold(ts, pos, sizes, ret, e, binds, n);
    ChainStep(h, ts, args);
    NamesStep(h, Chain(ts), args, n, base, m);
    var x := Fresh(n + 1);
    PatternMatches(false, ts[0], Ident(x), In, binds, n + 1);
    var r := PatAndExp(false, ts[0], Ident(x), In, binds, n + 1);
    m1 := m + InEnv(h, ts[0], args[0], n + 1);
    CallStep(h, false, ts[0], e, binds, n, base, m, k, acc, args[0]);
    e1, binds1, n1 := Appl(e, if r.exp.Some? then r.exp.value else Ident(x)), r.binds, r.n;
  }

  // Grouping what the first argument contributes with what the others do.
  lemma BufReplyJoin(h: Host, acc: seq<Val>, low: Val, lows: seq<Val>, sizes: seq<nat>, k: nat, a: nat, b: nat, s: State)
    requires sizes != []
    ensures BufReply(h, acc + [low] + lows, sizes, k + a + b, s) == BufReply(h, acc + ([low] + lows), sizes, k + (a + b), s)
  {
    hide BufReply;
    assert acc + [low] + lows == acc + ([low] + lows);
  }

  lemma NoArgsMeaning(h: Host, pos: CbufStub.CPosition, sizes: seq<nat>, ret: Typ, e: Exp, binds: seq<Binding>, n: nat,
                      base: Env, m: Env, k: nat, acc: seq<Val>, args: seq<Val>, s: State)
    requires sizes != [] && Supported([], ret) && BufWrappable(Describe([], pos, sizes, ret))
    requires FitsAll(h, Chain([]), args) && NamesReady(h, Chain([]), args, n, base, m)
    requires Pure(h, binds, base, m, k) && EvalsCall(h, e, base + m, acc) && |acc| + |args| + |sizes| == h.arity
    requires forall x :: x in base ==> x.Fresh? && x.n <= NextIn(ret, n)
    ensures var w := BufWrapperBody(Describe([], pos, sizes, ret), e, binds, n);
            EvalML(h, LetBind(w.binds, w.exp), base, s) ==
              BufReply(h, acc + LowerAll(h, Chain([]), args), sizes, k + AllViews(Chain([])), s)
  {
    hide Pure;
    hide EvalsCall;
    hide EvalML;
    hide LetBind;
    hide BufWrapperBody;
    hide ByteDescr;
    hide CallVal;
    hide Created;
    hide NewBuffers;
    hide NextIn;
    assert acc + [] == acc;
    BuffersMeaning(h, pos, sizes, ret, e, binds, n, base, m, k, acc, s);
  }

  lemma EndStep(ts: seq<Typ>, n: nat)
    ensures EndIn(ts, n) == if ts == [] then n else EndIn(ts[1..], NextIn(ts[0], n + 1))
  {
  }

  lemma {:induction false} BufArgsMeaning(h: Host, ts: seq<Typ>, pos: CbufStub.CPosition, sizes: seq<nat>, ret: Typ,
                                          e: Exp, binds: seq<Binding>, n: nat, base: Env, m: Env, k: nat,
                                          acc: seq<Val>, args: seq<Val>, s: State)
    requires sizes != [] && Supported(ts, ret) && BufWrappable(Describe(ts, pos, sizes, ret))
    requires FitsAll(h, Chain(ts), args) && NamesReady(h, Chain(ts), args, n, base, m)
    requires Pure(h, binds, base, m, k) && EvalsCall(h, e, base + m, acc) && |acc| + |args| + |sizes| == h.arity
    requires forall x :: x in base ==> x.Fresh? && x.n <= NextIn(ret, EndIn(ts, n))
    ensures var w := BufWrapperBody(Describe(ts, pos, sizes, ret), e, binds, n);
            EvalML(h, LetBind(w.binds, w.exp), base, s) ==
              BufReply(h, acc + LowerAll(h, Chain(ts), args), sizes, k + AllViews(Chain(ts)), s)
    decreases |ts|
  {
    hide Pure;
    hide EvalsCall;
    hide EvalML;
    hide LetBind;
    hide BufWrapperBody;
    hide BufWrappable;
    hide NamesReady;
    hide BufReply;
    hide Describe;
    hide LowerAll;
    hide FitsAll;
    hide AllViews;
    hide Lower;
    hide Chain;
    hide Supported;
    hide EndIn;
    hide NextIn;
    if ts == [] {
      EndStep(ts, n);
      NoArgsMeaning(h, pos, sizes, ret, e, binds, n, base, m, k, acc, args, s);
    } else {
      EndStep(ts, n);
      ChainStep(h, ts, args);
      var e1, binds1, n1, m1 := BufArgStep(h, ts, pos, sizes, ret, e, binds, n, base, m, k, acc, args);
      var low, lows := Lower(h, ts[0], args[0]), LowerAll(h, Chain(ts[1..]), args[1..]);
      BufArgsMeaning(h, ts[1..], pos, sizes, ret, e1, binds1, n1, base, m1, k + ViewDepth(ts[0]), acc + [low], args[1..], s);
      BufReplyJoin(h, acc, low, lows, sizes, k, ViewDepth(ts[0]), AllViews(Chain(ts[1..])), s);
    }
  }

  // The pattern variables and arguments of a whole description.
  function BufSigma(ts: seq<Typ>, ret: Typ, n: nat): Env {
    if ts == [] then InSigma(ret, n) else InSigma(ts[0], n + 1) + BufSigma(ts[1..], ret, NextIn(ts[0], n + 1))
  }

  lemma {:induction false} BufWrapperShape(ts: seq<Typ>, pos: CbufStub.CPosition, sizes: seq<nat>, ret: Typ,
                                           e: Exp, binds: seq<Binding>, n: nat)
    requires sizes != [] && Supported(ts, ret) && BufWrappable(Describe(ts, pos, sizes, ret))
    ensures var f := Describe(ts, pos, sizes, ret);
            var w := BufWrapperBody(f, e, binds, n);
            && w.args == ArgNames(Chain(ts), In, n) && !w.trivial
            && MatchBufFn(w.pat, f) == Some(BufSigma(ts, ret, n))
    decreases |ts|
  {
    hide PatAndExp;
    hide PatError;
    hide ByteDescr;
    if ts == [] {
      BuffersBody(pos, sizes, ret, e, binds, n);
    } else {
      hide BufWrapperBody;
      hide MatchBufFn;
      hide MatchTyp;
      hide BufWrappable;
      hide InSigma;
      assert ts[0] in ts;
      BodyUnfold(ts, pos, sizes, ret, e, binds, n);
      var x := Fresh(n + 1);
      PatternMatches(false, ts[0], Ident(x), In, binds, n + 1);
      var r := PatAndExp(false, ts[0], Ident(x), In, binds, n + 1);
      var arg := if r.exp.Some? then r.exp.value else Ident(x);
      BufWrapperShape(ts[1..], pos, sizes, ret, Appl(e, arg), r.binds, r.n);
      var w := BufWrapperBody(Describe(ts[1..], pos, sizes, ret), Appl(e, arg), r.binds, r.n);
      MatchFunction(r.pat, w.pat, Describe(ts, pos, sizes, ret), InSigma(ts[0], n + 1), BufSigma(ts[1..], ret, r.n));
    }
  }

  lemma {:induction false} BufNamesReady(h: Host, ts: seq<Typ>, ret: Typ, args: seq<Val>, n: nat)
    requires FitsAll(h, Chain(ts), args)
    ensures |ArgNames(Chain(ts), In, n)| == |args|
    ensures var base := BufSigma(ts, ret, n) + ArgEnv(ArgNames(Chain(ts), In, n), args);
            && NamesReady(h, Chain(ts), args, n, base, map[])
            && forall x :: x in base ==> x.Fresh? && n < x.n <= NextIn(ret, EndIn(ts, n))
  {
    var f := Chain(ts);
    NamesNeverMeet(h, f, args, n);
    var sigma, argEnv := BufSigma(ts, ret, n), ArgEnv(ArgNames(f, In, n), args);
    FitsCount(h, f, args);
    BufNamesApart(h, ts, ret, args, n);
    BufSigmaRange(ts, ret, n);
    BufArgsRange(ts, args, n);
    EndGrows([], ret, EndIn(ts, n));
    SigmaExtends(ts, ret, n);
    var base := sigma + argEnv;
    SubSplit(sigma, argEnv, base);
    forall x | x in FnSigma(f, In, n) ensures x in base && base[x] == FnSigma(f, In, n)[x] { assert sigma[x] == FnSigma(f, In, n)[x]; }
  }

  lemma {:induction false} SigmaExtends(ts: seq<Typ>, ret: Typ, n: nat)
    ensures Sub(FnSigma(Chain(ts), In, n), BufSigma(ts, ret, n))
    decreases |ts|
  {
    if ts != [] {
      var n1 := NextIn(ts[0], n + 1);
      SigmaExtends(ts[1..], ret, n1);
      InSigmaRange(ts[0], n + 1);
      BufSigmaRange(ts[1..], ret, n1);
      var a, b, c := InSigma(ts[0], n + 1), FnSigma(Chain(ts[1..]), In, n1), BufSigma(ts[1..], ret, n1);
      forall x | x in a + b ensures x in a + c && (a + c)[x] == (a + b)[x] {
        if x in b { assert c[x] == b[x]; }
      }
    }
  }

  lemma {:induction false} BufSigmaRange(ts: seq<Typ>, ret: Typ, n: nat)
    ensures Within(BufSigma(ts, ret, n), n, NextIn(ret, EndIn(ts, n)))
    decreases |ts|
  {
    if ts == [] { InSigmaRange(ret, n); } else {
      InSigmaRange(ts[0], n + 1);
      BufSigmaRange(ts[1..], ret, NextIn(ts[0], n + 1));
      EndGrows(ts[1..], ret, NextIn(ts[0], n + 1));
    }
  }

  lemma EndGrows(ts: seq<Typ>, ret: Typ, n: nat)
    ensures NextIn(ret, EndIn(ts, n)) >= n
  {
  }

  lemma {:induction false} BufArgsRange(ts: seq<Typ>, args: seq<Val>, n: nat)
    requires |args| == |ts|
    ensures |ArgNames(Chain(ts), In, n)| == |args| && Within(ArgEnv(ArgNames(Chain(ts), In, n), args), n, EndIn(ts, n))
    decreases |ts|
  {
    if ts != [] {
      var n1 := NextIn(ts[0], n + 1);
      assert ArgNames(Chain(ts), In, n)[1..] == ArgNames(Chain(ts[1..]), In, n1);
      BufArgsRange(ts[1..], args[1..], n1);
    }
  }

  lemma {:induction false} BufNamesApart(h: Host, ts: seq<Typ>, ret: Typ, args: seq<Val>, n: nat)
    requires FitsAll(h, Chain(ts), args) && |ArgNames(Chain(ts), In, n)| == |args|
    ensures var sigma, argEnv, out := BufSigma(ts, ret, n), ArgEnv(ArgNames(Chain(ts), In, n), args), AllInEnv(h, Chain(ts), args, n);
            sigma.Keys !! argEnv.Keys && out.Keys !! (sigma + argEnv).Keys
    decreases |ts|
  {
    hide NextIn;
    hide InSigma;
    hide InEnv;
    if ts != [] {
      var n1 := NextIn(ts[0], n + 1);
      FitsCount(h, Chain(ts), args);
      assert ArgNames(Chain(ts), In, n)[1..] == ArgNames(Chain(ts[1..]), In, n1);
      BufNamesApart(h, ts[1..], ret, args[1..], n1);
      InRanges(h, ts[0], args[0], n + 1);
      BufSigmaRange(ts[1..], ret, n1);
      BufArgsRange(ts[1..], args[1..], n1);
      AllInEnvAbove(h, Chain(ts[1..]), args[1..], n1);
      DisjointRanges(n + 1, n1, args[0], InSigma(ts[0], n + 1), InEnv(h, ts[0], args[0], n + 1), BufSigma(ts[1..], ret, n1),
        ArgEnv(ArgNames(Chain(ts[1..]), In, n1), args[1..]), AllInEnv(h, Chain(ts[1..]), args[1..], n1));
    }
  }

  // The body of the whole wrapper, under the arguments and the pattern's variables.
  lemma BufBodyRuns(h: Host, ts: seq<Typ>, pos: CbufStub.CPosition, sizes: seq<nat>, ret: Typ, n: nat,
                    args: seq<Val>, s: State)
    requires sizes != [] && Supported(ts, ret) && FitsAll(h, Chain(ts), args) && h.arity == |args| + |sizes|
    ensures BufWrappable(Describe(ts, pos, sizes, ret)) && |ArgNames(Chain(ts), In, n)| == |args|
    ensures var w := BufWrapperBody(Describe(ts, pos, sizes, ret), Path(External), [], n);
            EvalML(h, LetBind(w.binds, w.exp), BufSigma(ts, ret, n) + ArgEnv(ArgNames(Chain(ts), In, n), args), s) ==
              BufReply(h, LowerAll(h, Chain(ts), args), sizes, AllViews(Chain(ts)), s)
  {
    hide BufWrapperBody;
    hide Pure;
    hide EvalML;
    hide LetBind;
    hide BufSigma;
    hide NamesReady;
    hide AllViews;
    hide LowerAll;
    hide BufReply;
    hide Describe;
    hide BufWrappable;
    hide EvalsCall;
    hide Chain;
    DescribeWrappable(ts, pos, sizes, ret);
    BufNamesReady(h, ts, ret, args, n);
    var base := BufSigma(ts, ret, n) + ArgEnv(ArgNames(Chain(ts), In, n), args);
    PureNothing(h, base);
    CallItself(h, base + map[]);
    FitsCount(h, Chain(ts), args);
    BufArgsMeaning(h, ts, pos, sizes, ret, Path(External), [], n, base, map[], 0, [], args, s);
    assert [] + LowerAll(h, Chain(ts), args) == LowerAll(h, Chain(ts), args);
  }

  lemma BufReplyMeans(h: Host, lows: seq<Val>, sizes: seq<nat>, k: nat, s: State)
    requires sizes != [] && h.arity == |lows| + |sizes|
    ensures var bufs := NewBuffers(s.created, sizes);
            var (r, w1) := h.ext(lows + StartsOf(bufs), s.w);
            BufReply(h, lows, sizes, k, s) == (Tuple([NestPairs(bufs), r]), State(w1, s.created + |sizes|, s.writes + |sizes| * k))
  {
    hide NestPairs;
  }

  /** Wrappers with return buffers: for every list of arguments and every non-empty
      list of byte buffers, the wrapper creates each buffer afresh at its declared
      length, calls the external once on the lowered arguments and then the buffers,
      and returns the buffers in the description's nesting paired with the reply. Each
      view's write function runs once per buffer. */
  lemma {:induction false} BufWrapperCorrect(h: Host, ts: seq<Typ>, pos: CbufStub.CPosition, sizes: seq<nat>, ret: Typ, n: nat,
                          args: seq<Val>, s: State)
    requires sizes != [] && Supported(ts, ret) && FitsAll(h, Chain(ts), args) && h.arity == |args| + |sizes|
    ensures BufWrappable(Describe(ts, pos, sizes, ret))
    ensures var f := Describe(ts, pos, sizes, ret);
            var (pat, exp) := BufWrapperFor(f, n);
            var bufs := NewBuffers(s.created, sizes);
            var (r, w1) := h.ext(LowerAll(h, Chain(ts), args) + StartsOf(bufs), s.w);
            && MatchBufFn(pat, f).Some?
            && RunWrapper(h, exp, MatchBufFn(pat, f).value, args, s) ==
               (Tuple([NestPairs(bufs), r]),
                State(w1, s.created + |sizes|, s.writes + |sizes| * AllViews(Chain(ts))))
  {
    hide BufWrapperBody;
    hide MatchBufFn;
    hide NestPairs;
    hide EvalML;
    hide LetBind;
    hide BufSigma;
    hide AllViews;
    hide LowerAll;
    hide NewBuffers;
    hide Describe;
    hide BufWrappable;
    hide BufReply;
    hide Chain;
    BufBodyRuns(h, ts, pos, sizes, ret, n, args, s);
    BufWrapperShape(ts, pos, sizes, ret, Path(External), [], n);
    BufReplyMeans(h, LowerAll(h, Chain(ts), args), sizes, AllViews(Chain(ts)), s);
  }

  /** What is returned is the reply itself, not the reply raised at its type; the two
      agree, whatever the views do, exactly for types that need no conversion. */
  lemma RetbufResultIff(ret: Typ)
    ensures !Converted(ret) ==> forall h: Host, r: Val :: Raise(h, ret, r) == r
    ensures Converted(ret) ==> exists h: Host, r: Val :: Raise(h, ret, r) != r
  {
    if Converted(ret) {
      var h := Host((v: ViewInfo, x: Val) => UnitVal, (v: ViewInfo, x: Val) => UnitVal,
                    (args: seq<Val>, w: World) => (UnitVal, w), 1);
      assert Raise(h, ret, CInt(0)) != CInt(0);
    } else {
      forall h: Host, r: Val ensures Raise(h, ret, r) == r {}
    }
  }
}

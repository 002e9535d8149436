/** Bytecode stubs: `byte_fn` (src/cstubs/cstubs_generate_c.ml:252-265) and the functions
    the C file defines for one description (344-352). */
module ByteStub {
  import opened CtypesStatic
  import opened CLanguage
  import opened LetFloat
  import opened CStub

  const ARGV := Named("argv")
  const MAX_BYTE_ARGS := 5

  /** The recursive `build_call`: argv[k-1] is read first, its variable put in front. */
  function BuildCall(f: CFunction, args: seq<CExp>, k: nat, n: nat): (CComp, nat)
    decreases k, 0
  {
    if k == 0 then (Eff(App(f, args)), n)
    else Bind(Eff(Index(Exp(Local(ARGV, Pointer(VALUE))), IntConst(k - 1))), VALUE, BuildCallAfter(f, args, k - 1), n)
  }

  function BuildCallAfter(f: CFunction, args: seq<CExp>, k: nat): Cont
    decreases k, 1
  {
    (x: CExp, j: nat) => BuildCall(f, [x] + args, k, j)
  }

  function NativeStub(d: CFundef): CFunction { CFunction(d.name, true, true, d.ret) }

  function ByteStubFor(d: CFundef, n: nat): CComp {
    BuildCall(NativeStub(d), [], |d.params|, n).0
  }

  // A number as `%d` prints it.
  function Decimal(n: nat): (s: string)
    ensures |s| > 0
  {
    var d := ('0' as int + n % 10) as char;
    if n < 10 then [d] else Decimal(n / 10) + [d]
  }

  // The number a string of digits stands for.
  function ValueOf(s: string): int {
    if s == [] then 0 else 10 * ValueOf(s[..|s| - 1]) + (s[|s| - 1] as int - '0' as int)
  }

  lemma {:induction false} DecimalStandsFor(n: nat)
    ensures ValueOf(Decimal(n)) == n
  {
    var s := Decimal(n);
    var d := ('0' as int + n % 10) as char;
    if n >= 10 {
      DecimalStandsFor(n / 10);
      assert s == Decimal(n / 10) + [d];
      assert s[..|s| - 1] == Decimal(n / 10);
    } else {
      assert s == [d] && s[..0] == [];
    }
  }

  lemma {:induction false} DecimalInjective(a: nat, b: nat)
    requires Decimal(a) == Decimal(b)
    ensures a == b
    decreases a
  {
    var s, t := Decimal(a), Decimal(b);
    assert s[|s| - 1] == ('0' as int + a % 10) as char && t[|t| - 1] == ('0' as int + b % 10) as char;
    if a >= 10 && b >= 10 {
      assert s[..|s| - 1] == Decimal(a / 10) && t[..|t| - 1] == Decimal(b / 10);
      DecimalInjective(a / 10, b / 10);
    }
  }

  /** `byte_fn`: its two parameters are a C array and a count. */
  function ByteFn(d: CFundef, n: nat): CFundef {
    CFundef(d.name + "_byte" + Decimal(|d.params|), [(ARGV, Pointer(VALUE)), (Named("argc"), Primitive(Int))], VALUE,
            ByteStubFor(d, n))
  }

  /** The functions emitted for one stub: a byte stub is added when it has more parameters
      than the bytecode interpreter passes separately. */
  function Emitted(d: CFundef, n: nat): seq<CFundef> {
    if |d.params| > MAX_BYTE_ARGS then [d, ByteFn(d, n)] else [d]
  }

  /** The world after reading argv[k-1] down to argv[0]. */
  function AfterReads(m: Machine, argv: Val, k: nat, w: World): World {
    if k == 0 then w else AfterReads(m, argv, k - 1, Do(m, OIndex, [argv, CInt(k - 1)], w).1)
  }

  // Loading argv[i] gives the i-th argument, whatever else has happened.
  ghost predicate ArgvHolds(m: Machine, argv: Val, args: seq<Val>) {
    forall i, w :: 0 <= i < |args| ==> m.run(OIndex, [argv, CInt(i)], w).v == args[i]
  }

  lemma ReadStep(m: Machine, f: CFunction, done: seq<CExp>, k: nat, n: nat, env: Env, w: World)
    requires k > 0 && KeepsValues(m)
    ensures var (v, w1) := Do(m, OIndex, [Lookup(env, ARGV), CInt(k - 1)], w);
            EvalComp(m, BuildCall(f, done, k, n).0, env, w) ==
            EvalComp(m, BuildCall(f, [Local(Fresh(n + 1), VALUE)] + done, k - 1, n + 1).0, env[Fresh(n + 1) := v], w1)
  {
    hide Do;
    var e := Index(Exp(Local(ARGV, Pointer(VALUE))), IntConst(k - 1));
    assert EvalExp(m, Local(ARGV, Pointer(VALUE)), env) == Lookup(env, ARGV);
    assert EvalEff(m, e, env, w) == Do(m, OIndex, [Lookup(env, ARGV), CInt(k - 1)], w);
    assert BuildCall(f, done, k, n).0 ==
           Let(Fresh(n + 1), VALUE, e, BuildCall(f, [Local(Fresh(n + 1), VALUE)] + done, k - 1, n + 1).0);
  }

  lemma ArgvRead(m: Machine, argv: Val, args: seq<Val>, i: nat, w: World)
    requires ArgvHolds(m, argv, args) && i < |args|
    ensures Do(m, OIndex, [argv, CInt(i)], w).0 == args[i]
  {
  }

  lemma CallOnly(m: Machine, f: CFunction, done: seq<CExp>, n: nat, env: Env, w: World)
    ensures var (v, w1) := Do(m, OCall(f), EvalExps(m, done, env), w);
            EvalComp(m, BuildCall(f, done, 0, n).0, env, w) == Outcome(v, w1, Plain)
  {
    hide Do;
  }

  /** What is still to be read goes in front of what has been read, in order. */
  lemma {:induction false} BuildCallMeaning(m: Machine, f: CFunction, done: seq<CExp>, k: nat, n: nat,
                                            args: seq<Val>, env: Env, w: World)
    requires KeepsValues(m) && k <= |args| && ArgvHolds(m, Lookup(env, ARGV), args)
    requires forall e :: e in done ==> ExpBelow(e, n)
    ensures EvalComp(m, BuildCall(f, done, k, n).0, env, w) ==
            var (v, w1) := Do(m, OCall(f), args[..k] + EvalExps(m, done, env), AfterReads(m, Lookup(env, ARGV), k, w));
            Outcome(v, w1, Plain)
    decreases k
  {
    hide ExpBelow;
    hide Do;
    hide ArgvHolds;
    hide KeepsValues;
    if k == 0 {
      CallOnly(m, f, done, n, env, AfterReads(m, Lookup(env, ARGV), 0, w));
      hide EvalComp;
      assert args[..0] + EvalExps(m, done, env) == EvalExps(m, done, env);
    } else {
      hide EvalComp;
      hide BuildCall;
      var argv := Lookup(env, ARGV);
      var x := Local(Fresh(n + 1), VALUE);
      var (v, w1) := Do(m, OIndex, [argv, CInt(k - 1)], w);
      ArgvRead(m, argv, args, k - 1, w);
      ReadStep(m, f, done, k, n, env, w);
      StillBelowAll(done, x, n);
      BuildCallMeaning(m, f, [x] + done, k - 1, n + 1, args, env[Fresh(n + 1) := v], w1);
      SameValues(m, done, x, n, v, env);
      OneMore(args, k, EvalExps(m, done, env));
    }
  }

  lemma OneMore(args: seq<Val>, k: nat, rest: seq<Val>)
    requires 0 < k <= |args|
    ensures args[..k - 1] + ([args[k - 1]] + rest) == args[..k] + rest
  {
  }

  lemma StillBelowAll(done: seq<CExp>, x: CExp, n: nat)
    requires ExpBelow(x, n + 1) && forall e :: e in done ==> ExpBelow(e, n)
    ensures forall e :: e in [x] + done ==> ExpBelow(e, n + 1)
  {
    forall e | e in [x] + done ensures ExpBelow(e, n + 1) {
      if e in done { ExpBelowMonotone(e, n, n + 1); }
    }
  }

  lemma ReadBack(m: Machine, n: nat, v: Val, env: Env)
    ensures EvalExp(m, Local(Fresh(n + 1), VALUE), env[Fresh(n + 1) := v]) == v
  {
  }

  lemma SameValues(m: Machine, done: seq<CExp>, x: CExp, n: nat, v: Val, env: Env)
    requires x == Local(Fresh(n + 1), VALUE) && forall e :: e in done ==> ExpBelow(e, n)
    ensures EvalExps(m, [x] + done, env[Fresh(n + 1) := v]) == [v] + EvalExps(m, done, env)
  {
    hide ExpBelow;
    hide EvalExp;
    var env1 := env[Fresh(n + 1) := v];
    assert EvalExp(m, x, env1) == v by { ReadBack(m, n, v, env); }
    forall i | 0 <= i < |done| ensures EvalExp(m, ([x] + done)[i + 1], env1) == EvalExp(m, done[i], env) {
      assert done[i] in done;
      SameBelow(m, done[i], n, env, env1);
    }
    var vs := EvalExps(m, [x] + done, env1);
    assert vs[0] == v;
    forall i | 0 <= i < |vs| ensures vs[i] == ([v] + EvalExps(m, done, env))[i] {
      if i > 0 { assert vs[i] == EvalExp(m, ([x] + done)[i - 1 + 1], env1); }
    }
  }

  // A load of one element of argv.
  predicate LoadsElement(e: Event, argv: Val, i: int) { e.op == OIndex && e.args == [argv, CInt(i)] }

  // The elements are read last to first, and nothing else is done.
  lemma {:induction false} ReadsDownwards(m: Machine, argv: Val, k: nat, w: World) returns (loads: seq<Event>)
    ensures AfterReads(m, argv, k, w).trace == w.trace + loads && |loads| == k
    ensures forall i :: 0 <= i < k ==> LoadsElement(loads[i], argv, k - 1 - i)
  {
    if k == 0 { loads := []; } else {
      var w1 := Do(m, OIndex, [argv, CInt(k - 1)], w).1;
      var e := w1.trace[|w.trace|];
      var more := ReadsDownwards(m, argv, k - 1, w1);
      loads := [e] + more;
      assert LoadsElement(e, argv, k - 1);
      assert w1.trace + more == w.trace + loads;
      hide LoadsElement;
      forall i | 0 <= i < k ensures LoadsElement(loads[i], argv, k - 1 - i) {
        if i > 0 { assert LoadsElement(more[i - 1], argv, k - 1 - 1 - (i - 1)); }
      }
    }
  }

  /** The byte stub reads every element of argv, last to first, and passes them in
      order, first to last, to the native stub, whose reply it returns. */
  lemma ByteStubCallsNativeStub(m: Machine, d: CFundef, n: nat, args: seq<Val>, argv: Val, argc: Val, w: World)
      returns (loads: seq<Event>)
    requires KeepsValues(m) && |args| == |d.params| && ArgvHolds(m, argv, args)
    ensures |ByteFn(d, n).params| == 2
    ensures var read := AfterReads(m, argv, |args|, w);
            && RunBody(m, ByteFn(d, n), [argv, argc], w) == Do(m, OCall(CFunction(d.name, true, true, d.ret)), args, read)
            && read.trace == w.trace + loads && |loads| == |args|
            && forall i :: 0 <= i < |args| ==> LoadsElement(loads[i], argv, |args| - 1 - i)
  {
    hide LoadsElement;
    loads := ReadsDownwards(m, argv, |args|, w);
    ByteFnMeaning(m, d, n, args, argv, argc, w);
  }

  lemma ByteFnMeaning(m: Machine, d: CFundef, n: nat, args: seq<Val>, argv: Val, argc: Val, w: World)
    requires KeepsValues(m) && |args| == |d.params| && ArgvHolds(m, argv, args)
    ensures |ByteFn(d, n).params| == 2
    ensures RunBody(m, ByteFn(d, n), [argv, argc], w) == Do(m, OCall(NativeStub(d)), args, AfterReads(m, argv, |args|, w))
  {
    hide Decimal;
    hide Do;
    hide BuildCall;
    hide EvalComp;
    var env := BindParams(ByteFn(d, n).params, [argv, argc]);
    ArgvFirst(argv, argc);
    BuildCallMeaning(m, NativeStub(d), [], |args|, n, args, env, w);
    assert args[..|args|] + EvalExps(m, [], env) == args;
  }

  lemma ArgvFirst(argv: Val, argc: Val)
    ensures Lookup(BindParams([(ARGV, Pointer(VALUE)), (Named("argc"), Primitive(Int))], [argv, argc]), ARGV) == argv
  {
    var ps: seq<(Name, Typ)> := [(ARGV, Pointer(VALUE)), (Named("argc"), Primitive(Int))];
    assert BindParams(ps, [argv, argc]) == BindParams(ps[1..], [argv, argc][1..])[ARGV := argv];
  }
}

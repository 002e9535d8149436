/** Wrappers at polarity Out, for OCaml functions C calls back
    (src/cstubs/cstubs_generate_ml.ml:578-640, 754-763). */
module InverseWrapper {
  import opened CtypesStatic
  import opened CLanguage
  import opened MLLanguage
  import opened MLWrapper

  // The body's environment holds the pattern variables and the arguments.
  ghost predicate NamesHeld(f: Fn, args: seq<Val>, n: nat, env: Env) {
    && |ArgNames(f, Out, n)| == |args|
    && Sub(FnSigma(f, Out, n), env) && Sub(ArgEnv(ArgNames(f, Out, n), args), env)
  }

  ghost predicate CallsAt(h: Host, e: Exp, env: Env, acc: seq<Val>) {
    forall s: State :: EvalML(h, e, env, s) == CallVal(h, acc, s)
  }

  lemma HeldStep(f: Fn, args: seq<Val>, n: nat, env: Env)
    requires f.Function? && args != [] && NamesHeld(f, args, n, env)
    ensures Lookup(env, Fresh(n + 1)) == args[0]
    ensures Sub(OutSigma(f.arg, n + 1), env)
    ensures NamesHeld(f.rest, args[1..], NextOut(f.arg, n + 1), env)
  {
    var t, rest, n1 := f.arg, f.rest, NextOut(f.arg, n + 1);
    OutRange(t, n + 1);
    ArgNamesAbove(rest, Out, n1);
    ArgEnvKeys(ArgNames(rest, Out, n1), args[1..]);
    FnSigmaAbove(rest, Out, n1);
    assert ArgNames(f, Out, n)[1..] == ArgNames(rest, Out, n1);
    SubSplit(OutSigma(t, n + 1), FnSigma(rest, Out, n1), env);
    SubSplit(map[Fresh(n + 1) := args[0]], ArgEnv(ArgNames(rest, Out, n1), args[1..]), env);
    assert map[Fresh(n + 1) := args[0]][Fresh(n + 1)] == args[0];
  }

  lemma RaisedArgument(h: Host, t: Typ, x: Name, n: nat, env: Env, v: Val, s: State)
    requires PatError(t, Out).None? && Lookup(env, x) == v && Sub(OutSigma(t, n), env)
    ensures var r := PatAndExp(false, t, Ident(x), Out, [], n);
            EvalML(h, if r.exp.Some? then r.exp.value else Ident(x), env, s) == (Raise(h, t, v), s)
  {
    hide PatAndExp;
    RaiseMeaning(h, false, t, Ident(x), [], n, env, s, v, s);
  }

  // The value and state a wrapped callback ends with.
  function Lowered(h: Host, t: Typ, r: Val, s: State): (Val, State)
    requires Fits(h, t, r)
  {
    (Lower(h, t, r), Wrote(s, ViewDepth(t)))
  }

  lemma ResultLowered(h: Host, t: Typ, e: Exp, n: nat, env: Env, acc: seq<Val>, s: State)
    requires PatError(t, In).None? && CallsAt(h, e, env, acc) && Sub(InSigma(t, n), env)
    requires Fits(h, t, CallVal(h, acc, s).0)
    ensures var w := WrapperBody(false, Returns(t), e, Out, [], n);
            var (r, s1) := CallVal(h, acc, s);
            EvalML(h, LetBind(w.binds, w.exp), env, s) == Lowered(h, t, r, s1)
  {
    hide PatAndExp;
    hide PatError;
    hide MatchTyp;
    hide InSigma;
    hide NextIn;
    PatternMatches(false, t, e, In, [], n);
    var (r, s1) := CallVal(h, acc, s);
    var p := PatAndExp(false, t, e, In, [], n);
    if Converted(t) {
      ReturnLowered(h, false, t, e, n, env, s, r, s1);
      LetBindMeaning(h, p.binds, p.exp.value, env, s);
    } else {
      NothingConverted(h, t, r, n);
    }
  }

  lemma ApplyRaised(h: Host, e: Exp, arg: Exp, env: Env, acc: seq<Val>, v: Val)
    requires CallsAt(h, e, env, acc) && |acc| < h.arity && forall s: State :: EvalML(h, arg, env, s) == (v, s)
    ensures CallsAt(h, Appl(e, arg), env, acc + [v])
  {
    forall s: State ensures EvalML(h, Appl(e, arg), env, s) == CallVal(h, acc + [v], s) {
      assert EvalML(h, arg, env, s) == (v, s);
      assert EvalML(h, e, env, s) == CallVal(h, acc, s);
    }
  }

  lemma {:induction false} InverseBodyMeaning(h: Host, f: Fn, e: Exp, n: nat, env: Env, acc: seq<Val>, args: seq<Val>, s: State)
    requires Wrappable(f, Out) && |args| == |Params(f)| && NamesHeld(f, args, n, env)
    requires CallsAt(h, e, env, acc) && |acc| + |args| == h.arity > 0
    requires Fits(h, ReturnType(f), CallVal(h, acc + RaiseAll(h, f, args), s).0)
    ensures var w := WrapperBody(false, f, e, Out, [], n);
            var (r, s1) := CallVal(h, acc + RaiseAll(h, f, args), s);
            EvalML(h, LetBind(w.binds, w.exp), env, s) == Lowered(h, ReturnType(f), r, s1)
    decreases f
  {
    hide PatAndExp;
    hide CallsAt;
    hide CallVal;
    hide Lowered;
    hide EvalML;
    hide LetBind;
    match f
    case Returns(t) =>
      assert acc + [] == acc;
      ResultLowered(h, t, e, n, env, acc, s);
    case Function(t, rest) =>
      hide NamesHeld;
      HeldStep(f, args, n, env);
      var x := Fresh(n + 1);
      PatternMatches(false, t, Ident(x), Out, [], n + 1);
      var r := PatAndExp(false, t, Ident(x), Out, [], n + 1);
      var arg := if r.exp.Some? then r.exp.value else Ident(x);
      var v := Raise(h, t, args[0]);
      forall s2: State ensures EvalML(h, arg, env, s2) == (v, s2) { RaisedArgument(h, t, x, n + 1, env, args[0], s2); }
      ApplyRaised(h, e, arg, env, acc, v);
      assert acc + [v] + RaiseAll(h, rest, args[1..]) == acc + RaiseAll(h, f, args);
      InverseBodyMeaning(h, rest, Appl(e, arg), r.n, env, acc + [v], args[1..], s);
  }

  /** Callbacks: for every description, the wrapper around an OCaml function raises
      each C argument, calls the function once, and lowers its result. */
  lemma InverseWrapperCorrect(h: Host, f: Fn, n: nat, args: seq<Val>, s: State)
    requires Wrappable(f, Out) && f.Function? && |args| == |Params(f)| == h.arity
    requires Fits(h, ReturnType(f), h.ext(RaiseAll(h, f, args), s.w).0)
    ensures var (pat, exp) := WrapperFor(false, f, Out, n);
            var (r, w1) := h.ext(RaiseAll(h, f, args), s.w);
            && MatchFn(pat, f).Some?
            && RunWrapper(h, exp, MatchFn(pat, f).value, args, s) == Lowered(h, ReturnType(f), r, s.(w := w1))
  {
    hide WrapperBody;
    WrapperShape(false, f, Path(External), Out, [], n);
    var w := WrapperBody(false, f, Path(External), Out, [], n);
    if w.trivial {
      var (r, s1) := CallVal(h, args, s);
      TrivialIsIdentity(h, f, args, r);
      ExternalApplied(h, [], args, s);
      assert [] + args == args;
    } else {
      ArgNamesAbove(f, Out, n);
      ArgsApart(f, args, n);
      var sigma, argEnv := FnSigma(f, Out, n), ArgEnv(ArgNames(f, Out, n), args);
      SubSplit(sigma, argEnv, sigma + argEnv);
      assert [] + RaiseAll(h, f, args) == RaiseAll(h, f, args);
      assert CallsAt(h, Path(External), sigma + argEnv, []);
      InverseBodyMeaning(h, f, Path(External), n, sigma + argEnv, [], args, s);
    }
  }

  lemma {:induction false} ArgsApart(f: Fn, args: seq<Val>, n: nat)
    requires |args| == |Params(f)|
    ensures |ArgNames(f, Out, n)| == |args|
    ensures FnSigma(f, Out, n).Keys !! ArgEnv(ArgNames(f, Out, n), args).Keys
    decreases f
  {
    match f
    case Returns(_) =>
    case Function(t, rest) =>
      var n1 := NextOut(t, n + 1);
      ArgsApart(rest, args[1..], n1);
      OutRange(t, n + 1);
      ArgNamesAbove(rest, Out, n1);
      ArgEnvKeys(ArgNames(rest, Out, n1), args[1..]);
      FnSigmaAbove(rest, Out, n1);
      assert ArgNames(f, Out, n)[1..] == ArgNames(rest, Out, n1);
  }
}

/** The let-floating bind `>>=` of src/cstubs/cstubs_generate_c.ml:25-57.

    A continuation takes the expression that stands for the left program's value
    and the fresh-name counter, and returns a program and the new counter. */
module LetFloat {
  import opened CtypesStatic
  import opened CLanguage

  type Cont = (CExp, nat) -> (CComp, nat)

  predicate EndsInReturn(c: CComp) {
    match c
    case Eff(_) => false
    case CamlParam(_, b) => EndsInReturn(b)
    case LetConst(_, _, b) => EndsInReturn(b)
    case LetAssign(_, _, b) => EndsInReturn(b)
    case Let(_, _, _, b) => EndsInReturn(b)
    case CamlReturnT(_, _) => true
    case Return(_, _) => true
  }

  function CamlRet(): Cont { (e: CExp, j: nat) => (CamlReturnT(TypeOfExp(e), e), j) }

  function PlainRet(): Cont { (e: CExp, j: nat) => (Return(TypeOfExp(e), e), j) }

  /** `(e, ty) >>= k` with counter n, run for at most `fuel` nested calls; None
      when it has not finished by then. */
  function BindFuel(fuel: nat, e: CComp, ty: Typ, k: Cont, n: nat): Option<(CComp, nat)>
    decreases fuel
  {
    if fuel == 0 then None
    else match e
      case Eff(Exp(v)) => Some(k(v, n + 1))
      case Eff(f) =>
        var (c, j) := k(Local(Fresh(n + 1), ty), n + 1);
        Some((Let(Fresh(n + 1), ty, f, c), j))
      case CamlParam(xs, b) =>
        (match BindFuel(fuel - 1, b, TypeOfComp(b), k, n + 1)
         case None => None
         case Some((c, j)) => Some((CamlParam(xs, c), j)))
      case LetConst(y, i, b) =>
        (match BindFuel(fuel - 1, b, TypeOfComp(b), k, n + 1)
         case None => None
         case Some((c, j)) => Some((LetConst(y, i, c), j)))
      case LetAssign(lv, v, b) =>
        (match BindFuel(fuel - 1, b, TypeOfComp(b), k, n + 1)
         case None => None
         case Some((c, j)) => Some((LetAssign(lv, v, c), j)))
      case Let(y, yt, f, b) =>
        (match BindFuel(fuel - 1, b, TypeOfComp(b), k, n + 1)
         case None => None
         case Some((c, j)) => Some((Let(y, yt, f, c), j)))
      case CamlReturnT(rty, v) =>
        var (c, j) := k(v, n + 1);
        BindFuel(fuel - 1, c, rty, CamlRet(), j)
      case Return(rty, v) =>
        var (c, j) := k(v, n + 1);
        BindFuel(fuel - 1, c, rty, PlainRet(), j)
  }

  /** `>>=` on a left program that does not end in a return: structural, no fuel. */
  function Bind(e: CComp, ty: Typ, k: Cont, n: nat): (CComp, nat)
    requires !EndsInReturn(e)
    decreases e
  {
    match e
    case Eff(Exp(v)) => k(v, n + 1)
    case Eff(f) =>
      var (c, j) := k(Local(Fresh(n + 1), ty), n + 1);
      (Let(Fresh(n + 1), ty, f, c), j)
    case CamlParam(xs, b) => var (c, j) := Bind(b, TypeOfComp(b), k, n + 1); (CamlParam(xs, c), j)
    case LetConst(y, i, b) => var (c, j) := Bind(b, TypeOfComp(b), k, n + 1); (LetConst(y, i, c), j)
    case LetAssign(lv, v, b) => var (c, j) := Bind(b, TypeOfComp(b), k, n + 1); (LetAssign(lv, v, c), j)
    case Let(y, yt, f, b) => var (c, j) := Bind(b, TypeOfComp(b), k, n + 1); (Let(y, yt, f, c), j)
  }

  /** `c1 >> c2`; the right program is already built when the operator runs. */
  function Then(c1: CComp, c2: CComp, n: nat): (CComp, nat)
    requires !EndsInReturn(c1)
  {
    Bind(c1, Void, (_: CExp, j: nat) => (c2, j), n)
  }

  // ---- Where the continuation is called ----

  /** The expression and counter handed to the continuation. */
  function Tail(e: CComp, ty: Typ, n: nat): (CExp, nat) {
    match e
    case Eff(Exp(v)) => (v, n + 1)
    case Eff(_) => (Local(Fresh(n + 1), ty), n + 1)
    case CamlParam(_, b) => Tail(b, TypeOfComp(b), n + 1)
    case LetConst(_, _, b) => Tail(b, TypeOfComp(b), n + 1)
    case LetAssign(_, _, b) => Tail(b, TypeOfComp(b), n + 1)
    case Let(_, _, _, b) => Tail(b, TypeOfComp(b), n + 1)
    case CamlReturnT(_, v) => (v, n + 1)
    case Return(_, v) => (v, n + 1)
  }

  function Depth(e: CComp): nat {
    match e
    case Eff(_) => 1
    case CamlParam(_, b) => 1 + Depth(b)
    case LetConst(_, _, b) => 1 + Depth(b)
    case LetAssign(_, _, b) => 1 + Depth(b)
    case Let(_, _, _, b) => 1 + Depth(b)
    case CamlReturnT(_, _) => 1
    case Return(_, _) => 1
  }

  // ---- Termination ----

  lemma {:induction false} BindFuelIsBind(fuel: nat, e: CComp, ty: Typ, k: Cont, n: nat)
    requires !EndsInReturn(e) && fuel >= Depth(e)
    ensures BindFuel(fuel, e, ty, k, n) == Some(Bind(e, ty, k, n))
    decreases e
  {
    match e
    case Eff(_) =>
    case CamlParam(_, b) => BindFuelIsBind(fuel - 1, b, TypeOfComp(b), k, n + 1);
    case LetConst(_, _, b) => BindFuelIsBind(fuel - 1, b, TypeOfComp(b), k, n + 1);
    case LetAssign(_, _, b) => BindFuelIsBind(fuel - 1, b, TypeOfComp(b), k, n + 1);
    case Let(_, _, _, b) => BindFuelIsBind(fuel - 1, b, TypeOfComp(b), k, n + 1);
  }

  lemma {:induction false} EnoughFuel(fuel: nat, e: CComp, ty: Typ, k: Cont, n: nat)
    requires EndsInReturn(e)
    requires var (r, j) := Tail(e, ty, n); var c := k(r, j).0; !EndsInReturn(c) && fuel >= Depth(e) + Depth(c)
    ensures BindFuel(fuel, e, ty, k, n).Some?
    decreases e
  {
    match e
    case CamlParam(_, b) => EnoughFuel(fuel - 1, b, TypeOfComp(b), k, n + 1);
    case LetConst(_, _, b) => EnoughFuel(fuel - 1, b, TypeOfComp(b), k, n + 1);
    case LetAssign(_, _, b) => EnoughFuel(fuel - 1, b, TypeOfComp(b), k, n + 1);
    case Let(_, _, _, b) => EnoughFuel(fuel - 1, b, TypeOfComp(b), k, n + 1);
    case CamlReturnT(rty, v) => BindFuelIsBind(fuel - 1, k(v, n + 1).0, rty, CamlRet(), k(v, n + 1).1);
    case Return(rty, v) => BindFuelIsBind(fuel - 1, k(v, n + 1).0, rty, PlainRet(), k(v, n + 1).1);
  }

  lemma {:induction false} TwoReturnsLoop(fuel: nat, e: CComp, ty: Typ, k: Cont, n: nat)
    requires EndsInReturn(e)
    requires var (r, j) := Tail(e, ty, n); EndsInReturn(k(r, j).0)
    ensures BindFuel(fuel, e, ty, k, n).None?
    decreases fuel
  {
    if fuel > 0 {
      match e
      case CamlParam(_, b) => TwoReturnsLoop(fuel - 1, b, TypeOfComp(b), k, n + 1);
      case LetConst(_, _, b) => TwoReturnsLoop(fuel - 1, b, TypeOfComp(b), k, n + 1);
      case LetAssign(_, _, b) => TwoReturnsLoop(fuel - 1, b, TypeOfComp(b), k, n + 1);
      case Let(_, _, _, b) => TwoReturnsLoop(fuel - 1, b, TypeOfComp(b), k, n + 1);
      case CamlReturnT(rty, v) => TwoReturnsLoop(fuel - 1, k(v, n + 1).0, rty, CamlRet(), k(v, n + 1).1);
      case Return(rty, v) => TwoReturnsLoop(fuel - 1, k(v, n + 1).0, rty, PlainRet(), k(v, n + 1).1);
    }
  }

  /** `>>=` terminates exactly when the left program and the program its
      continuation returns do not both end in a return. */
  lemma BindTerminatesIff(e: CComp, ty: Typ, k: Cont, n: nat)
    ensures (exists fuel: nat :: BindFuel(fuel, e, ty, k, n).Some?) <==>
            !(EndsInReturn(e) && EndsInReturn(k(Tail(e, ty, n).0, Tail(e, ty, n).1).0))
  {
    var (r, j) := Tail(e, ty, n);
    if !EndsInReturn(e) {
      BindFuelIsBind(Depth(e), e, ty, k, n);
    } else if !EndsInReturn(k(r, j).0) {
      EnoughFuel(Depth(e) + Depth(k(r, j).0), e, ty, k, n);
    } else {
      forall fuel: nat ensures BindFuel(fuel, e, ty, k, n).None? {
        TwoReturnsLoop(fuel, e, ty, k, n);
      }
    }
  }

  // ---- Meaning ----

  function ExitOf(e: CComp): Exit {
    match e
    case Eff(_) => Plain
    case CamlParam(_, b) => ExitOf(b)
    case LetConst(_, _, b) => ExitOf(b)
    case LetAssign(_, _, b) => ExitOf(b)
    case Let(_, _, _, b) => ExitOf(b)
    case CamlReturnT(_, _) => ByCamlReturn
    case Return(_, _) => ByReturn
  }

  /** The locals and the world at the point where the continuation's program starts. */
  function After(m: Machine, e: CComp, ty: Typ, n: nat, env: Env, w: World): (Env, World)
    decreases e
  {
    match e
    case Eff(Exp(_)) => (env, w)
    case Eff(f) => var (v, w1) := EvalEff(m, f, env, w); (env[Fresh(n + 1) := m.convert(ty, v)], w1)
    case CamlParam(xs, b) =>
      After(m, b, TypeOfComp(b), n + 1, env,
            Do(m, ORoots, seq(|xs|, i requires 0 <= i < |xs| => Lookup(env, xs[i])), w).1)
    case LetConst(x, i, b) => After(m, b, TypeOfComp(b), n + 1, env[x := CInt(i)], w)
    case LetAssign(lv, f, b) =>
      var (v, w1) := EvalEff(m, f, env, w);
      var (env2, w2) := Assign(m, lv, v, env, w1);
      After(m, b, TypeOfComp(b), n + 1, env2, w2)
    case Let(x, xt, f, b) =>
      var (v, w1) := EvalEff(m, f, env, w);
      After(m, b, TypeOfComp(b), n + 1, env[x := m.convert(xt, v)], w1)
    case CamlReturnT(_, _) => (env, w)
    case Return(_, _) => (env, w)
  }

  /** The names a program binds or assigns, with the one its tail is bound to. */
  function Binders(e: CComp, n: nat): set<Name> {
    match e
    case Eff(_) => {Fresh(n + 1)}
    case CamlParam(_, b) => Binders(b, n + 1)
    case LetConst(x, _, b) => {x} + Binders(b, n + 1)
    case LetAssign(lv, _, b) => (if lv.LLocal? then {lv.x} else {}) + Binders(b, n + 1)
    case Let(x, _, _, b) => {x} + Binders(b, n + 1)
    case CamlReturnT(_, _) => {}
    case Return(_, _) => {}
  }

  /** The type the tail's value is converted to when it is bound, if it is. */
  function Bound(m: Machine, e: CComp, ty: Typ, v: Val): Val {
    match e
    case Eff(Exp(_)) => v
    case Eff(_) => m.convert(ty, v)
    case CamlParam(_, b) => Bound(m, b, TypeOfComp(b), v)
    case LetConst(_, _, b) => Bound(m, b, TypeOfComp(b), v)
    case LetAssign(_, _, b) => Bound(m, b, TypeOfComp(b), v)
    case Let(_, _, _, b) => Bound(m, b, TypeOfComp(b), v)
    case CamlReturnT(_, _) => v
    case Return(_, _) => v
  }

  /** Reaching the continuation costs exactly one run of the left program: the
      world is the one it leaves, the expression handed over denotes its value,
      and only the left program's own names have changed. */
  lemma {:induction false} TailDenotesValue(m: Machine, e: CComp, ty: Typ, n: nat, env: Env, w: World)
    ensures var (r, _) := Tail(e, ty, n); var (env1, w1) := After(m, e, ty, n, env, w);
            var o := EvalComp(m, e, env, w);
            && o.w == w1 && o.exit == ExitOf(e)
            && EvalExp(m, r, env1) == Bound(m, e, ty, o.v)
            && forall x {:trigger Lookup(env1, x)} :: x !in Binders(e, n) ==> Lookup(env1, x) == Lookup(env, x)
    decreases e
  {
    match e
    case Eff(_) =>
    case CamlReturnT(_, _) =>
    case Return(_, _) =>
    case CamlParam(xs, b) =>
      TailDenotesValue(m, b, TypeOfComp(b), n + 1, env,
            Do(m, ORoots, seq(|xs|, i requires 0 <= i < |xs| => Lookup(env, xs[i])), w).1);
    case LetConst(x, i, b) => TailDenotesValue(m, b, TypeOfComp(b), n + 1, env[x := CInt(i)], w);
    case LetAssign(lv, f, b) =>
      var (v, w1) := EvalEff(m, f, env, w);
      var (env2, w2) := Assign(m, lv, v, env, w1);
      TailDenotesValue(m, b, TypeOfComp(b), n + 1, env2, w2);
    case Let(x, xt, f, b) =>
      var (v, w1) := EvalEff(m, f, env, w);
      TailDenotesValue(m, b, TypeOfComp(b), n + 1, env[x := m.convert(xt, v)], w1);
  }

  lemma {:induction false} BindMeaning(m: Machine, e: CComp, ty: Typ, k: Cont, n: nat, env: Env, w: World)
    requires !EndsInReturn(e)
    ensures var (r, j) := Tail(e, ty, n); var (env1, w1) := After(m, e, ty, n, env, w);
            EvalComp(m, Bind(e, ty, k, n).0, env, w) == EvalComp(m, k(r, j).0, env1, w1)
    decreases e
  {
    match e
    case Eff(_) =>
    case CamlParam(xs, b) =>
      BindMeaning(m, b, TypeOfComp(b), k, n + 1, env,
            Do(m, ORoots, seq(|xs|, i requires 0 <= i < |xs| => Lookup(env, xs[i])), w).1);
    case LetConst(x, i, b) => BindMeaning(m, b, TypeOfComp(b), k, n + 1, env[x := CInt(i)], w);
    case LetAssign(lv, f, b) =>
      var (v, w1) := EvalEff(m, f, env, w);
      var (env2, w2) := Assign(m, lv, v, env, w1);
      BindMeaning(m, b, TypeOfComp(b), k, n + 1, env2, w2);
    case Let(x, xt, f, b) =>
      var (v, w1) := EvalEff(m, f, env, w);
      BindMeaning(m, b, TypeOfComp(b), k, n + 1, env[x := m.convert(xt, v)], w1);
  }

  function ReturnedType(e: CComp): Typ
    requires EndsInReturn(e)
  {
    match e
    case CamlParam(_, b) => ReturnedType(b)
    case LetConst(_, _, b) => ReturnedType(b)
    case LetAssign(_, _, b) => ReturnedType(b)
    case Let(_, _, _, b) => ReturnedType(b)
    case CamlReturnT(ty, _) => ty
    case Return(ty, _) => ty
  }

  /** When the left program ends in a return, the continuation runs before the
      function is left, the way the left program leaves it. */
  lemma {:induction false} ReturnMeaning(m: Machine, fuel: nat, e: CComp, ty: Typ, k: Cont, n: nat, env: Env, w: World)
    requires EndsInReturn(e) && BindFuel(fuel, e, ty, k, n).Some?
    ensures var (r, j) := Tail(e, ty, n); var (env1, w1) := After(m, e, ty, n, env, w);
            var o := EvalComp(m, k(r, j).0, env1, w1);
            EvalComp(m, BindFuel(fuel, e, ty, k, n).value.0, env, w) ==
              Outcome(Bound(m, k(r, j).0, ReturnedType(e), o.v), o.w, ExitOf(e))
    decreases e
  {
    match e
    case CamlParam(xs, b) =>
      ReturnMeaning(m, fuel - 1, b, TypeOfComp(b), k, n + 1, env,
            Do(m, ORoots, seq(|xs|, i requires 0 <= i < |xs| => Lookup(env, xs[i])), w).1);
    case LetConst(x, i, b) => ReturnMeaning(m, fuel - 1, b, TypeOfComp(b), k, n + 1, env[x := CInt(i)], w);
    case LetAssign(lv, f, b) =>
      var (v, w1) := EvalEff(m, f, env, w);
      var (env2, w2) := Assign(m, lv, v, env, w1);
      ReturnMeaning(m, fuel - 1, b, TypeOfComp(b), k, n + 1, env2, w2);
    case Let(x, xt, f, b) =>
      var (v, w1) := EvalEff(m, f, env, w);
      ReturnMeaning(m, fuel - 1, b, TypeOfComp(b), k, n + 1, env[x := m.convert(xt, v)], w1);
    case CamlReturnT(rty, v) =>
      var (c, j) := k(v, n + 1);
      ReboundReturn(m, fuel - 1, c, rty, CamlRet(), j, env, w);
    case Return(rty, v) =>
      var (c, j) := k(v, n + 1);
      ReboundReturn(m, fuel - 1, c, rty, PlainRet(), j, env, w);
      RetsDiffer();
  }

  lemma ReboundReturn(m: Machine, fuel: nat, c: CComp, rty: Typ, ret: Cont, j: nat, env: Env, w: World)
    requires ret == CamlRet() || ret == PlainRet()
    requires BindFuel(fuel, c, rty, ret, j).Some?
    ensures !EndsInReturn(c)
    ensures var o := EvalComp(m, c, env, w);
            EvalComp(m, BindFuel(fuel, c, rty, ret, j).value.0, env, w) ==
              Outcome(Bound(m, c, rty, o.v), o.w, if ret == CamlRet() then ByCamlReturn else ByReturn)
  {
    if EndsInReturn(c) {
      TwoReturnsLoop(fuel, c, rty, ret, j);
      assert false;
    }
    var big := if fuel > Depth(c) then fuel else Depth(c);
    FuelMonotone(fuel, big, c, rty, ret, j);
    BindFuelIsBind(big, c, rty, ret, j);
    BindMeaning(m, c, rty, ret, j, env, w);
    TailDenotesValue(m, c, rty, j, env, w);
    RetsDiffer();
  }

  lemma RetsDiffer()
    ensures CamlRet() != PlainRet()
  {
    var e := IntConst(0);
    assert CamlRet()(e, 0).0.CamlReturnT? && PlainRet()(e, 0).0.Return?;
  }

  lemma {:induction false} FuelMonotone(fuel: nat, big: nat, e: CComp, ty: Typ, k: Cont, n: nat)
    requires fuel <= big && BindFuel(fuel, e, ty, k, n).Some?
    ensures BindFuel(big, e, ty, k, n) == BindFuel(fuel, e, ty, k, n)
    decreases fuel
  {
    match e
    case Eff(_) =>
    case CamlParam(_, b) => FuelMonotone(fuel - 1, big - 1, b, TypeOfComp(b), k, n + 1);
    case LetConst(_, _, b) => FuelMonotone(fuel - 1, big - 1, b, TypeOfComp(b), k, n + 1);
    case LetAssign(_, _, b) => FuelMonotone(fuel - 1, big - 1, b, TypeOfComp(b), k, n + 1);
    case Let(_, _, _, b) => FuelMonotone(fuel - 1, big - 1, b, TypeOfComp(b), k, n + 1);
    case CamlReturnT(rty, v) =>
      FuelMonotone(fuel - 1, big - 1, k(v, n + 1).0, rty, CamlRet(), k(v, n + 1).1);
    case Return(rty, v) =>
      FuelMonotone(fuel - 1, big - 1, k(v, n + 1).0, rty, PlainRet(), k(v, n + 1).1);
  }

  // ---- No capture ----

  // Every generated name in the expression is at most n.
  predicate ExpBelow(e: CExp, n: nat) {
    match e
    case IntConst(_) => true
    case Local(x, _) => x.Fresh? ==> x.n <= n
    case Cast(_, e') => ExpBelow(e', n)
    case AddrLocal(x, _) => x.Fresh? ==> x.n <= n
    case AddrGlobal(_) => true
  }

  // The value expression a program ends with mentions no generated name above n.
  predicate ResultBelow(c: CComp, n: nat) {
    match c
    case Eff(Exp(e)) => ExpBelow(e, n)
    case Eff(_) => true
    case CamlParam(_, b) => ResultBelow(b, n)
    case LetConst(_, _, b) => ResultBelow(b, n)
    case LetAssign(_, _, b) => ResultBelow(b, n)
    case Let(_, _, _, b) => ResultBelow(b, n)
    case CamlReturnT(_, e) => ExpBelow(e, n)
    case Return(_, e) => ExpBelow(e, n)
  }

  lemma {:induction false} ExpBelowMonotone(e: CExp, n: nat, j: nat)
    requires ExpBelow(e, n) && n <= j
    ensures ExpBelow(e, j)
  {
    match e case Cast(_, e') => ExpBelowMonotone(e', n, j); case _ =>
  }

  lemma {:induction false} TailBelow(e: CComp, ty: Typ, n: nat, lo: nat)
    requires ResultBelow(e, lo) && lo <= n
    ensures Tail(e, ty, n).1 > n && ExpBelow(Tail(e, ty, n).0, Tail(e, ty, n).1)
    decreases e
  {
    match e
    case Eff(Exp(v)) => ExpBelowMonotone(v, lo, n + 1);
    case Eff(_) =>
    case CamlParam(_, b) => TailBelow(b, TypeOfComp(b), n + 1, lo);
    case LetConst(_, _, b) => TailBelow(b, TypeOfComp(b), n + 1, lo);
    case LetAssign(_, _, b) => TailBelow(b, TypeOfComp(b), n + 1, lo);
    case Let(_, _, _, b) => TailBelow(b, TypeOfComp(b), n + 1, lo);
    case CamlReturnT(_, v) => ExpBelowMonotone(v, lo, n + 1);
    case Return(_, v) => ExpBelowMonotone(v, lo, n + 1);
  }

  /** `meaning` is what the continuation's programs do with the value they are
      given, as long as the names in `keep` still hold what they hold in env. */
  ghost predicate Realises(m: Machine, k: Cont, meaning: (Val, World) -> Outcome, keep: iset<Name>, env: Env, n: nat) {
    forall r: CExp, j: nat, env': Env, w: World {:trigger EvalComp(m, k(r, j).0, env', w)} ::
      j >= n && ExpBelow(r, j) && (forall x :: x in keep ==> Lookup(env', x) == Lookup(env, x)) ==>
        EvalComp(m, k(r, j).0, env', w) == meaning(EvalExp(m, r, env'), w)
  }

  /** Let-floating preserves meaning: the program `>>=` builds does what the left
      program does and then what the continuation does with its value. */
  lemma LetFloatingPreservesMeaning(m: Machine, e: CComp, ty: Typ, k: Cont, n: nat, env: Env, w: World,
                                    meaning: (Val, World) -> Outcome, keep: iset<Name>)
    requires !EndsInReturn(e) && ResultBelow(e, n)
    requires Realises(m, k, meaning, keep, env, n)
    requires forall x :: x in Binders(e, n) ==> x !in keep
    ensures var o := EvalComp(m, e, env, w);
            EvalComp(m, Bind(e, ty, k, n).0, env, w) == meaning(Bound(m, e, ty, o.v), o.w)
  {
    var (r, j) := Tail(e, ty, n);
    var (env1, w1) := After(m, e, ty, n, env, w);
    TailBelow(e, ty, n, n);
    TailDenotesValue(m, e, ty, n, env, w);
    BindMeaning(m, e, ty, k, n, env, w);
    assert EvalComp(m, k(r, j).0, env1, w1) == meaning(EvalExp(m, r, env1), w1);
  }
}

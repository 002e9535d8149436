/** The table of OCaml functions handed to C, src/ctypes-foreign/ctypes_closure_properties.ml:
    every interleaving of threads recording and retrieving functions, and of finalisers,
    which the collector may run in any thread at any point, the lock holder's included. */
module ClosureTable {
  import opened CtypesStatic

  // A closure lives on the heap and can be given a finaliser; a static function cannot.
  datatype Function = Closure(id: nat) | Static(id: nat)

  type Boxed = nat

  // Where a thread is in `record` or `retrieve`.
  datatype Pc =
    | Idle
    | RecordStart(fn: Function, boxed: Boxed)
    | RecordFinalise(fn: Function, boxed: Boxed, key: nat)
    | AddLock(fn: Function, boxed: Boxed, key: nat)
    | AddStore(fn: Function, boxed: Boxed, key: nat)
    | AddUnlock(fn: Function, boxed: Boxed, key: nat)
    | FnLock(fn: Function, boxed: Boxed, key: nat)
    | FnFind(fn: Function, boxed: Boxed, key: nat)
    | FnAddId(fn: Function, boxed: Boxed, key: nat)
    | FnAddBoxed(fn: Function, boxed: Boxed, key: nat)
    | FnUnlock(fn: Function, boxed: Boxed, key: nat)
    | GetLock(key: nat)
    | GetFind(key: nat)
    | GetUnlock(key: nat, found: Option<Boxed>)

  // Where a finaliser is.
  datatype Fin = FinTry(fn: Function, key: nat) | FinRemove(fn: Function, key: nat) | FinUnlock(fn: Function, key: nat)

  // The finalisers on top of a thread's own work, innermost first.
  datatype Thread = Thread(pc: Pc, fins: seq<Fin>)

  datatype Recorded = Recorded(fn: Function, boxed: Boxed, id: nat)

  /** `byId` and `byFunction` are the two tables, `holder` the thread that holds their
      mutex, `next` the object-id counter, `installed` the finalisers waiting to run.
      `origin` (which call a key was made for), `done` (the calls of `record` that have
      returned) and `removed` (the keys a finaliser has removed) are history. */
  datatype Shared = Shared(
    next: nat,
    byId: map<nat, Boxed>,
    byFunction: map<Function, nat>,
    holder: Option<nat>,
    installed: map<nat, Function>,
    dead: set<Function>,
    origin: map<nat, (Function, Boxed)>,
    done: seq<Recorded>,
    removed: set<nat>)

  datatype State = State(sh: Shared, threads: seq<Thread>)

  predicate WaitsForLock(pc: Pc) { pc.AddLock? || pc.FnLock? || pc.GetLock? }

  /** `record` and `retrieve`, one access to shared data at a time. */
  function CallStep(t: nat, pc: Pc, sh: Shared): (Pc, Shared)
    requires !pc.Idle? && (WaitsForLock(pc) ==> sh.holder.None?)
  {
    match pc
    case RecordStart(fn, boxed) =>
      (RecordFinalise(fn, boxed, sh.next), sh.(next := sh.next + 1, origin := sh.origin[sh.next := (fn, boxed)]))
    case RecordFinalise(fn, boxed, key) =>
      if fn.Closure? then (AddLock(fn, boxed, key), sh.(installed := sh.installed[key := fn])) else (FnLock(fn, boxed, key), sh)
    case AddLock(fn, boxed, key) => (AddStore(fn, boxed, key), sh.(holder := Some(t)))
    case AddStore(fn, boxed, key) => (AddUnlock(fn, boxed, key), sh.(byId := sh.byId[key := boxed]))
    case AddUnlock(fn, boxed, key) => (Idle, sh.(holder := None, done := sh.done + [Recorded(fn, boxed, key)]))
    case FnLock(fn, boxed, key) => (FnFind(fn, boxed, key), sh.(holder := Some(t)))
    case FnFind(fn, boxed, key) =>
      (if fn in sh.byFunction then FnUnlock(fn, boxed, sh.byFunction[fn]) else FnAddId(fn, boxed, key), sh)
    case FnAddId(fn, boxed, key) => (FnAddBoxed(fn, boxed, key), sh.(byFunction := sh.byFunction[fn := key]))
    case FnAddBoxed(fn, boxed, key) => (FnUnlock(fn, boxed, key), sh.(byId := sh.byId[key := boxed]))
    case FnUnlock(fn, boxed, id) => (Idle, sh.(holder := None, done := sh.done + [Recorded(fn, boxed, id)]))
    case GetLock(id) => (GetFind(id), sh.(holder := Some(t)))
    case GetFind(id) => (GetUnlock(id, if id in sh.byId then Some(sh.byId[id]) else None), sh)
    case GetUnlock(_, _) => (Idle, sh.(holder := None))
  }

  /** `finalise`: if the lock is taken, by whichever thread, the finaliser is installed
      again and this run of it is over. */
  function FinStep(t: nat, f: Fin, sh: Shared): (Option<Fin>, Shared) {
    match f
    case FinTry(fn, key) =>
      if sh.holder.None? then (Some(FinRemove(fn, key)), sh.(holder := Some(t)))
      else (None, sh.(installed := sh.installed[key := fn]))
    case FinRemove(fn, key) => (Some(FinUnlock(fn, key)), sh.(byId := sh.byId - {key}, removed := sh.removed + {key}))
    case FinUnlock(_, _) => (None, sh.(holder := None))
  }

  datatype Action =
    | CallRecord(t: nat, fn: Function, boxed: Boxed)
    | CallRetrieve(t: nat, id: nat)
    | Advance(t: nat)
    | StartFinaliser(t: nat, key: nat)
    | Drop(fn: Function)

  predicate Enabled(s: State, a: Action) {
    match a
    case CallRecord(t, _, _) => t < |s.threads| && s.threads[t] == Thread(Idle, [])
    case CallRetrieve(t, _) => t < |s.threads| && s.threads[t] == Thread(Idle, [])
    case Advance(t) => t < |s.threads| && CanAdvance(s.sh, s.threads[t])
    case StartFinaliser(t, key) => t < |s.threads| && key in s.sh.installed && s.sh.installed[key] in s.sh.dead
    case Drop(_) => true
  }

  predicate CanAdvance(sh: Shared, th: Thread) {
    th.fins != [] || (!th.pc.Idle? && (WaitsForLock(th.pc) ==> sh.holder.None?))
  }

  function ThreadStep(t: nat, th: Thread, sh: Shared): (Thread, Shared)
    requires CanAdvance(sh, th)
  {
    if th.fins == [] then var (pc, sh1) := CallStep(t, th.pc, sh); (Thread(pc, []), sh1)
    else
      var (f, sh1) := FinStep(t, th.fins[0], sh);
      (Thread(th.pc, (if f.Some? then [f.value] else []) + th.fins[1..]), sh1)
  }

  function Apply(s: State, a: Action): State
    requires Enabled(s, a)
  {
    match a
    case CallRecord(t, fn, boxed) => s.(threads := s.threads[t := Thread(RecordStart(fn, boxed), [])])
    case CallRetrieve(t, id) => s.(threads := s.threads[t := Thread(GetLock(id), [])])
    case Drop(fn) => s.(sh := s.sh.(dead := s.sh.dead + {fn}))
    case StartFinaliser(t, key) =>
      State(s.sh.(installed := s.sh.installed - {key}),
            s.threads[t := s.threads[t].(fins := [FinTry(s.sh.installed[key], key)] + s.threads[t].fins)])
    case Advance(t) => var (th, sh) := ThreadStep(t, s.threads[t], s.sh); State(sh, s.threads[t := th])
  }

  function Initial(nthreads: nat): State {
    State(Shared(0, map[], map[], None, map[], {}, map[], [], {}), seq(nthreads, _ => Thread(Idle, [])))
  }

  // A run: every action enabled when it is taken.
  predicate Runs(s: State, run: seq<Action>)
    decreases |run|
  {
    run == [] || (Enabled(s, run[0]) && Runs(Apply(s, run[0]), run[1..]))
  }

  function After(s: State, run: seq<Action>): State
    requires Runs(s, run)
    decreases |run|
  {
    if run == [] then s else After(Apply(s, run[0]), run[1..])
  }

  // ---- The lock ----

  function PcHolds(pc: Pc): nat {
    if pc.AddStore? || pc.AddUnlock? || pc.FnFind? || pc.FnAddId? || pc.FnAddBoxed? || pc.FnUnlock? || pc.GetFind? || pc.GetUnlock?
    then 1 else 0
  }

  function FinHolds(f: Fin): nat { if f.FinTry? then 0 else 1 }

  function FinsHold(fins: seq<Fin>): nat { if fins == [] then 0 else FinHolds(fins[0]) + FinsHold(fins[1..]) }

  function Holds(th: Thread): nat { PcHolds(th.pc) + FinsHold(th.fins) }

  // A thread has exactly one frame that holds the lock, or none, as the lock says.
  predicate LockFits(sh: Shared, t: nat, th: Thread) { Holds(th) == if sh.holder == Some(t) then 1 else 0 }

  ghost predicate LockInv(s: State) {
    && (s.sh.holder.Some? ==> s.sh.holder.value < |s.threads|)
    && forall t :: 0 <= t < |s.threads| ==> LockFits(s.sh, t, s.threads[t])
  }

  lemma PushFins(f: Fin, fins: seq<Fin>)
    ensures FinsHold([f] + fins) == FinHolds(f) + FinsHold(fins)
  {
    assert ([f] + fins)[1..] == fins;
  }

  // How the holder may change in a step of thread t.
  predicate HolderMoves(t: nat, sh: Shared, sh1: Shared) {
    sh1.holder == sh.holder || (sh.holder.None? && sh1.holder == Some(t)) || (sh.holder == Some(t) && sh1.holder.None?)
  }

  lemma StepKeepsLock(t: nat, th: Thread, sh: Shared)
    requires CanAdvance(sh, th) && LockFits(sh, t, th)
    ensures var (th1, sh1) := ThreadStep(t, th, sh); LockFits(sh1, t, th1) && HolderMoves(t, sh, sh1)
  {
    if th.fins == [] { CallKeepsLock(t, th.pc, sh); } else {
      hide CallStep;
      var below := th.fins[1..];
      var (f, sh1) := FinStep(t, th.fins[0], sh);
      if f.Some? { PushFins(f.value, below); } else { assert [] + below == below; }
    }
  }

  lemma CallKeepsLock(t: nat, pc: Pc, sh: Shared)
    requires !pc.Idle? && (WaitsForLock(pc) ==> sh.holder.None?) && LockFits(sh, t, Thread(pc, []))
    ensures var (pc1, sh1) := CallStep(t, pc, sh); LockFits(sh1, t, Thread(pc1, [])) && HolderMoves(t, sh, sh1)
  {
  }

  lemma LockKept(s: State, a: Action)
    requires LockInv(s) && Enabled(s, a)
    ensures LockInv(Apply(s, a))
  {
    hide LockFits;
    var s1 := Apply(s, a);
    if a.Drop? {
      forall u | 0 <= u < |s.threads| ensures LockFits(s1.sh, u, s.threads[u]) { SameHolder(s.sh, s1.sh, u, s.threads[u]); }
    } else {
      var t := a.t;
      assert LockFits(s.sh, t, s.threads[t]);
      if a.Advance? { StepKeepsLock(t, s.threads[t], s.sh); } else { QuietStep(s, a); }
      forall u | 0 <= u < |s1.threads| ensures LockFits(s1.sh, u, s1.threads[u]) {
        if u != t { assert LockFits(s.sh, u, s.threads[u]); StillFits(s.sh, s1.sh, t, u, s.threads[u]); }
      }
    }
  }

  lemma SameHolder(sh: Shared, sh1: Shared, t: nat, th: Thread)
    requires sh1.holder == sh.holder
    ensures LockFits(sh, t, th) == LockFits(sh1, t, th)
  {
  }

  lemma StillFits(sh: Shared, sh1: Shared, t: nat, u: nat, th: Thread)
    requires u != t && LockFits(sh, u, th)
    requires HolderMoves(t, sh, sh1)
    ensures LockFits(sh1, u, th)
  {
  }

  // Starting a call or a finaliser does not concern the lock.
  lemma QuietStep(s: State, a: Action)
    requires Enabled(s, a) && !a.Advance? && !a.Drop? && LockFits(s.sh, a.t, s.threads[a.t])
    ensures LockFits(Apply(s, a).sh, a.t, Apply(s, a).threads[a.t]) && Apply(s, a).sh.holder == s.sh.holder
  {
    if a.StartFinaliser? { PushFins(FinTry(s.sh.installed[a.key], a.key), s.threads[a.t].fins); }
  }

  // ---- Where keys come from ----

  // The key a thread has made and not yet stored under.
  function Unstored(pc: Pc): Option<nat> {
    match pc
    case RecordFinalise(_, _, key) => Some(key)
    case AddLock(_, _, key) => Some(key)
    case AddStore(_, _, key) => Some(key)
    case FnLock(_, _, key) => Some(key)
    case FnFind(_, _, key) => Some(key)
    case FnAddId(_, _, key) => Some(key)
    case FnAddBoxed(_, _, key) => Some(key)
    case _ => None
  }

  // A key no other call may return.
  function Owned(pc: Pc): Option<nat> { if pc.AddUnlock? then Some(pc.key) else Unstored(pc) }

  predicate ForClosure(pc: Pc) { pc.AddLock? || pc.AddStore? || pc.AddUnlock? }

  predicate ForStatic(pc: Pc) { pc.FnLock? || pc.FnFind? || pc.FnAddId? || pc.FnAddBoxed? || pc.FnUnlock? }

  // Keys come from the counter, and everything stored under one comes from its call.
  ghost predicate TablesFit(sh: Shared) {
    && (forall k: nat :: k in sh.origin <==> k < sh.next)
    && (forall k :: k in sh.byId ==> k in sh.origin && sh.byId[k] == sh.origin[k].1)
    && (forall f :: f in sh.byFunction ==> f.Static? && sh.byFunction[f] in sh.origin && sh.origin[sh.byFunction[f]].0 == f)
    && (forall k :: k in sh.installed ==> FinFits(sh, sh.installed[k], k))
  }

  predicate FinFits(sh: Shared, fn: Function, key: nat) {
    fn.Closure? && key in sh.origin && sh.origin[key].0 == fn
  }

  predicate PcFits(sh: Shared, pc: Pc) {
    && (Owned(pc).Some? ==> pc.key in sh.origin && sh.origin[pc.key] == (pc.fn, pc.boxed))
    && (ForClosure(pc) ==> pc.fn.Closure?)
    && (ForStatic(pc) ==> pc.fn.Static?)
    && (pc.FnUnlock? || pc.FnAddBoxed? ==> pc.fn in sh.byFunction && sh.byFunction[pc.fn] == pc.key)
    && (pc.FnAddId? ==> pc.fn !in sh.byFunction)
    && (pc.AddUnlock? && pc.fn !in sh.dead ==> pc.key in sh.byId)
  }

  predicate FrameFits(sh: Shared, f: Fin) { FinFits(sh, f.fn, f.key) && f.fn in sh.dead }

  ghost predicate ThreadFits(sh: Shared, th: Thread) {
    PcFits(sh, th.pc) && forall f :: f in th.fins ==> FrameFits(sh, f)
  }

  ghost predicate ThreadsFit(s: State) {
    forall t :: 0 <= t < |s.threads| ==> ThreadFits(s.sh, s.threads[t])
  }

  /** What no step undoes: history, a function's id, and what is stored for a key that
      was not made for an unreachable closure. */
  predicate Grows(sh: Shared, sh1: Shared) {
    && (forall k :: k in sh.origin ==> k in sh1.origin && sh1.origin[k] == sh.origin[k])
    && sh.dead <= sh1.dead && sh.done <= sh1.done
    && (forall f :: f in sh.byFunction ==> f in sh1.byFunction && sh1.byFunction[f] == sh.byFunction[f])
    && (forall k :: k in sh.byId && k in sh.origin && (sh.origin[k].0.Static? || sh.origin[k].0 !in sh.dead) ==> k in sh1.byId)
  }

  // A thread's own step.
  lemma StepFits(t: nat, th: Thread, sh: Shared)
    requires CanAdvance(sh, th) && TablesFit(sh) && ThreadFits(sh, th)
    ensures var (th1, sh1) := ThreadStep(t, th, sh);
            TablesFit(sh1) && ThreadFits(sh1, th1) && Grows(sh, sh1)
  {
    if th.fins == [] { CallStepFits(t, th.pc, sh); } else {
      assert FrameFits(sh, th.fins[0]);
      FinStepFits(t, th.fins[0], sh);
      var (f, sh1) := FinStep(t, th.fins[0], sh);
      FinKeepsPc(t, th.fins[0], sh, th.pc);
      var fins := (if f.Some? then [f.value] else []) + th.fins[1..];
      forall g | g in fins ensures FrameFits(sh1, g) {
        if f.Some? && g == f.value {} else { assert g in th.fins; assert FrameFits(sh, g); }
      }
    }
  }

  lemma CallStepFits(t: nat, pc: Pc, sh: Shared)
    requires !pc.Idle? && (WaitsForLock(pc) ==> sh.holder.None?) && TablesFit(sh) && PcFits(sh, pc)
    ensures var (pc1, sh1) := CallStep(t, pc, sh);
            TablesFit(sh1) && PcFits(sh1, pc1) && Grows(sh, sh1)
  {
    CallStepTables(t, pc, sh);
    CallStepGrows(t, pc, sh);
    if ForStatic(pc) { StaticStepFits(t, pc, sh); } else { ClosureStepFits(t, pc, sh); }
    hide CallStep;
    hide Grows;
    hide TablesFit;
    hide PcFits;
  }

  lemma StaticStepFits(t: nat, pc: Pc, sh: Shared)
    requires ForStatic(pc) && (WaitsForLock(pc) ==> sh.holder.None?) && PcFits(sh, pc)
    ensures PcFits(CallStep(t, pc, sh).1, CallStep(t, pc, sh).0)
  {
  }

  lemma ClosureStepFits(t: nat, pc: Pc, sh: Shared)
    requires !pc.Idle? && !ForStatic(pc) && (WaitsForLock(pc) ==> sh.holder.None?) && PcFits(sh, pc)
    ensures PcFits(CallStep(t, pc, sh).1, CallStep(t, pc, sh).0)
  {
  }

  lemma CallStepTables(t: nat, pc: Pc, sh: Shared)
    requires !pc.Idle? && (WaitsForLock(pc) ==> sh.holder.None?) && TablesFit(sh) && PcFits(sh, pc)
    ensures TablesFit(CallStep(t, pc, sh).1)
  {
    var sh1 := CallStep(t, pc, sh).1;
    if pc.RecordStart? { NewKeyFits(sh, sh1, pc.fn, pc.boxed); }
    else if pc.AddStore? || pc.FnAddBoxed? { StoreFits(sh, sh1, pc.key); }
    else if pc.FnAddId? { IdFits(sh, sh1, pc.fn, pc.key); }
    else { InstallFits(sh, sh1); }
  }

  lemma NewKeyFits(sh: Shared, sh1: Shared, fn: Function, boxed: Boxed)
    requires TablesFit(sh) && sh1 == sh.(next := sh.next + 1, origin := sh.origin[sh.next := (fn, boxed)])
    ensures TablesFit(sh1)
  {
  }

  lemma StoreFits(sh: Shared, sh1: Shared, key: nat)
    requires TablesFit(sh) && key in sh.origin && sh1 == sh.(byId := sh.byId[key := sh.origin[key].1])
    ensures TablesFit(sh1)
  {
  }

  lemma IdFits(sh: Shared, sh1: Shared, fn: Function, key: nat)
    requires TablesFit(sh) && key in sh.origin && sh.origin[key].0 == fn && fn.Static?
    requires sh1 == sh.(byFunction := sh.byFunction[fn := key])
    ensures TablesFit(sh1)
  {
  }

  // Only finalisers that fit are installed, and nothing else in the tables changes.
  lemma InstallFits(sh: Shared, sh1: Shared)
    requires TablesFit(sh) && sh1.next == sh.next && sh1.byId == sh.byId && sh1.byFunction == sh.byFunction && sh1.origin == sh.origin
    requires forall k :: k in sh1.installed ==> (k in sh.installed && sh1.installed[k] == sh.installed[k]) || FinFits(sh, sh1.installed[k], k)
    ensures TablesFit(sh1)
  {
  }

  lemma CallStepGrows(t: nat, pc: Pc, sh: Shared)
    requires !pc.Idle? && (WaitsForLock(pc) ==> sh.holder.None?) && TablesFit(sh) && PcFits(sh, pc)
    ensures Grows(sh, CallStep(t, pc, sh).1)
  {
  }

  lemma FinStepFits(t: nat, f: Fin, sh: Shared)
    requires TablesFit(sh) && FrameFits(sh, f)
    ensures var (f1, sh1) := FinStep(t, f, sh);
            TablesFit(sh1) && (f1.Some? ==> FrameFits(sh1, f1.value)) && Grows(sh, sh1)
  {
  }

  lemma FinKeepsPc(t: nat, f: Fin, sh: Shared, pc: Pc)
    requires PcFits(sh, pc) && FrameFits(sh, f)
    ensures PcFits(FinStep(t, f, sh).1, pc)
  {
  }

  // Another thread's view of a step. Ids are only given out under the lock.
  lemma OthersFit(sh: Shared, sh1: Shared, th: Thread)
    requires ThreadFits(sh, th) && Grows(sh, sh1) && (th.pc.FnAddId? ==> sh1.byFunction == sh.byFunction)
    ensures ThreadFits(sh1, th)
  {
    forall f | f in th.fins ensures FrameFits(sh1, f) { assert FrameFits(sh, f); }
  }

  // A step that gives out an id is made by the lock's holder.
  lemma IdsUnderLock(t: nat, th: Thread, sh: Shared)
    requires CanAdvance(sh, th) && LockFits(sh, t, th)
    ensures ThreadStep(t, th, sh).1.byFunction != sh.byFunction ==> sh.holder == Some(t)
  {
  }

  lemma ThreadsKept(s: State, a: Action)
    requires LockInv(s) && TablesFit(s.sh) && ThreadsFit(s) && Enabled(s, a)
    ensures var s1 := Apply(s, a); TablesFit(s1.sh) && ThreadsFit(s1) && Grows(s.sh, s1.sh)
  {
    hide TablesFit;
    hide LockFits;
    hide ThreadFits;
    hide PcFits;
    var s1 := Apply(s, a);
    if a.Advance? {
      var t := a.t;
      hide Grows;
      assert ThreadFits(s.sh, s.threads[t]) && LockFits(s.sh, t, s.threads[t]);
      StepFits(t, s.threads[t], s.sh);
      IdsUnderLock(t, s.threads[t], s.sh);
      forall u | 0 <= u < |s1.threads| ensures ThreadFits(s1.sh, s1.threads[u]) {
        if u != t {
          assert ThreadFits(s.sh, s.threads[u]) && LockFits(s.sh, u, s.threads[u]);
          if s.threads[u].pc.FnAddId? { AtAddIdHolds(s.sh, u, s.threads[u]); }
          OthersFit(s.sh, s1.sh, s.threads[u]);
        }
      }
    } else {
      QuietFits(s, a);
      forall u | 0 <= u < |s1.threads| ensures ThreadFits(s1.sh, s1.threads[u]) {
        assert ThreadFits(s.sh, s.threads[u]);
        OthersFit(s.sh, s1.sh, s.threads[u]);
      }
    }
  }

  lemma AtAddIdHolds(sh: Shared, t: nat, th: Thread)
    requires LockFits(sh, t, th) && th.pc.FnAddId?
    ensures sh.holder == Some(t)
  {
  }

  lemma QuietFits(s: State, a: Action)
    requires TablesFit(s.sh) && ThreadsFit(s) && Enabled(s, a) && !a.Advance?
    ensures var s1 := Apply(s, a); 
            && TablesFit(s1.sh) && Grows(s.sh, s1.sh) && s1.sh.byFunction == s.sh.byFunction
            && (!a.Drop? ==> ThreadFits(s1.sh, s1.threads[a.t]))
  {
    if !a.Drop? { assert ThreadFits(s.sh, s.threads[a.t]); }
  }

  // ---- What `record` returned ----

  predicate RecordFits(sh: Shared, d: Recorded) {
    && d.id in sh.origin && sh.origin[d.id].0 == d.fn
    && (d.fn.Closure? ==> sh.origin[d.id].1 == d.boxed && (d.fn !in sh.dead ==> d.id in sh.byId))
    && (d.fn.Static? ==> d.fn in sh.byFunction && sh.byFunction[d.fn] == d.id)
  }

  ghost predicate RecordsFit(sh: Shared) {
    forall i :: 0 <= i < |sh.done| ==> RecordFits(sh, sh.done[i])
  }

  lemma RecordStays(sh: Shared, sh1: Shared, d: Recorded)
    requires RecordFits(sh, d) && Grows(sh, sh1)
    ensures RecordFits(sh1, d)
  {
  }

  // What a step adds to the history comes from the thread's own call.
  lemma NewRecordFits(t: nat, th: Thread, sh: Shared)
    requires CanAdvance(sh, th) && PcFits(sh, th.pc)
    ensures var sh1 := ThreadStep(t, th, sh).1;
            || sh1.done == sh.done
            || (th.fins == [] && (th.pc.AddUnlock? || th.pc.FnUnlock?) &&
                sh1.done == sh.done + [Recorded(th.pc.fn, th.pc.boxed, th.pc.key)] &&
                (TablesFit(sh) ==> RecordFits(sh1, Recorded(th.pc.fn, th.pc.boxed, th.pc.key))))
  {
  }

  lemma RecordsKept(s: State, a: Action)
    requires LockInv(s) && TablesFit(s.sh) && ThreadsFit(s) && RecordsFit(s.sh) && Enabled(s, a)
    ensures RecordsFit(Apply(s, a).sh)
  {
    hide TablesFit;
    hide PcFits;
    hide RecordFits;
    hide LockInv;
    ThreadsKept(s, a);
    var s1 := Apply(s, a);
    if a.Advance? {
      assert ThreadFits(s.sh, s.threads[a.t]);
      NewRecordFits(a.t, s.threads[a.t], s.sh);
      hide ThreadStep;
    }
    forall i | 0 <= i < |s1.sh.done| ensures RecordFits(s1.sh, s1.sh.done[i]) {
      if i < |s.sh.done| { assert s1.sh.done[i] == s.sh.done[i]; RecordStays(s.sh, s1.sh, s.sh.done[i]); }
    }
  }

  // ---- A function with an id has its boxed value stored, or about to be ----

  predicate AddingNow(s: State, f: Function) {
    && s.sh.holder.Some? && s.sh.holder.value < |s.threads|
    && s.threads[s.sh.holder.value].pc.FnAddBoxed? && s.threads[s.sh.holder.value].pc.fn == f
  }

  predicate Stored(sh: Shared, f: Function) { f in sh.byFunction && sh.byFunction[f] in sh.byId }

  ghost predicate IdsStored(s: State) {
    forall f :: f in s.sh.byFunction ==> Stored(s.sh, f) || AddingNow(s, f)
  }

  // How one step of thread t changes what is stored for f.
  lemma {:induction false} StoredStep(t: nat, th: Thread, sh: Shared, f: Function)
    requires CanAdvance(sh, th) && LockFits(sh, t, th) && TablesFit(sh) && ThreadFits(sh, th)
    ensures var (th1, sh1) := ThreadStep(t, th, sh);
            && (f in sh1.byFunction && f !in sh.byFunction ==> sh1.holder == Some(t) && th1.pc.FnAddBoxed? && th1.pc.fn == f)
            && (Stored(sh, f) ==> Stored(sh1, f))
            && (th.pc.FnAddBoxed? && th.pc.fn == f ==> Stored(sh1, f) || (sh1.holder == sh.holder && th1.pc == th.pc))
  {
    StepFits(t, th, sh);
    if th.fins != [] { assert FrameFits(sh, th.fins[0]); }
  }

  lemma IdsStoredKept(s: State, a: Action)
    requires LockInv(s) && TablesFit(s.sh) && ThreadsFit(s) && IdsStored(s) && Enabled(s, a)
    ensures IdsStored(Apply(s, a))
  {
    hide TablesFit;
    hide ThreadFits;
    hide LockFits;
    hide Stored;
    var s1 := Apply(s, a);
    if a.Advance? {
      var t := a.t;
      assert ThreadFits(s.sh, s.threads[t]) && LockFits(s.sh, t, s.threads[t]);
      StepKeepsLock(t, s.threads[t], s.sh);
      forall f | f in s1.sh.byFunction ensures Stored(s1.sh, f) || AddingNow(s1, f) {
        StoredStep(t, s.threads[t], s.sh, f);
        hide ThreadStep;
      }
    } else {
      forall f | f in s1.sh.byFunction ensures Stored(s1.sh, f) || AddingNow(s1, f) {
        assert Stored(s.sh, f) == Stored(s1.sh, f) by { SameTables(s.sh, s1.sh, f); }
        if AddingNow(s, f) { QuietPc(s, a); }
      }
    }
  }

  lemma SameTables(sh: Shared, sh1: Shared, f: Function)
    requires sh.byFunction == sh1.byFunction && sh.byId == sh1.byId
    ensures Stored(sh, f) == Stored(sh1, f)
  {
  }

  lemma QuietPc(s: State, a: Action)
    requires Enabled(s, a) && !a.Advance?
    ensures forall t :: 0 <= t < |s.threads| && !s.threads[t].pc.Idle? ==> Apply(s, a).threads[t].pc == s.threads[t].pc
  {
  }

  // ---- Keys never collide ----

  predicate Apart(a: Option<nat>, b: Option<nat>) { a.Some? && b.Some? ==> a.value != b.value }

  predicate NotReturned(a: Option<nat>, d: Recorded) { a.Some? && d.fn.Closure? ==> a.value != d.id }

  ghost predicate KeysApart(s: State) {
    && (forall t, u :: 0 <= t < u < |s.threads| ==> Apart(Owned(s.threads[t].pc), Owned(s.threads[u].pc)))
    && (forall t, i :: 0 <= t < |s.threads| && 0 <= i < |s.sh.done| ==> NotReturned(Owned(s.threads[t].pc), s.sh.done[i]))
    && forall i, j :: 0 <= i < j < |s.sh.done| ==> ClosureIdsDiffer(s.sh.done[i], s.sh.done[j])
  }

  predicate ClosureIdsDiffer(d: Recorded, e: Recorded) { d.fn.Closure? && e.fn.Closure? ==> d.id != e.id }

  // A step owns the same key as before, none, or a new one; giving one up is returning it.
  lemma OwnedStep(t: nat, th: Thread, sh: Shared)
    requires CanAdvance(sh, th)
    ensures var (th1, sh1) := ThreadStep(t, th, sh);
            && (Owned(th1.pc) == Owned(th.pc) || Owned(th1.pc).None? || Owned(th1.pc) == Some(sh.next))
            && (sh1.done == sh.done ||
                (Owned(th1.pc).None? && |sh1.done| == |sh.done| + 1 && sh.done <= sh1.done &&
                 (sh1.done[|sh.done|].fn.Closure? ==> th.pc.FnUnlock? || Owned(th.pc) == Some(sh1.done[|sh.done|].id))))
  {
  }

  lemma KeysKept(s: State, a: Action)
    requires TablesFit(s.sh) && ThreadsFit(s) && RecordsFit(s.sh) && KeysApart(s) && Enabled(s, a)
    ensures KeysApart(Apply(s, a))
  {
    var s1 := Apply(s, a);
    if a.Advance? {
      var t := a.t;
      OwnedStep(t, s.threads[t], s.sh);
      hide ThreadStep;
      hide Unstored;
      assert ThreadFits(s.sh, s.threads[t]);
      OwnedBelow(s);
      assert s1.sh.done == s.sh.done || s1.sh.done == s.sh.done + [s1.sh.done[|s.sh.done|]];
      hide ThreadsFit;
      hide TablesFit;
      hide RecordsFit;
      OwnedApart(s, s1, t);
      RecordedApart(s, s1, t);
    } else { QuietOwned(s, a); }
  }

  // Keys in use have been given out.
  lemma OwnedBelow(s: State)
    requires TablesFit(s.sh) && ThreadsFit(s) && RecordsFit(s.sh)
    ensures forall u :: 0 <= u < |s.threads| ==> Owned(s.threads[u].pc) != Some(s.sh.next)
    ensures forall i :: 0 <= i < |s.sh.done| ==> s.sh.done[i].id != s.sh.next
  {
    hide Unstored;
    forall u | 0 <= u < |s.threads| ensures Owned(s.threads[u].pc) != Some(s.sh.next) { assert ThreadFits(s.sh, s.threads[u]); UnstoredKey(s.threads[u].pc); }
    forall i | 0 <= i < |s.sh.done| ensures s.sh.done[i].id != s.sh.next { assert RecordFits(s.sh, s.sh.done[i]); }
  }

  lemma UnstoredKey(pc: Pc)
    ensures Owned(pc).Some? ==> (pc.RecordFinalise? || ForClosure(pc) || ForStatic(pc)) && Owned(pc).value == pc.key
  {
  }

  lemma OwnedApart(s: State, s1: State, t: nat)
    requires KeysApart(s) && t < |s.threads| == |s1.threads| && s1.threads == s.threads[t := s1.threads[t]]
    requires forall u :: 0 <= u < |s.threads| ==> Owned(s.threads[u].pc) != Some(s.sh.next)
    requires var o := Owned(s1.threads[t].pc); o == Owned(s.threads[t].pc) || o.None? || o == Some(s.sh.next)
    ensures forall u, v :: 0 <= u < v < |s1.threads| ==> Apart(Owned(s1.threads[u].pc), Owned(s1.threads[v].pc))
  {
    hide Owned;
    forall u, v | 0 <= u < v < |s1.threads| ensures Apart(Owned(s1.threads[u].pc), Owned(s1.threads[v].pc)) {
      assert Apart(Owned(s.threads[u].pc), Owned(s.threads[v].pc));
    }
  }

  lemma RecordedApart(s: State, s1: State, t: nat)
    requires KeysApart(s) && t < |s.threads| == |s1.threads| && s1.threads == s.threads[t := s1.threads[t]]
    requires forall i :: 0 <= i < |s.sh.done| ==> s.sh.done[i].id != s.sh.next
    requires var o := Owned(s1.threads[t].pc); o == Owned(s.threads[t].pc) || o.None? || o == Some(s.sh.next)
    requires s1.sh.done == s.sh.done ||
             (Owned(s1.threads[t].pc).None? && |s1.sh.done| == |s.sh.done| + 1 && s.sh.done <= s1.sh.done &&
              (s1.sh.done[|s.sh.done|].fn.Closure? ==> Owned(s.threads[t].pc) == Some(s1.sh.done[|s.sh.done|].id)))
    ensures forall u, i :: 0 <= u < |s1.threads| && 0 <= i < |s1.sh.done| ==> NotReturned(Owned(s1.threads[u].pc), s1.sh.done[i])
    ensures forall i, j :: 0 <= i < j < |s1.sh.done| ==> ClosureIdsDiffer(s1.sh.done[i], s1.sh.done[j])
  {
    hide Owned;
    forall u, i | 0 <= u < |s1.threads| && 0 <= i < |s1.sh.done| ensures NotReturned(Owned(s1.threads[u].pc), s1.sh.done[i]) {
      if i < |s.sh.done| {
        assert NotReturned(Owned(s.threads[u].pc), s.sh.done[i]);
      } else if u != t {
        assert Apart(Owned(s.threads[if u < t then u else t].pc), Owned(s.threads[if u < t then t else u].pc));
      }
    }
    forall i, j | 0 <= i < j < |s1.sh.done| ensures ClosureIdsDiffer(s1.sh.done[i], s1.sh.done[j]) {
      if j < |s.sh.done| { assert ClosureIdsDiffer(s.sh.done[i], s.sh.done[j]); }
      else { assert NotReturned(Owned(s.threads[t].pc), s.sh.done[i]); }
    }
  }

  lemma QuietOwned(s: State, a: Action)
    requires Enabled(s, a) && !a.Advance?
    ensures Apply(s, a).sh.done == s.sh.done && |Apply(s, a).threads| == |s.threads|
    ensures forall t :: 0 <= t < |s.threads| ==> Owned(Apply(s, a).threads[t].pc) == Owned(s.threads[t].pc)
  {
  }

  // ---- What a finaliser has removed stays removed until it unlocks ----

  predicate FrameRemoved(sh: Shared, f: Fin) { f.FinUnlock? ==> f.key !in sh.byId }

  ghost predicate FramesRemoved(sh: Shared, th: Thread) { forall f :: f in th.fins ==> FrameRemoved(sh, f) }

  ghost predicate Removed(s: State) {
    forall t :: 0 <= t < |s.threads| ==> FramesRemoved(s.sh, s.threads[t])
  }

  lemma {:induction false} UnlockHolds(f: Fin, fins: seq<Fin>)
    requires f in fins && f.FinUnlock?
    ensures FinsHold(fins) > 0
  {
    if f != fins[0] { UnlockHolds(f, fins[1..]); }
  }

  // Entries are only added by a call that holds the lock.
  lemma AddedUnderLock(t: nat, th: Thread, sh: Shared)
    requires CanAdvance(sh, th)
    ensures ThreadStep(t, th, sh).1.byId.Keys <= sh.byId.Keys || (th.fins == [] && PcHolds(th.pc) == 1)
  {
  }

  lemma OwnFramesRemoved(t: nat, th: Thread, sh: Shared)
    requires CanAdvance(sh, th) && FramesRemoved(sh, th)
    ensures FramesRemoved(ThreadStep(t, th, sh).1, ThreadStep(t, th, sh).0)
  {
    if th.fins != [] {
      var (th1, sh1) := ThreadStep(t, th, sh);
      forall f | f in th1.fins ensures FrameRemoved(sh1, f) {
        if f in th.fins[1..] { assert f in th.fins && FrameRemoved(sh, f); }
      }
    }
  }

  lemma RemovedKept(s: State, a: Action)
    requires LockInv(s) && Removed(s) && Enabled(s, a)
    ensures Removed(Apply(s, a))
  {
    var s1 := Apply(s, a);
    if a.Advance? {
      var t := a.t;
      AddedUnderLock(t, s.threads[t], s.sh);
      assert FramesRemoved(s.sh, s.threads[t]) && LockFits(s.sh, t, s.threads[t]);
      OwnFramesRemoved(t, s.threads[t], s.sh);
      hide ThreadStep;
      forall u | 0 <= u < |s1.threads| ensures FramesRemoved(s1.sh, s1.threads[u]) {
        if u != t {
          assert FramesRemoved(s.sh, s.threads[u]) && LockFits(s.sh, u, s.threads[u]);
          OtherFramesRemoved(s.sh, s1.sh, t, u, s.threads[t], s.threads[u]);
        }
      }
    } else {
      forall u | 0 <= u < |s1.threads| ensures FramesRemoved(s1.sh, s1.threads[u]) {
        assert FramesRemoved(s.sh, s.threads[u]);
      }
    }
  }

  lemma OtherFramesRemoved(sh: Shared, sh1: Shared, t: nat, u: nat, th: Thread, other: Thread)
    requires u != t && LockFits(sh, t, th) && LockFits(sh, u, other) && FramesRemoved(sh, other)
    requires sh1.byId.Keys <= sh.byId.Keys || (th.fins == [] && PcHolds(th.pc) == 1)
    ensures FramesRemoved(sh1, other)
  {
    forall f | f in other.fins ensures FrameRemoved(sh1, f) {
      assert FrameRemoved(sh, f);
      if f.FinUnlock? { UnlockHolds(f, other.fins); }
    }
  }

  // ---- Whole runs ----

  ghost predicate Inv(s: State) {
    LockInv(s) && TablesFit(s.sh) && ThreadsFit(s) && RecordsFit(s.sh) && IdsStored(s) && KeysApart(s) && Removed(s)
  }

  lemma InvKept(s: State, a: Action)
    requires Inv(s) && Enabled(s, a)
    ensures Inv(Apply(s, a)) && Grows(s.sh, Apply(s, a).sh)
  {
    hide LockInv;
    hide TablesFit;
    hide ThreadsFit;
    hide RecordsFit;
    hide IdsStored;
    hide KeysApart;
    hide Removed;
    hide Apply;
    LockKept(s, a);
    ThreadsKept(s, a);
    RecordsKept(s, a);
    IdsStoredKept(s, a);
    KeysKept(s, a);
    RemovedKept(s, a);
  }

  lemma InitialInv(nthreads: nat)
    ensures Inv(Initial(nthreads))
  {
  }

  lemma {:induction false} RunInv(s: State, run: seq<Action>)
    requires Inv(s) && Runs(s, run)
    ensures Inv(After(s, run)) && Lasts(s.sh, After(s, run).sh)
    decreases |run|
  {
    hide Inv;
    hide Grows;
    hide Apply;
    hide Enabled;
    if run == [] { LastsSelf(s.sh); } else {
      InvKept(s, run[0]);
      var s1 := Apply(s, run[0]);
      RunInv(s1, run[1..]);
      GrowsLasts(s.sh, s1.sh, After(s, run).sh);
    }
  }

  // What a whole run keeps.
  predicate Lasts(sh: Shared, sh1: Shared) {
    && (forall k :: k in sh.origin ==> k in sh1.origin && sh1.origin[k] == sh.origin[k])
    && sh.done <= sh1.done
    && forall f :: f in sh.byFunction ==> f in sh1.byFunction && sh1.byFunction[f] == sh.byFunction[f]
  }

  lemma LastsSelf(sh: Shared)
    ensures Lasts(sh, sh)
  {
  }

  lemma GrowsLasts(sh: Shared, sh1: Shared, sh2: Shared)
    requires Grows(sh, sh1) && Lasts(sh1, sh2)
    ensures Lasts(sh, sh2)
  {
  }

  /** Once `record` has returned an id, then after any run, with any threads and any
      finalisers, a thread that looks the id up finds the recorded value as long as the
      closure is reachable; for a static function it finds the value of the function's
      first recording, whatever happened since. */
  lemma RetrieveFindsRecorded(nthreads: nat, before: seq<Action>, later: seq<Action>, d: Recorded, t: nat)
    requires Runs(Initial(nthreads), before) && d in After(Initial(nthreads), before).sh.done
    requires Runs(After(Initial(nthreads), before), later)
    requires var s := After(After(Initial(nthreads), before), later);
             t < |s.threads| && s.threads[t] == Thread(GetFind(d.id), []) && (d.fn.Static? || d.fn !in s.sh.dead)
    ensures var s0, s := After(Initial(nthreads), before), After(After(Initial(nthreads), before), later);
            && d.id in s0.sh.origin && s0.sh.origin[d.id].0 == d.fn && (d.fn.Closure? ==> s0.sh.origin[d.id].1 == d.boxed)
            && Enabled(s, Advance(t))
            && Apply(s, Advance(t)).threads[t].pc == GetUnlock(d.id, Some(s0.sh.origin[d.id].1))
  {
    hide TablesFit;
    hide ThreadsFit;
    hide KeysApart;
    hide Grows;
    hide Runs;
    hide Unstored;
    InitialInv(nthreads);
    RunInv(Initial(nthreads), before);
    var s0 := After(Initial(nthreads), before);
    RunInv(s0, later);
    var s := After(s0, later);
    var i :| 0 <= i < |s0.sh.done| && s0.sh.done[i] == d;
    assert RecordFits(s0.sh, d) by { assert RecordFits(s0.sh, s0.sh.done[i]); }
    assert RecordFits(s.sh, d) by { assert s.sh.done[i] == d && RecordFits(s.sh, s.sh.done[i]); }
    assert LockFits(s.sh, t, s.threads[t]);
    assert s.sh.holder == Some(t);
    if d.fn.Static? { assert Stored(s.sh, d.fn); }
    ById(s.sh, d.id);
  }

  lemma ById(sh: Shared, k: nat)
    requires TablesFit(sh) && k in sh.byId
    ensures k in sh.origin && sh.byId[k] == sh.origin[k].1
  {
  }

  /** Ids: two recordings share one exactly when they are of the same static function. */
  lemma IdsCollideOnlyForStatics(nthreads: nat, run: seq<Action>, i: nat, j: nat)
    requires Runs(Initial(nthreads), run) && i < j < |After(Initial(nthreads), run).sh.done|
    ensures var done := After(Initial(nthreads), run).sh.done;
            done[i].id == done[j].id <==> done[i].fn == done[j].fn && done[i].fn.Static?
  {
    InitialInv(nthreads);
    RunInv(Initial(nthreads), run);
    var sh := After(Initial(nthreads), run).sh;
    hide LockInv;
    hide TablesFit;
    hide IdsStored;
    hide ThreadsFit;
    hide After;
    hide Runs;
    assert RecordFits(sh, sh.done[i]) && RecordFits(sh, sh.done[j]);
    assert ClosureIdsDiffer(sh.done[i], sh.done[j]);
  }

  /** A static function's id, once given, is its id for ever. */
  lemma StaticIdsAreStable(nthreads: nat, before: seq<Action>, later: seq<Action>, f: Function)
    requires Runs(Initial(nthreads), before) && Runs(After(Initial(nthreads), before), later)
    requires f in After(Initial(nthreads), before).sh.byFunction
    ensures var s0, s := After(Initial(nthreads), before), After(After(Initial(nthreads), before), later);
            f in s.sh.byFunction && s.sh.byFunction[f] == s0.sh.byFunction[f]
  {
    hide Inv;
    InitialInv(nthreads);
    RunInv(Initial(nthreads), before);
    RunInv(After(Initial(nthreads), before), later);
  }

  // ---- Progress ----

  /** A thread that has returned, from any path, holds no lock. */
  lemma ReturnedThreadsHoldNothing(nthreads: nat, run: seq<Action>, t: nat)
    requires Runs(Initial(nthreads), run)
    requires var s := After(Initial(nthreads), run); t < |s.threads| && s.threads[t] == Thread(Idle, [])
    ensures After(Initial(nthreads), run).sh.holder != Some(t)
  {
    InitialInv(nthreads);
    RunInv(Initial(nthreads), run);
    var s := After(Initial(nthreads), run);
    assert LockFits(s.sh, t, s.threads[t]);
  }

  lemma HolderCanAdvance(s: State)
    requires LockInv(s) && s.sh.holder.Some?
    ensures s.sh.holder.value < |s.threads| && Enabled(s, Advance(s.sh.holder.value))
  {
    assert LockFits(s.sh, s.sh.holder.value, s.threads[s.sh.holder.value]);
  }

  /** No deadlock: as long as some thread is inside a call or a finaliser, some thread
      can take a step of its own. */
  lemma NoDeadlock(nthreads: nat, run: seq<Action>, t: nat) returns (u: nat)
    requires Runs(Initial(nthreads), run)
    requires var s := After(Initial(nthreads), run); t < |s.threads| && s.threads[t] != Thread(Idle, [])
    ensures Enabled(After(Initial(nthreads), run), Advance(u))
  {
    InitialInv(nthreads);
    RunInv(Initial(nthreads), run);
    var s := After(Initial(nthreads), run);
    if s.sh.holder.Some? { HolderCanAdvance(s); u := s.sh.holder.value; } else { u := t; }
  }

  // How many steps of its own a thread needs, at most, to let go of the lock.
  function PcLeft(pc: Pc): nat {
    match pc
    case AddStore(_, _, _) => 2
    case AddUnlock(_, _, _) => 1
    case FnFind(_, _, _) => 4
    case FnAddId(_, _, _) => 3
    case FnAddBoxed(_, _, _) => 2
    case FnUnlock(_, _, _) => 1
    case GetFind(_) => 2
    case GetUnlock(_, _) => 1
    case _ => 0
  }

  function FinsLeft(fins: seq<Fin>): nat {
    if fins == [] then 0
    else (match fins[0] case FinTry(_, _) => 3 case FinRemove(_, _) => 2 case FinUnlock(_, _) => 1) + FinsLeft(fins[1..])
  }

  function Left(th: Thread): nat { PcLeft(th.pc) + FinsLeft(th.fins) }

  lemma PushLeft(f: Fin, fins: seq<Fin>)
    ensures FinsLeft([f] + fins) == (match f case FinTry(_, _) => 3 case FinRemove(_, _) => 2 case FinUnlock(_, _) => 1) + FinsLeft(fins)
  {
    assert ([f] + fins)[1..] == fins;
  }

  lemma HolderGetsCloser(t: nat, th: Thread, sh: Shared)
    requires sh.holder == Some(t) && LockFits(sh, t, th)
    ensures CanAdvance(sh, th) && (Left(ThreadStep(t, th, sh).0) < Left(th))
  {
    if th.fins != [] {
      var below := th.fins[1..];
      var (f, sh1) := FinStep(t, th.fins[0], sh);
      if f.Some? { PushLeft(f.value, below); } else { assert [] + below == below; }
    }
  }

  predicate OnlyAdvances(t: nat, run: seq<Action>) { forall i :: 0 <= i < |run| ==> run[i] == Advance(t) }

  /** The lock is always let go: left to itself its holder releases it within a number
      of steps read off from where it stands. */
  lemma {:induction false} HolderReleases(s: State, t: nat) returns (run: seq<Action>)
    requires Inv(s) && s.sh.holder == Some(t)
    ensures t < |s.threads| && OnlyAdvances(t, run) && |run| <= Left(s.threads[t])
    ensures Runs(s, run) && After(s, run).sh.holder != Some(t)
    decreases Left(s.threads[t])
  {
    HolderCanAdvance(s);
    var s1 := Apply(s, Advance(t));
    HolderStep(s, t);
    hide Inv;
    hide Left;
    hide Apply;
    hide Enabled;
    if s1.sh.holder == Some(t) {
      var more := HolderReleases(s1, t);
      run := [Advance(t)] + more;
      assert run[1..] == more;
    } else {
      run := [Advance(t)];
      assert run[1..] == [];
    }
  }

  lemma HolderStep(s: State, t: nat)
    requires Inv(s) && s.sh.holder == Some(t) && t < |s.threads| && Enabled(s, Advance(t))
    ensures Inv(Apply(s, Advance(t))) && Left(Apply(s, Advance(t)).threads[t]) < Left(s.threads[t])
    ensures |Apply(s, Advance(t)).threads| == |s.threads|
  {
    assert LockFits(s.sh, t, s.threads[t]);
    HolderGetsCloser(t, s.threads[t], s.sh);
    InvKept(s, Advance(t));
  }

  // A finaliser's work is done: the entry is gone, or it waits to be run again.
  predicate Settled(sh: Shared, f: Fin) {
    f.key !in sh.byId || (f.key in sh.installed && sh.installed[f.key] == f.fn)
  }

  // The finaliser on top: its next step leaves it on top with less to do, or settles it;
  // what is settled stays so.
  lemma FinAdvances(t: nat, f: Fin, g: Fin, sh: Shared)
    requires FrameRemoved(sh, f) && FrameFits(sh, f) && FrameFits(sh, g)
    ensures var (f1, sh1) := FinStep(t, f, sh);
            && (f1.Some? ==> f1.value.key == f.key && f1.value.fn == f.fn && FinsLeft([f1.value]) < FinsLeft([f]))
            && (f1.None? ==> Settled(sh1, f)) && (Settled(sh, g) ==> Settled(sh1, g))
            && (sh.holder.Some? && sh.holder != Some(t) && f.FinTry? ==> f1.None? && sh1.holder == sh.holder && sh1.byId == sh.byId)
  {
  }

  lemma FinsLeftCons(f: Fin, fins: seq<Fin>)
    ensures FinsLeft([f] + fins) == FinsLeft([f]) + FinsLeft(fins) && FinsLeft([f]) > 0
  {
    PushLeft(f, fins);
    assert [f] + [] == [f];
    PushLeft(f, []);
  }

  // With the lock elsewhere, only finalisers that have not begun can be there.
  lemma {:induction false} OnlyTries(fins: seq<Fin>)
    requires FinsHold(fins) == 0 && fins != []
    ensures fins[0].FinTry? && FinsHold(fins[1..]) == 0
  {
  }

  /** From any state that the invariant allows, some of thread t's own steps finish its
      finalisers and nothing else. */
  lemma {:induction false} Drain(s: State, t: nat, pending: seq<Fin>) returns (run: seq<Action>)
    requires Inv(s) && t < |s.threads|
    requires forall f :: f in pending ==> FrameFits(s.sh, f) && (Settled(s.sh, f) || exists g :: g in s.threads[t].fins && g.key == f.key && g.fn == f.fn)
    ensures OnlyAdvances(t, run) && |run| <= FinsLeft(s.threads[t].fins) && Runs(s, run)
    ensures var s1 := After(s, run);
            && s1.threads == s.threads[t := Thread(s.threads[t].pc, [])]
            && (forall f :: f in pending ==> Settled(s1.sh, f))
            && (s.sh.holder.Some? && s.sh.holder != Some(t) ==> s1.sh.holder == s.sh.holder && s1.sh.byId == s.sh.byId)
    decreases FinsLeft(s.threads[t].fins)
  {
    var th := s.threads[t];
    if th.fins == [] {
      run := [];
    } else {
      var s1 := DrainStep(s, t, pending);
      hide Inv;
      hide FrameFits;
      hide Settled;
      hide Apply;
      hide Enabled;
      hide FinsLeft;
      var more := Drain(s1, t, pending);
      run := [Advance(t)] + more;
      assert run[1..] == more;
    }
  }

  lemma DrainStep(s: State, t: nat, pending: seq<Fin>) returns (s1: State)
    requires Inv(s) && t < |s.threads| && s.threads[t].fins != []
    requires forall f :: f in pending ==> FrameFits(s.sh, f) && (Settled(s.sh, f) || exists g :: g in s.threads[t].fins && g.key == f.key && g.fn == f.fn)
    ensures Enabled(s, Advance(t)) && s1 == Apply(s, Advance(t)) && Inv(s1) && |s1.threads| == |s.threads|
    ensures s1.threads == s.threads[t := s1.threads[t]] && s1.threads[t].pc == s.threads[t].pc
    ensures FinsLeft(s1.threads[t].fins) < FinsLeft(s.threads[t].fins)
    ensures forall f :: f in pending ==> FrameFits(s1.sh, f) && (Settled(s1.sh, f) || exists g :: g in s1.threads[t].fins && g.key == f.key && g.fn == f.fn)
    ensures s.sh.holder.Some? && s.sh.holder != Some(t) ==> s1.sh.holder == s.sh.holder && s1.sh.byId == s.sh.byId
  {
    var th := s.threads[t];
    s1 := Apply(s, Advance(t));
    InvKept(s, Advance(t));
    assert ThreadFits(s.sh, th) && FramesRemoved(s.sh, th) && LockFits(s.sh, t, th);
    hide Inv;
    hide TablesFit;
    hide ThreadsFit;
    hide RecordsFit;
    hide PcFits;
    var top, below := th.fins[0], th.fins[1..];
    assert FrameFits(s.sh, top) && FrameRemoved(s.sh, top);
    FinAdvances(t, top, top, s.sh);
    assert th.fins == [top] + below;
    FinsLeftCons(top, below);
    var (f1, sh1) := FinStep(t, top, s.sh);
    if f1.Some? { FinsLeftCons(f1.value, below); } else { assert [] + below == below; }
    if s.sh.holder.Some? && s.sh.holder != Some(t) { OnlyTries(th.fins); }
    forall f | f in pending
      ensures FrameFits(s1.sh, f) && (Settled(s1.sh, f) || exists g :: g in s1.threads[t].fins && g.key == f.key && g.fn == f.fn)
    {
      FinAdvances(t, top, f, s.sh);
      hide FinStep;
      if !Settled(s.sh, f) {
        var g :| g in th.fins && g.key == f.key && g.fn == f.fn;
        if g in below { assert g in s1.threads[t].fins; } else if f1.Some? { assert f1.value in s1.threads[t].fins; }
      }
    }
  }

  /** No finaliser ever waits: in any reachable state and whoever holds the lock, a bounded
      number of thread t's own steps finish all its finalisers and leave its call where it
      was; of each, the entry is then gone or the finaliser is installed again. While
      another thread holds the lock nothing is removed and that thread keeps it. */
  lemma FinalisersFinish(nthreads: nat, run: seq<Action>, t: nat) returns (drain: seq<Action>)
    requires Runs(Initial(nthreads), run) && t < |After(Initial(nthreads), run).threads|
    ensures var s := After(Initial(nthreads), run);
            && OnlyAdvances(t, drain) && |drain| <= FinsLeft(s.threads[t].fins) && Runs(s, drain)
            && var s1 := After(s, drain);
            && s1.threads == s.threads[t := Thread(s.threads[t].pc, [])]
            && (forall f :: f in s.threads[t].fins ==> Settled(s1.sh, f))
            && (s.sh.holder.Some? && s.sh.holder != Some(t) ==> s1.sh.holder == s.sh.holder && s1.sh.byId == s.sh.byId)
  {
    InitialInv(nthreads);
    RunInv(Initial(nthreads), run);
    var s := After(Initial(nthreads), run);
    assert ThreadFits(s.sh, s.threads[t]);
    hide Inv;
    drain := Drain(s, t, s.threads[t].fins);
  }

  // ---- What finalisers reclaim ----

  // A finaliser among a thread's that has yet to remove the key's entry.
  predicate TakesOut(fins: seq<Fin>, key: nat) { exists f :: f in fins && f.key == key && !f.FinUnlock? }

  ghost predicate PendingIn(s: State, t: nat, key: nat)
    requires t < |s.threads|
  {
    TakesOut(s.threads[t].fins, key)
  }

  // The key's finaliser waits to run, is running, or has done its work.
  ghost predicate Guarded(s: State, key: nat) {
    key in s.sh.installed || key in s.sh.removed || exists t :: 0 <= t < |s.threads| && PendingIn(s, t, key)
  }

  predicate ClosureKey(sh: Shared, key: nat) { key in sh.origin && sh.origin[key].0.Closure? }

  ghost predicate Reclaims(s: State) {
    && (forall k :: k in s.sh.byId && ClosureKey(s.sh, k) ==> Guarded(s, k))
    && (forall t :: 0 <= t < |s.threads| && ForClosure(s.threads[t].pc) ==> Guarded(s, s.threads[t].pc.key))
    && forall k :: k in s.sh.removed ==> k in s.sh.origin && s.sh.origin[k].0 in s.sh.dead
  }

  lemma TakesOutStep(t: nat, f: Fin, below: seq<Fin>, sh: Shared, key: nat)
    requires TakesOut([f] + below, key)
    ensures var (f1, sh1) := FinStep(t, f, sh);
            key in sh1.installed || key in sh1.removed || TakesOut((if f1.Some? then [f1.value] else []) + below, key)
  {
    var g :| g in [f] + below && g.key == key && !g.FinUnlock?;
    var (f1, sh1) := FinStep(t, f, sh);
    var rest := (if f1.Some? then [f1.value] else []) + below;
    if g in below { assert g in rest; } else if f.FinTry? && f1.Some? { assert f1.value in rest; }
  }

  lemma StepHistory(t: nat, th: Thread, sh: Shared)
    requires CanAdvance(sh, th)
    ensures var sh1 := ThreadStep(t, th, sh).1;
            sh.installed.Keys <= sh1.installed.Keys && sh.removed <= sh1.removed
  {
  }

  lemma GuardStep(s: State, t: nat, key: nat)
    requires Enabled(s, Advance(t)) && Guarded(s, key)
    ensures Guarded(Apply(s, Advance(t)), key)
  {
    var s1, th := Apply(s, Advance(t)), s.threads[t];
    StepHistory(t, th, s.sh);
    if key !in s.sh.installed && key !in s.sh.removed {
      var u :| 0 <= u < |s.threads| && PendingIn(s, u, key);
      if u == t {
        assert th.fins != [] && th.fins == [th.fins[0]] + th.fins[1..];
        TakesOutStep(t, th.fins[0], th.fins[1..], s.sh, key);
        if key !in s1.sh.installed && key !in s1.sh.removed { assert PendingIn(s1, t, key); }
      } else {
        assert PendingIn(s1, u, key);
      }
    }
  }

  lemma QuietGuard(s: State, a: Action, key: nat)
    requires Enabled(s, a) && !a.Advance? && Guarded(s, key)
    ensures Guarded(Apply(s, a), key)
  {
    var s1 := Apply(s, a);
    if a.StartFinaliser? && key == a.key {
      assert FinTry(s.sh.installed[key], key) in s1.threads[a.t].fins;
      assert PendingIn(s1, a.t, key);
    } else if key !in s.sh.installed && key !in s.sh.removed {
      var u :| 0 <= u < |s.threads| && PendingIn(s, u, key);
      var f :| f in s.threads[u].fins && f.key == key && !f.FinUnlock?;
      if a.StartFinaliser? && u == a.t { assert f in s1.threads[u].fins; }
      assert PendingIn(s1, u, key);
    }
  }

  // What a step adds is guarded already, or by the finaliser it installs.
  predicate Adds(pc: Pc, pc1: Pc, sh: Shared, sh1: Shared) {
    && (forall k :: k in sh1.byId && k !in sh.byId ==> (pc.AddStore? && k == pc.key) || !ClosureKey(sh1, k))
    && (ForClosure(pc1) ==> (ForClosure(pc) && pc1.key == pc.key) || pc1.key in sh1.installed)
    && (forall k :: k in sh1.removed ==> k in sh.removed || (k in sh1.origin && sh1.origin[k].0 in sh1.dead))
  }

  lemma CallAdds(t: nat, pc: Pc, sh: Shared)
    requires !pc.Idle? && (WaitsForLock(pc) ==> sh.holder.None?) && PcFits(sh, pc)
    ensures var (pc1, sh1) := CallStep(t, pc, sh); Adds(pc, pc1, sh, sh1)
  {
  }

  lemma FinAdds(t: nat, f: Fin, sh: Shared, pc: Pc)
    requires FrameFits(sh, f)
    ensures Adds(pc, pc, sh, FinStep(t, f, sh).1)
  {
  }

  lemma StepAdds(t: nat, th: Thread, sh: Shared)
    requires CanAdvance(sh, th) && TablesFit(sh) && ThreadFits(sh, th)
    ensures var (th1, sh1) := ThreadStep(t, th, sh); Adds(th.pc, th1.pc, sh, sh1) && Grows(sh, sh1)
  {
    StepFits(t, th, sh);
    hide Adds;
    hide Grows;
    hide TablesFit;
    hide PcFits;
    if th.fins == [] { CallAdds(t, th.pc, sh); } else {
      assert FrameFits(sh, th.fins[0]);
      FinAdds(t, th.fins[0], sh, th.pc);
    }
  }

  lemma ReclaimsKept(s: State, a: Action)
    requires Inv(s) && Reclaims(s) && Enabled(s, a)
    ensures Reclaims(Apply(s, a))
  {
    var s1 := Apply(s, a);
    InvKept(s, a);
    hide RecordsFit;
    hide IdsStored;
    hide KeysApart;
    hide LockInv;
    if a.Advance? {
      var t := a.t;
      assert ThreadFits(s.sh, s.threads[t]);
      StepAdds(t, s.threads[t], s.sh);
      AdvanceReclaims(s, t);
    } else {
      QuietReclaims(s, a);
    }
  }

  lemma AdvanceReclaims(s: State, t: nat)
    requires TablesFit(s.sh) && Reclaims(s) && Enabled(s, Advance(t))
    requires var (th1, sh1) := ThreadStep(t, s.threads[t], s.sh); Adds(s.threads[t].pc, th1.pc, s.sh, sh1) && Grows(s.sh, sh1)
    ensures Reclaims(Apply(s, Advance(t)))
  {
    hide ThreadStep;
    var s1 := Apply(s, Advance(t));
    forall k | k in s1.sh.byId && ClosureKey(s1.sh, k) ensures Guarded(s1, k) {
      if k in s.sh.byId {
        assert k in s.sh.origin;
        GuardStep(s, t, k);
      } else {
        assert ForClosure(s.threads[t].pc);
        GuardStep(s, t, k);
      }
    }
    forall u | 0 <= u < |s1.threads| && ForClosure(s1.threads[u].pc) ensures Guarded(s1, s1.threads[u].pc.key) {
      if u != t || (ForClosure(s.threads[t].pc) && s1.threads[t].pc.key == s.threads[t].pc.key) { GuardStep(s, t, s1.threads[u].pc.key); }
    }
  }

  lemma QuietReclaims(s: State, a: Action)
    requires Reclaims(s) && Enabled(s, a) && !a.Advance?
    ensures Reclaims(Apply(s, a))
  {
    var s1 := Apply(s, a);
    forall k | k in s1.sh.byId && ClosureKey(s1.sh, k) ensures Guarded(s1, k) {
      assert k in s.sh.byId && ClosureKey(s.sh, k);
      QuietGuard(s, a, k);
    }
    forall u | 0 <= u < |s1.threads| && ForClosure(s1.threads[u].pc) ensures Guarded(s1, s1.threads[u].pc.key) {
      assert ForClosure(s.threads[u].pc) && s1.threads[u].pc.key == s.threads[u].pc.key;
      QuietGuard(s, a, s1.threads[u].pc.key);
    }
  }

  // ---- A key has one finaliser ----

  function Flag(b: bool): nat { if b then 1 else 0 }

  // How many finalisers for the key are still to do their work in this thread, the one its
  // call is about to install included.
  function Tokens(fins: seq<Fin>, key: nat): nat {
    if fins == [] then 0 else Flag(fins[0].key == key && !fins[0].FinUnlock?) + Tokens(fins[1..], key)
  }

  function Weight(th: Thread, key: nat): nat { Tokens(th.fins, key) + Flag(th.pc.RecordFinalise? && th.pc.key == key) }

  function WeightAll(ths: seq<Thread>, key: nat): nat { if ths == [] then 0 else Weight(ths[0], key) + WeightAll(ths[1..], key) }

  // All there are, those that wait to run and those that have done their work included.
  function Total(s: State, key: nat): nat {
    WeightAll(s.threads, key) + Flag(key in s.sh.installed) + Flag(key in s.sh.removed)
  }

  ghost predicate OneFinaliser(s: State) { forall key: nat :: Total(s, key) <= 1 }

  lemma {:induction false} WeightUpdate(ths: seq<Thread>, t: nat, th: Thread, key: nat)
    requires t < |ths|
    ensures WeightAll(ths[t := th], key) + Weight(ths[t], key) == WeightAll(ths, key) + Weight(th, key)
    decreases |ths|
  {
    hide Weight;
    if t == 0 {
      assert ths[0 := th][1..] == ths[1..];
    } else {
      assert ths[t := th][1..] == ths[1..][t - 1 := th];
      WeightUpdate(ths[1..], t - 1, th, key);
    }
  }

  lemma {:induction false} WeightHas(ths: seq<Thread>, t: nat, key: nat)
    requires t < |ths|
    ensures Weight(ths[t], key) <= WeightAll(ths, key)
    decreases |ths|
  {
    hide Weight;
    if t > 0 { WeightHas(ths[1..], t - 1, key); }
  }

  lemma {:induction false} NoWeight(ths: seq<Thread>, key: nat)
    requires forall t :: 0 <= t < |ths| ==> Weight(ths[t], key) == 0
    ensures WeightAll(ths, key) == 0
    decreases |ths|
  {
    hide Weight;
    if ths != [] {
      forall t | 0 <= t < |ths[1..]| ensures Weight(ths[1..][t], key) == 0 { assert ths[1..][t] == ths[t + 1]; }
      NoWeight(ths[1..], key);
    }
  }

  lemma {:induction false} TokenOf(fins: seq<Fin>, key: nat)
    ensures TakesOut(fins, key) <==> Tokens(fins, key) > 0
  {
    if fins != [] {
      TokenOf(fins[1..], key);
      if TakesOut(fins[1..], key) {
        var f :| f in fins[1..] && f.key == key && !f.FinUnlock?;
        assert f in fins;
      }
      if TakesOut(fins, key) {
        var f :| f in fins && f.key == key && !f.FinUnlock?;
        assert f == fins[0] || f in fins[1..];
      }
    }
  }

  lemma TokensCons(f: Fin, fins: seq<Fin>, key: nat)
    ensures Tokens([f] + fins, key) == Flag(f.key == key && !f.FinUnlock?) + Tokens(fins, key)
  {
    assert ([f] + fins)[1..] == fins;
  }

  lemma CallTokens(t: nat, pc: Pc, sh: Shared, key: nat)
    requires !pc.Idle? && (WaitsForLock(pc) ==> sh.holder.None?)
    ensures var (pc1, sh1) := CallStep(t, pc, sh);
            Flag(pc1.RecordFinalise? && pc1.key == key) + Flag(key in sh1.installed) + Flag(key in sh1.removed) <=
              Flag(pc.RecordFinalise? && pc.key == key) + Flag(key in sh.installed) + Flag(key in sh.removed) +
                Flag(pc.RecordStart? && key == sh.next)
  {
  }

  lemma FinTokens(t: nat, f: Fin, sh: Shared, key: nat)
    ensures var (f1, sh1) := FinStep(t, f, sh);
            Flag(f1.Some? && f1.value.key == key && !f1.value.FinUnlock?) + Flag(key in sh1.installed) + Flag(key in sh1.removed) <=
              Flag(f.key == key && !f.FinUnlock?) + Flag(key in sh.installed) + Flag(key in sh.removed)
  {
  }

  // A step makes a finaliser only for the key it makes.
  lemma {:induction false} StepTokens(t: nat, th: Thread, sh: Shared, key: nat)
    requires CanAdvance(sh, th)
    ensures var (th1, sh1) := ThreadStep(t, th, sh);
            Weight(th1, key) + Flag(key in sh1.installed) + Flag(key in sh1.removed) <=
              Weight(th, key) + Flag(key in sh.installed) + Flag(key in sh.removed) +
                Flag(th.fins == [] && th.pc.RecordStart? && key == sh.next)
  {
    if th.fins == [] {
      CallTokens(t, th.pc, sh, key);
      hide CallStep;
    } else {
      FinTokens(t, th.fins[0], sh, key);
      hide FinStep;
      hide CallStep;
      var below := th.fins[1..];
      var (f1, sh1) := FinStep(t, th.fins[0], sh);
      if f1.Some? { TokensCons(f1.value, below, key); } else { assert [] + below == below; }
    }
  }

  // A key not given out has none.
  lemma NoTokens(s: State, key: nat)
    requires TablesFit(s.sh) && ThreadsFit(s) && Reclaims(s) && key !in s.sh.origin
    ensures Total(s, key) == 0
  {
    forall t | 0 <= t < |s.threads| ensures Weight(s.threads[t], key) == 0 {
      assert ThreadFits(s.sh, s.threads[t]);
      TokenOf(s.threads[t].fins, key);
      forall f | f in s.threads[t].fins ensures f.key != key { assert FrameFits(s.sh, f); }
    }
    NoWeight(s.threads, key);
  }

  lemma OneFinaliserKept(s: State, a: Action)
    requires Inv(s) && Reclaims(s) && OneFinaliser(s) && Enabled(s, a)
    ensures OneFinaliser(Apply(s, a))
  {
    hide LockInv;
    hide RecordsFit;
    hide IdsStored;
    hide KeysApart;
    hide Removed;
    hide Reclaims;
    hide ThreadsFit;
    var s1 := Apply(s, a);
    assert s.sh.next !in s.sh.origin;
    hide TablesFit;
    forall key: nat ensures Total(s1, key) <= 1 {
      assert Total(s, key) <= 1;
      if a.Advance? {
        StepTokens(a.t, s.threads[a.t], s.sh, key);
        hide ThreadStep;
        hide Weight;
        WeightUpdate(s.threads, a.t, s1.threads[a.t], key);
        if key == s.sh.next { NoTokens(s, key); }
      } else {
        QuietTokens(s, a, key);
      }
    }
  }

  lemma QuietTokens(s: State, a: Action, key: nat)
    requires Enabled(s, a) && !a.Advance?
    ensures Total(Apply(s, a), key) <= Total(s, key)
  {
    if !a.Drop? {
      WeightUpdate(s.threads, a.t, Apply(s, a).threads[a.t], key);
      if a.StartFinaliser? { TokensCons(FinTry(s.sh.installed[a.key], a.key), s.threads[a.t].fins, key); }
    }
  }

  // ---- Entries come and go with their finalisers ----

  ghost predicate Pending(s: State, key: nat) {
    key in s.sh.installed || exists t :: 0 <= t < |s.threads| && PendingIn(s, t, key)
  }

  lemma PendingIsNotRemoved(s: State, key: nat)
    requires OneFinaliser(s) && Pending(s, key)
    ensures key !in s.sh.removed
  {
    assert Total(s, key) <= 1;
    if key !in s.sh.installed {
      var t :| 0 <= t < |s.threads| && PendingIn(s, t, key);
      TokenOf(s.threads[t].fins, key);
      WeightHas(s.threads, t, key);
    }
  }

  // A key stored although its finaliser has run already: nothing will remove it.
  predicate Leaked(sh: Shared, key: nat) { key in sh.byId && key in sh.removed }

  // Once `record` has returned a key, only its finaliser touches its entry, once.
  predicate SameFate(sh: Shared, sh1: Shared, key: nat) {
    && (Leaked(sh, key) <==> Leaked(sh1, key))
    && (key in sh.byId || key in sh.removed ==> key in sh1.byId || key in sh1.removed)
  }

  lemma FateKept(s: State, a: Action, d: Recorded)
    requires Inv(s) && OneFinaliser(s) && Enabled(s, a) && d in s.sh.done && d.fn.Closure?
    ensures SameFate(s.sh, Apply(s, a).sh, d.id)
  {
    if a.Advance? {
      var th := s.threads[a.t];
      var i :| 0 <= i < |s.sh.done| && s.sh.done[i] == d;
      assert NotReturned(Owned(th.pc), s.sh.done[i]);
      hide Inv;
      if Leaked(s.sh, d.id) && TakesOut(th.fins, d.id) {
        assert PendingIn(s, a.t, d.id);
        PendingIsNotRemoved(s, d.id);
      }
      hide OneFinaliser;
      StepFate(a.t, th, s.sh, d.id);
    }
  }

  lemma {:induction false} StepFate(t: nat, th: Thread, sh: Shared, key: nat)
    requires CanAdvance(sh, th) && Owned(th.pc) != Some(key) && (Leaked(sh, key) ==> !TakesOut(th.fins, key))
    ensures SameFate(sh, ThreadStep(t, th, sh).1, key)
  {
    if th.fins != [] { assert th.fins[0] in th.fins; }
  }

  ghost predicate AllInv(s: State) { Inv(s) && Reclaims(s) && OneFinaliser(s) }

  lemma AllInvKept(s: State, a: Action)
    requires AllInv(s) && Enabled(s, a)
    ensures AllInv(Apply(s, a)) && Grows(s.sh, Apply(s, a).sh)
  {
    hide Inv;
    hide Reclaims;
    hide OneFinaliser;
    InvKept(s, a);
    ReclaimsKept(s, a);
    OneFinaliserKept(s, a);
  }

  lemma InitialAllInv(nthreads: nat)
    ensures AllInv(Initial(nthreads))
  {
    InitialInv(nthreads);
    forall key: nat ensures Total(Initial(nthreads), key) <= 1 { NoWeight(Initial(nthreads).threads, key); }
  }

  lemma {:induction false} RunFate(s: State, run: seq<Action>, d: Recorded)
    requires AllInv(s) && Runs(s, run)
    ensures AllInv(After(s, run))
    ensures d in s.sh.done && d.fn.Closure? ==> d in After(s, run).sh.done && SameFate(s.sh, After(s, run).sh, d.id)
    decreases |run|
  {
    hide AllInv;
    hide Apply;
    hide Enabled;
    if run != [] {
      AllInvKept(s, run[0]);
      var s1 := Apply(s, run[0]);
      if d in s.sh.done && d.fn.Closure? {
        FateOf(s, run[0], d);
        DoneGrows(s.sh, s1.sh, d);
      }
      hide Grows;
      RunFate(s1, run[1..], d);
    }
  }

  lemma FateOf(s: State, a: Action, d: Recorded)
    requires AllInv(s) && Enabled(s, a) && d in s.sh.done && d.fn.Closure?
    ensures SameFate(s.sh, Apply(s, a).sh, d.id)
  {
    FateKept(s, a, d);
  }

  lemma DoneGrows(sh: Shared, sh1: Shared, d: Recorded)
    requires sh.done <= sh1.done && d in sh.done
    ensures d in sh1.done
  {
    var i :| 0 <= i < |sh.done| && sh.done[i] == d;
    assert sh1.done[i] == d;
  }

  lemma GuardedEntry(s: State, key: nat)
    requires Reclaims(s) && key in s.sh.byId && ClosureKey(s.sh, key) && key !in s.sh.removed
    ensures Pending(s, key)
  {
    assert Guarded(s, key);
  }

  lemma ReturnedIsStored(s: State, d: Recorded)
    requires Inv(s) && d in s.sh.done && d.fn.Closure?
    ensures ClosureKey(s.sh, d.id) && (d.fn !in s.sh.dead ==> d.id in s.sh.byId)
  {
    var i :| 0 <= i < |s.sh.done| && s.sh.done[i] == d;
    assert RecordFits(s.sh, s.sh.done[i]);
  }

  /** Entries live as long as their finalisers: for a closure still reachable when `record`
      returned its id, in every later state the id has an entry exactly when its finaliser
      waits to run or is running and has not removed it. */
  lemma EntryIffPending(nthreads: nat, before: seq<Action>, later: seq<Action>, d: Recorded)
    requires Runs(Initial(nthreads), before) && d in After(Initial(nthreads), before).sh.done
    requires d.fn.Closure? && d.fn !in After(Initial(nthreads), before).sh.dead
    requires Runs(After(Initial(nthreads), before), later)
    ensures var s := After(After(Initial(nthreads), before), later); d.id in s.sh.byId <==> Pending(s, d.id)
  {
    var s0 := After(Initial(nthreads), before);
    var s := After(s0, later);
    InitialAllInv(nthreads);
    RunFate(Initial(nthreads), before, d);
    RunFate(s0, later, d);
    hide Runs;
    hide After;
    ReturnedIsStored(s0, d);
    ReturnedIsStored(s, d);
    assert d.id !in s0.sh.removed by { assert Reclaims(s0); }
    hide Inv;
    hide Reclaims;
    hide OneFinaliser;
    if d.id in s.sh.byId { GuardedEntry(s, d.id); }
    if Pending(s, d.id) { PendingIsNotRemoved(s, d.id); }
  }

  /** Exactly which entries leak: when no finaliser is left for a recorded closure's id, its
      entry is still there if and only if, when `record` returned, the finaliser had already
      run before the entry was added. */
  lemma LeakedIff(nthreads: nat, before: seq<Action>, later: seq<Action>, d: Recorded)
    requires Runs(Initial(nthreads), before) && d in After(Initial(nthreads), before).sh.done && d.fn.Closure?
    requires Runs(After(Initial(nthreads), before), later)
    requires !Pending(After(After(Initial(nthreads), before), later), d.id)
    ensures d.id in After(After(Initial(nthreads), before), later).sh.byId <==> Leaked(After(Initial(nthreads), before).sh, d.id)
  {
    var s0 := After(Initial(nthreads), before);
    var s := After(s0, later);
    InitialAllInv(nthreads);
    RunFate(Initial(nthreads), before, d);
    RunFate(s0, later, d);
    hide Runs;
    hide After;
    ReturnedIsStored(s, d);
    hide Inv;
    hide Reclaims;
    hide OneFinaliser;
    if d.id in s.sh.byId && d.id !in s.sh.removed { GuardedEntry(s, d.id); }
  }

  lemma FinOnly(t: nat, pc: Pc, f: Fin, sh: Shared)
    ensures var (f1, sh1) := FinStep(t, f, sh);
            ThreadStep(t, Thread(pc, [f]), sh) == (Thread(pc, if f1.Some? then [f1.value] else []), sh1)
  {
    assert [f][1..] == [];
    var f1 := FinStep(t, f, sh).0;
    if f1.Some? { assert [f1.value] + [] == [f1.value]; } else { var none: seq<Fin> := []; assert none + [] == none; }
  }

  // The finaliser runs while the call waits for the lock.
  lemma LeakBegins(s: State, fn: Function, boxed: Boxed) returns (states: seq<State>)
    requires s.threads == [Thread(AddLock(fn, boxed, 0), [])] && s.sh.holder.None? && 0 in s.sh.installed && s.sh.installed[0] == fn
    requires fn in s.sh.dead && s.sh.removed == {}
    ensures var run := [StartFinaliser(0, 0), Advance(0), Advance(0), Advance(0)];
            && |states| == 4 && Enabled(s, run[0]) && Apply(s, run[0]) == states[0]
            && (forall i :: 0 <= i < 3 ==> Enabled(states[i], run[i + 1]) && Apply(states[i], run[i + 1]) == states[i + 1])
            && states[3].threads == s.threads && states[3].sh.holder.None? && states[3].sh.removed == {0}
            && 0 !in states[3].sh.installed
  {
    var a, pc := Advance(0), AddLock(fn, boxed, 0);
    var sh := s.sh.(installed := s.sh.installed - {0});
    var none: seq<Fin> := [];
    assert [FinTry(fn, 0)] + none == [FinTry(fn, 0)];
    var s1 := State(sh, [Thread(pc, [FinTry(fn, 0)])]);
    assert Apply(s, StartFinaliser(0, 0)) == s1;
    FinOnly(0, pc, FinTry(fn, 0), sh);
    var sh2 := sh.(holder := Some(0));
    var s2 := State(sh2, [Thread(pc, [FinRemove(fn, 0)])]);
    assert Apply(s1, a) == s2;
    FinOnly(0, pc, FinRemove(fn, 0), sh2);
    var sh3 := sh2.(byId := sh2.byId - {0}, removed := sh2.removed + {0});
    var s3 := State(sh3, [Thread(pc, [FinUnlock(fn, 0)])]);
    assert Apply(s2, a) == s3;
    FinOnly(0, pc, FinUnlock(fn, 0), sh3);
    var s4 := State(sh3.(holder := None), [Thread(pc, [])]);
    assert Apply(s3, a) == s4;
    states := [s1, s2, s3, s4];
  }

  /** A closure that becomes unreachable while it is being recorded can leak: its finaliser
      runs before the entry is added, which then stays for good. */
  lemma {:induction false} LeakExample(fn: Function, boxed: Boxed)
    requires fn.Closure?
    ensures var a := Advance(0);
            var run := [CallRecord(0, fn, boxed), a, a, Drop(fn), StartFinaliser(0, 0), a, a, a, a, a, a];
            && Runs(Initial(1), run)
            && var s := After(Initial(1), run);
            s.threads == [Thread(Idle, [])] && Leaked(s.sh, 0) && 0 !in s.sh.installed
  {
    var a := Advance(0);
    var s0 := Initial(1);
    assert s0.threads == [Thread(Idle, [])];
    var s1 := s0.(threads := [Thread(RecordStart(fn, boxed), [])]);
    assert Apply(s0, CallRecord(0, fn, boxed)) == s1;
    var sh2 := s1.sh.(next := 1, origin := s1.sh.origin[0 := (fn, boxed)]);
    var s2 := State(sh2, [Thread(RecordFinalise(fn, boxed, 0), [])]);
    assert Apply(s1, a) == s2;
    var s3 := State(sh2.(installed := sh2.installed[0 := fn]), [Thread(AddLock(fn, boxed, 0), [])]);
    assert Apply(s2, a) == s3;
    var s4 := s3.(sh := s3.sh.(dead := s3.sh.dead + {fn}));
    assert Apply(s3, Drop(fn)) == s4;
    var during := LeakBegins(s4, fn, boxed);
    hide Apply;
    LeakEnds(during[3], fn, boxed);
    var middle := [StartFinaliser(0, 0), a, a, a];
    RunFrom(s4, middle, during, [a, a, a]);
    var start := [CallRecord(0, fn, boxed), a, a, Drop(fn)];
    RunFrom(s0, start, [s1, s2, s3, s4], middle + [a, a, a]);
    assert start + (middle + [a, a, a]) == [CallRecord(0, fn, boxed), a, a, Drop(fn), StartFinaliser(0, 0), a, a, a, a, a, a];
  }

  // A run through known states.
  lemma {:induction false} RunFrom(s: State, run: seq<Action>, states: seq<State>, more: seq<Action>)
    requires |states| == |run| > 0
    requires Enabled(s, run[0]) && Apply(s, run[0]) == states[0]
    requires forall i :: 0 <= i < |run| - 1 ==> Enabled(states[i], run[i + 1]) && Apply(states[i], run[i + 1]) == states[i + 1]
    requires Runs(states[|run| - 1], more)
    ensures Runs(s, run + more) && After(s, run + more) == After(states[|run| - 1], more)
    decreases |run|
  {
    hide Enabled;
    hide Apply;
    assert (run + more)[1..] == run[1..] + more && (run + more)[0] == run[0];
    if |run| == 1 {
      assert run[1..] + more == more;
    } else {
      forall i | 0 <= i < |run[1..]| - 1
        ensures Enabled(states[1..][i], run[1..][i + 1]) && Apply(states[1..][i], run[1..][i + 1]) == states[1..][i + 1]
      {
        assert states[1..][i] == states[i + 1] && run[1..][i + 1] == run[i + 2] && states[1..][i + 1] == states[i + 2];
      }
      RunFrom(states[0], run[1..], states[1..], more);
    }
  }

  // The call goes on and stores its entry.
  lemma LeakEnds(s: State, fn: Function, boxed: Boxed)
    requires s.threads == [Thread(AddLock(fn, boxed, 0), [])] && s.sh.holder.None? && 0 in s.sh.removed
    ensures var a := Advance(0);
            && Runs(s, [a, a, a])
            && var s1 := After(s, [a, a, a]);
            s1.threads == [Thread(Idle, [])] && Leaked(s1.sh, 0) && s1.sh.installed == s.sh.installed
  {
    var a := Advance(0);
    var sh1 := s.sh.(holder := Some(0));
    var s1 := State(sh1, [Thread(AddStore(fn, boxed, 0), [])]);
    assert Apply(s, a) == s1;
    var sh2 := sh1.(byId := sh1.byId[0 := boxed]);
    var s2 := State(sh2, [Thread(AddUnlock(fn, boxed, 0), [])]);
    assert Apply(s1, a) == s2;
    var s3 := State(sh2.(holder := None, done := sh2.done + [Recorded(fn, boxed, 0)]), [Thread(Idle, [])]);
    assert Apply(s2, a) == s3;
    RunFrom(s, [a, a, a], [s1, s2, s3], []);
    assert [a, a, a] + [] == [a, a, a];
  }

  // ---- One thread at a time ----

  // How far a call is from its end.
  function Rank(pc: Pc): nat {
    match pc
    case Idle => 0
    case RecordStart(_, _) => 7
    case RecordFinalise(_, _, _) => 6
    case FnLock(_, _, _) => 5
    case GetLock(_) => 5
    case AddLock(_, _, _) => 5
    case _ => PcLeft(pc)
  }

  // The lock is free, or held by this call just where it should be.
  predicate Alone(t: nat, pc: Pc, sh: Shared) { sh.holder == if PcHolds(pc) == 1 then Some(t) else None }

  /** A call run to its end with nothing in between. */
  function Finish(t: nat, pc: Pc, sh: Shared): Shared
    requires Alone(t, pc, sh)
    decreases Rank(pc)
  {
    if pc.Idle? then sh else var (pc1, sh1) := CallStep(t, pc, sh); Finish(t, pc1, sh1)
  }

  /** It is a run of the machine. */
  lemma {:induction false} FinishIsARun(s: State, t: nat) returns (run: seq<Action>)
    requires t < |s.threads| && s.threads[t].fins == [] && Alone(t, s.threads[t].pc, s.sh)
    ensures OnlyAdvances(t, run) && Runs(s, run)
    ensures After(s, run) == State(Finish(t, s.threads[t].pc, s.sh), s.threads[t := Thread(Idle, [])])
    decreases Rank(s.threads[t].pc)
  {
    if s.threads[t].pc.Idle? {
      run := [];
      assert s.threads[t := Thread(Idle, [])] == s.threads;
    } else {
      var s1 := Apply(s, Advance(t));
      var more := FinishIsARun(s1, t);
      run := [Advance(t)] + more;
      assert run[1..] == more;
      assert s1.threads[t := Thread(Idle, [])] == s.threads[t := Thread(Idle, [])];
    }
  }

  /** The module's state as the source keeps it. `dead`, `origin`, `done` and `removed`
      are history. */
  class Table {
    var next: nat
    var functionById: map<nat, Boxed>
    var idByFunction: map<Function, nat>
    var holder: Option<nat>
    var finalisers: map<nat, Function>
    ghost var dead: set<Function>
    ghost var origin: map<nat, (Function, Boxed)>
    ghost var done: seq<Recorded>
    ghost var removed: set<nat>

    ghost function Contents(): Shared
      reads this
    {
      Shared(next, functionById, idByFunction, holder, finalisers, dead, origin, done, removed)
    }

    constructor ()
      ensures Contents() == Initial(0).sh
    {
      next, functionById, idByFunction, holder, finalisers := 0, map[], map[], None, map[];
      dead, origin, done, removed := {}, map[], [], {};
    }

    /** `store_non_closure_function`; the caller holds the lock. */
    method StoreNonClosureFunction(fn: Function, boxed: Boxed, id: nat) returns (r: nat)
      requires holder.Some?
      modifies this`functionById, this`idByFunction
      ensures r == if fn in old(idByFunction) then old(idByFunction)[fn] else id
      ensures fn in old(idByFunction) ==> Contents() == old(Contents())
      ensures fn !in old(idByFunction) ==>
                functionById == old(functionById)[id := boxed] && idByFunction == old(idByFunction)[fn := id]
    {
      if fn in idByFunction {
        r := idByFunction[fn];
      } else {
        idByFunction := idByFunction[fn := id];
        functionById := functionById[id := boxed];
        r := id;
      }
    }

    /** `record`: exactly what the machine's call does when nothing comes between. */
    method Record(t: nat, fn: Function, boxed: Boxed) returns (id: nat)
      requires holder.None?
      modifies this
      ensures Contents() == Finish(t, RecordStart(fn, boxed), old(Contents()))
      ensures holder.None? && done == old(done) + [Recorded(fn, boxed, id)]
    {
      var key := next;
      next := next + 1;
      origin := origin[key := (fn, boxed)];
      if fn.Closure? {
        finalisers := finalisers[key := fn];
        holder := Some(t);
        functionById := functionById[key := boxed];
        holder := None;
        id := key;
      } else {
        holder := Some(t);
        id := StoreNonClosureFunction(fn, boxed, key);
        holder := None;
      }
      done := done + [Recorded(fn, boxed, id)];
      RecordAlone(t, fn, boxed, old(Contents()));
    }

    /** `retrieve`: the value stored under the id, or Not_found; the lock is free again
        either way. */
    method Retrieve(t: nat, id: nat) returns (r: Result<Boxed>)
      requires holder.None?
      modifies this`holder
      ensures Contents() == old(Contents())
      ensures r == if id in functionById then Ok(functionById[id]) else Raises(NotFound)
    {
      holder := Some(t);
      if id !in functionById {
        holder := None;
        return Raises(NotFound);
      }
      r := Ok(functionById[id]);
      holder := None;
    }

    /** `finalise key`, whoever holds the lock. */
    method Cleanup(t: nat, fn: Function, key: nat)
      modifies this
      ensures old(holder).Some? ==> Contents() == FinStep(t, FinTry(fn, key), old(Contents())).1
      ensures old(holder).None? ==>
                Contents() == old(Contents()).(byId := old(functionById) - {key}, removed := old(removed) + {key})
    {
      if holder.None? {
        holder := Some(t);
        functionById := functionById - {key};
        removed := removed + {key};
        holder := None;
      } else {
        finalisers := finalisers[key := fn];
      }
    }
  }

  // The shared data after an uninterrupted call of `record`.
  function RecordedAlone(fn: Function, boxed: Boxed, sh: Shared): Shared {
    var key := sh.next;
    var sh1 := sh.(next := key + 1, origin := sh.origin[key := (fn, boxed)]);
    if fn.Closure? then
      sh1.(installed := sh.installed[key := fn], byId := sh.byId[key := boxed], done := sh.done + [Recorded(fn, boxed, key)])
    else if fn in sh.byFunction then sh1.(done := sh.done + [Recorded(fn, boxed, sh.byFunction[fn])])
    else sh1.(byFunction := sh.byFunction[fn := key], byId := sh.byId[key := boxed], done := sh.done + [Recorded(fn, boxed, key)])
  }

  lemma RecordAlone(t: nat, fn: Function, boxed: Boxed, sh: Shared)
    requires sh.holder.None?
    ensures Finish(t, RecordStart(fn, boxed), sh) == RecordedAlone(fn, boxed, sh)
  {
    var key := sh.next;
    var sh1 := sh.(next := key + 1, origin := sh.origin[key := (fn, boxed)]);
    assert Finish(t, RecordStart(fn, boxed), sh) == Finish(t, RecordFinalise(fn, boxed, key), sh1);
    if fn.Closure? { AddAlone(t, fn, boxed, key, sh1); } else { FnAlone(t, fn, boxed, key, sh1); }
  }

  lemma AddAlone(t: nat, fn: Function, boxed: Boxed, key: nat, sh: Shared)
    requires sh.holder.None? && fn.Closure?
    ensures Finish(t, RecordFinalise(fn, boxed, key), sh) ==
            sh.(installed := sh.installed[key := fn], byId := sh.byId[key := boxed], done := sh.done + [Recorded(fn, boxed, key)])
  {
    var sh2 := sh.(installed := sh.installed[key := fn]);
    var sh3 := sh2.(holder := Some(t));
    var sh4 := sh3.(byId := sh.byId[key := boxed]);
    assert Finish(t, RecordFinalise(fn, boxed, key), sh) == Finish(t, AddLock(fn, boxed, key), sh2);
    assert Finish(t, AddLock(fn, boxed, key), sh2) == Finish(t, AddStore(fn, boxed, key), sh3);
    assert Finish(t, AddStore(fn, boxed, key), sh3) == Finish(t, AddUnlock(fn, boxed, key), sh4);
    assert Finish(t, AddUnlock(fn, boxed, key), sh4) == sh4.(holder := None, done := sh.done + [Recorded(fn, boxed, key)]);
  }

  lemma FnAlone(t: nat, fn: Function, boxed: Boxed, key: nat, sh: Shared)
    requires sh.holder.None? && fn.Static?
    ensures Finish(t, RecordFinalise(fn, boxed, key), sh) ==
            if fn in sh.byFunction then sh.(done := sh.done + [Recorded(fn, boxed, sh.byFunction[fn])])
            else sh.(byFunction := sh.byFunction[fn := key], byId := sh.byId[key := boxed], done := sh.done + [Recorded(fn, boxed, key)])
  {
    var sh2 := sh.(holder := Some(t));
    assert Finish(t, RecordFinalise(fn, boxed, key), sh) == Finish(t, FnLock(fn, boxed, key), sh);
    assert Finish(t, FnLock(fn, boxed, key), sh) == Finish(t, FnFind(fn, boxed, key), sh2);
    if fn in sh.byFunction {
      UnlockAlone(t, fn, boxed, sh.byFunction[fn], sh2);
    } else {
      var sh3 := sh2.(byFunction := sh.byFunction[fn := key]);
      assert Finish(t, FnFind(fn, boxed, key), sh2) == Finish(t, FnAddId(fn, boxed, key), sh2);
      assert Finish(t, FnAddId(fn, boxed, key), sh2) == Finish(t, FnAddBoxed(fn, boxed, key), sh3);
      UnlockAlone(t, fn, boxed, key, sh3.(byId := sh.byId[key := boxed]));
    }
  }

  lemma UnlockAlone(t: nat, fn: Function, boxed: Boxed, id: nat, sh: Shared)
    requires sh.holder == Some(t)
    ensures Finish(t, FnUnlock(fn, boxed, id), sh) == sh.(holder := None, done := sh.done + [Recorded(fn, boxed, id)])
  {
  }
}

/**
 To what the promises of js/secsdk-lastest.umd.js settle (sections 27.2.1.3 to 27.2.1.7, 27.2.2.1 and 27.2.5.4 of
 ECMA-262): for every call of the program, microtask and return of a handler, said of the records, the queue and the
 stack themselves; and over whole runs, the call each settled promise owes its status and value to.
 */
module PromiseLaws {
  import opened Wrappers
  import opened Promises

  datatype Settled = Settled(status: Status, value: Value)

  // ---------- Reading a machine ----------

  /** The program itself is running, not the loop over reactions. */
  predicate ProgramRuns(m: Machine) { m.stack == [] || !m.stack[|m.stack| - 1].Drain? }

  predicate Runs(m: Machine, f: Frame) { m.stack != [] && m.stack[|m.stack| - 1] == f }

  function Caller(m: Machine): seq<Frame> { if m.stack == [] then [] else m.stack[..|m.stack| - 1] }

  /** A pair of resolving functions that has not been used, for this promise. */
  predicate MaySettle(m: Machine, r: Resolver, p: nat) {
    && p < |m.promises|
    && match r
       case Own(q) => q == p && !m.promises[p].done
       case Wrapped(w) => w < |m.wrappers| && m.wrappers[w] == Wrapper(false, p)
  }

  predicate HasHandler(ps: PromiseState, r: Reaction) { if ps.status == Fulfilled then r.ok else r.fail }

  /** What the reaction goes on with: the handler's result, or the value that has no handler. */
  function ReactionResult(ps: PromiseState, r: Reaction, v: Value): Value { if HasHandler(ps, r) then v else ps.value }

  predicate SamePromises(m: Machine, t: Machine, p: nat) {
    |t.promises| == |m.promises| && forall q :: 0 <= q < |m.promises| && q != p ==> t.promises[q] == m.promises[q]
  }

  /** Only the status, the value and the two flags of a promise that settles change, and its reactions are announced once. */
  predicate Announced(m: Machine, t: Machine, p: nat)
    requires p < |m.promises|
  {
    && SamePromises(m, t, p)
    && t.promises[p] == m.promises[p].(done := t.promises[p].done, notified := true, status := t.promises[p].status,
                                       value := t.promises[p].value)
    && t.tasks == m.tasks + (if m.promises[p].notified then [] else [Notify(p)])
  }

  /** The pair has been used. */
  predicate Used(m: Machine, t: Machine, r: Resolver) {
    match r
    case Own(p) => t.wrappers == m.wrappers && p < |t.promises| && t.promises[p].done
    case Wrapped(w) => w < |m.wrappers| && t.wrappers == m.wrappers[w := m.wrappers[w].(done := true)]
  }

  // ---------- Calls of the program ----------

  /** A new promise is pending, unused, and has no reactions. */
  lemma PromiseMade(m: Machine)
    requires InRange(m) && ProgramRuns(m)
    ensures Move(m, NewPromise) ==
            m.(promises := m.promises + [PromiseState(|m.promises|, false, false, [], Pending, Undefined, [], [])])
  {
  }

  /** The rejecting function of an unused pair: the promise is rejected with the argument. */
  lemma RejectCall(m: Machine, r: Resolver, v: Value, p: nat)
    requires InRange(m) && ProgramRuns(m) && MaySettle(m, r, p)
    ensures var t := Move(m, CallReject(r, v));
            && Announced(m, t, p) && Used(m, t, r) && t.stack == m.stack
            && t.promises[p].status == Rejected && t.promises[p].value == v
  {
  }

  /** The resolving function of an unused pair: the promise itself rejects it, any other value is looked at first. */
  lemma ResolveCall(m: Machine, r: Resolver, v: Value, p: nat)
    requires InRange(m) && ProgramRuns(m) && MaySettle(m, r, p)
    ensures var t := Move(m, CallResolve(r, v));
            && Used(m, t, r)
            && (v == PromiseValue(p) ==>
                  Announced(m, t, p) && t.stack == m.stack
                  && t.promises[p].status == Rejected && t.promises[p].value == TypeErrorValue)
            && (v != PromiseValue(p) ==>
                  && SamePromises(m, t, p) && t.promises[p] == m.promises[p].(done := t.promises[p].done)
                  && t.tasks == m.tasks && t.stack == m.stack + [Resolving(p, v)])
  {
  }

  /** A pair that was used before does nothing. */
  lemma UsedCall(m: Machine, r: Resolver, v: Value)
    requires InRange(m) && ValidResolver(m, r) && forall p: nat :: !MaySettle(m, r, p)
    ensures Move(m, CallReject(r, v)) == m && Move(m, CallResolve(r, v)) == m
  {
    match r {
      case Own(p) => assert !MaySettle(m, r, p);
      case Wrapped(w) => assert !MaySettle(m, r, m.wrappers[w].target);
    }
  }

  /** The value is settled for unless it is a thenable, which waits for a microtask; a getter's exception rejects. */
  lemma LookupAnswer(m: Machine, p: nat, v: Value, lookup: Lookup)
    requires InRange(m) && Runs(m, Resolving(p, v))
    ensures p < |m.promises|
    ensures var t := Move(m, FinishLookup(lookup));
            && t.stack == Caller(m) && t.wrappers == m.wrappers
            && match lookup
               case NotThenable => Announced(m, t, p) && t.promises[p].status == Fulfilled && t.promises[p].value == v
               case GetterThrows(e) => Announced(m, t, p) && t.promises[p].status == Rejected && t.promises[p].value == e
               case Thenable => t.promises == m.promises && t.tasks == m.tasks + [Job(p, v)]
  {
    TopInRange(m);
    hide InRange;
  }

  /** `then`: a new pending promise, and a reaction for it behind all others of the promise, or a microtask of its own. */
  lemma ThenCall(m: Machine, p: nat, ok: bool, fail: bool)
    requires InRange(m) && ProgramRuns(m) && p < |m.promises|
    ensures var t := Move(m, CallThen(p, ok, fail));
            var d := |m.promises|;
            var r := Reaction(d, ok, fail);
            && |t.promises| == d + 1 && (forall q :: 0 <= q < d && q != p ==> t.promises[q] == m.promises[q])
            && t.promises[d] == PromiseState(d, false, false, [], Pending, Undefined, [], [])
            && t.stack == m.stack && t.wrappers == m.wrappers
            && t.promises[p].registered == m.promises[p].registered + [r]
            && t.promises[p].status == m.promises[p].status && t.promises[p].value == m.promises[p].value
            && (m.promises[p].status == Pending ==>
                  t.promises[p].reactions == m.promises[p].reactions + [r] && t.tasks == m.tasks)
            && (m.promises[p].status != Pending ==>
                  t.promises[p].reactions == m.promises[p].reactions && t.tasks == m.tasks + [React(p, r)])
  {
  }

  // ---------- Microtasks ----------

  /** Microtasks start in the order they were queued: a loop over reactions, one reaction, or the call of a thenable. */
  lemma TaskStarts(m: Machine)
    requires InRange(m) && m.stack == [] && m.tasks != []
    ensures var t := Move(m, StartTask);
            && t.tasks == m.tasks[1..]
            && match m.tasks[0]
               case Notify(p) => t == m.(tasks := t.tasks, stack := [Drain(p)])
               case React(p, r) =>
                 && p < |m.promises| && SamePromises(m, t, p) && t.wrappers == m.wrappers && t.stack == [Reacting(p, r)]
                 && t.promises[p] == m.promises[p].(ran := m.promises[p].ran + [r])
               case Job(p, v) =>
                 && t.promises == m.promises && t.stack == [Thening(|m.wrappers|)]
                 && t.wrappers == m.wrappers + [Wrapper(false, p)]
  {
    HeadInRange(m);
    hide InRange;
  }

  /** The loop takes the first reaction and calls its handler, until there is none. */
  lemma LoopTurn(m: Machine, p: nat)
    requires InRange(m) && Runs(m, Drain(p))
    ensures p < |m.promises|
    ensures var t := Move(m, DrainOne);
            var ps := m.promises[p];
            && SamePromises(m, t, p) && t.tasks == m.tasks && t.wrappers == m.wrappers
            && (ps.reactions == [] ==> t.stack == Caller(m) && t.promises[p] == ps.(notified := false))
            && (ps.reactions != [] ==>
                  && t.stack == m.stack + [Reacting(p, ps.reactions[0])]
                  && t.promises[p] == ps.(reactions := ps.reactions[1..], ran := ps.ran + [ps.reactions[0]]))
  {
    TopInRange(m);
    hide InRange;
  }

  // ---------- Returns of handlers ----------

  /** A rejection without a handler is passed on. */
  lemma RejectionPassed(m: Machine, p: nat, r: Reaction, v: Value, lookup: Lookup)
    requires InRange(m) && Runs(m, Reacting(p, r)) && p < |m.promises|
    requires m.promises[p].status != Fulfilled && !r.fail
    ensures r.derived < |m.promises|
    ensures var t := Move(m, HandlerReturns(v, lookup));
            var d := r.derived;
            && t.stack == Caller(m)
            && (MaySettle(m, Own(d), d) ==>
                  Announced(m, t, d) && t.promises[d].status == Rejected && t.promises[d].value == m.promises[p].value)
            && (!MaySettle(m, Own(d), d) ==> t.promises == m.promises && t.tasks == m.tasks)
  {
    TopInRange(m);
    hide InRange;
  }

  /**
   Otherwise the derived promise is resolved with the handler's result, or with the value if it has no handler: the
   derived promise itself rejects it, a thenable is called, and a getter's exception rejects.
   */
  lemma ResultTaken(m: Machine, p: nat, r: Reaction, v: Value, lookup: Lookup)
    requires InRange(m) && Runs(m, Reacting(p, r)) && p < |m.promises|
    requires m.promises[p].status == Fulfilled || r.fail
    ensures r.derived < |m.promises|
    ensures var t := Move(m, HandlerReturns(v, lookup));
            var d := r.derived;
            var result := ReactionResult(m.promises[p], r, v);
            if result != PromiseValue(d) && lookup == Thenable then t == m.(stack := Caller(m) + [CallingThen(d)])
            else if !MaySettle(m, Own(d), d) then t == m.(stack := Caller(m))
            else if result == PromiseValue(d) then
              && t.stack == Caller(m) && Announced(m, t, d)
              && t.promises[d].status == Rejected && t.promises[d].value == TypeErrorValue
            else if lookup == NotThenable then
              t == m.(stack := Caller(m) + [Resolving(d, result)], promises := m.promises[d := m.promises[d].(done := true)])
            else
              && t.stack == Caller(m) && Announced(m, t, d)
              && t.promises[d].status == Rejected && t.promises[d].value == lookup.e
  {
    TopInRange(m);
    hide InRange;
  }

  /** An exception of the handler rejects the derived promise. */
  lemma HandlerFailed(m: Machine, p: nat, r: Reaction, e: Value)
    requires InRange(m) && Runs(m, Reacting(p, r)) && p < |m.promises|
    ensures r.derived < |m.promises|
    ensures var t := Move(m, HandlerThrows(e));
            var d := r.derived;
            && (HasHandler(m.promises[p], r) ==> t.stack == Caller(m))
            && (HasHandler(m.promises[p], r) && MaySettle(m, Own(d), d) ==>
                  Announced(m, t, d) && t.promises[d].status == Rejected && t.promises[d].value == e)
            && (HasHandler(m.promises[p], r) && !MaySettle(m, Own(d), d) ==> t.promises == m.promises && t.tasks == m.tasks)
            && (!HasHandler(m.promises[p], r) ==> t == m)
  {
    TopInRange(m);
    hide InRange;
  }

  /** The pair of resolving functions a thenable was called with. */
  function CalledWith(f: Frame): Resolver
    requires f.Thening? || f.CallingThen?
  {
    match f
    case Thening(w) => Wrapped(w)
    case CallingThen(d) => Own(d)
  }

  /** The return of a thenable's `then` changes nothing; its exception rejects if neither of the pair was called. */
  lemma ThenableCalled(m: Machine, f: Frame, e: Value)
    requires InRange(m) && Runs(m, f) && (f.Thening? || f.CallingThen?)
    ensures Move(m, CallReturns) == m.(stack := Caller(m))
    ensures var t := Move(m, CallThrows(e));
            && t.stack == Caller(m)
            && (forall p: nat :: MaySettle(m, CalledWith(f), p) ==>
                  Announced(m, t, p) && Used(m, t, CalledWith(f)) && t.promises[p].status == Rejected && t.promises[p].value == e)
            && ((forall p: nat :: !MaySettle(m, CalledWith(f), p)) ==> t == m.(stack := Caller(m)))
  {
    TopInRange(m);
    hide InRange;
    var n := m.(stack := Caller(m));
    var t := Move(m, CallThrows(e));
    match f {
      case Thening(w) =>
        assert MaySettle(m, CalledWith(f), m.wrappers[w].target) <==> !m.wrappers[w].done;
      case CallingThen(d) =>
        assert MaySettle(m, CalledWith(f), d) <==> !m.promises[d].done;
    }
  }

  // ---------- What each step settles ----------

  /** To what a reaction settles its derived promise once its handler has given `v`, if it does so at once. */
  function ReactionSettles(ps: PromiseState, r: Reaction, v: Value, lookup: Lookup): Option<Settled> {
    if ps.status != Fulfilled && !r.fail then Some(Settled(Rejected, ps.value))
    else if ReactionResult(ps, r, v) == PromiseValue(r.derived) then Some(Settled(Rejected, TypeErrorValue))
    else if lookup.GetterThrows? then Some(Settled(Rejected, lookup.e))
    else None
  }

  /** To what a step settles the promise p, if it does. */
  function Settlement(m: Machine, step: Step, p: nat): Option<Settled> {
    match step
    case CallReject(r, v) => if ProgramRuns(m) && MaySettle(m, r, p) then Some(Settled(Rejected, v)) else None
    case CallResolve(r, v) =>
      if ProgramRuns(m) && MaySettle(m, r, p) && v == PromiseValue(p) then Some(Settled(Rejected, TypeErrorValue)) else None
    case FinishLookup(lookup) =>
      if m.stack == [] || !m.stack[|m.stack| - 1].Resolving? || m.stack[|m.stack| - 1].p != p then None
      else
        (match lookup
         case NotThenable => Some(Settled(Fulfilled, m.stack[|m.stack| - 1].v))
         case GetterThrows(e) => Some(Settled(Rejected, e))
         case Thenable => None)
    case HandlerReturns(v, lookup) =>
      if !ReactsFor(m, p) || !MaySettle(m, Own(p), p) then None
      else ReactionSettles(m.promises[m.stack[|m.stack| - 1].p], m.stack[|m.stack| - 1].r, v, lookup)
    case HandlerThrows(e) =>
      if ReactsFor(m, p) && MaySettle(m, Own(p), p)
         && HasHandler(m.promises[m.stack[|m.stack| - 1].p], m.stack[|m.stack| - 1].r)
      then Some(Settled(Rejected, e)) else None
    case CallThrows(e) =>
      if m.stack == [] then None
      else
        var f := m.stack[|m.stack| - 1];
        if (f.Thening? || f.CallingThen?) && MaySettle(m, CalledWith(f), p) then Some(Settled(Rejected, e)) else None
    case _ => None
  }

  /** The handler that runs is the one whose derived promise is p. */
  predicate ReactsFor(m: Machine, p: nat) {
    && m.stack != [] && m.stack[|m.stack| - 1].Reacting? && m.stack[|m.stack| - 1].r.derived == p
    && m.stack[|m.stack| - 1].p < |m.promises|
  }

  /** The step leaves the promise as settled, or as little settled, as it was - or settles it to this. */
  predicate SettlesTo(m: Machine, t: Machine, p: nat, s: Option<Settled>) {
    && p < |m.promises| <= |t.promises|
    && match s
       case None => t.promises[p].status == m.promises[p].status && t.promises[p].value == m.promises[p].value
       case Some(x) => t.promises[p].status == x.status && t.promises[p].value == x.value
  }

  lemma PairHasTarget(m: Machine, r: Resolver, p: nat)
    requires InRange(m) && ValidResolver(m, r)
    ensures MaySettle(m, r, p) <==> Target(m, r) == p && !IsDone(m, r)
  {
  }

  lemma CallSettles(m: Machine, r: Resolver, v: Value, p: nat)
    requires InRange(m) && p < |m.promises|
    ensures SettlesTo(m, Move(m, CallReject(r, v)), p, Settlement(m, CallReject(r, v), p))
    ensures SettlesTo(m, Move(m, CallResolve(r, v)), p, Settlement(m, CallResolve(r, v), p))
  {
    hide InRange, Move;
    if !ProgramRuns(m) || !ValidResolver(m, r) {
      Disabled(m, r, v);
    } else if IsDone(m, r) {
      forall q: nat ensures !MaySettle(m, r, q) { PairHasTarget(m, r, q); }
      UsedCall(m, r, v);
    } else {
      TargetInRange(m, r);
      PairHasTarget(m, r, Target(m, r));
      PairHasTarget(m, r, p);
      RejectCall(m, r, v, Target(m, r));
      ResolveCall(m, r, v, Target(m, r));
    }
  }

  lemma Disabled(m: Machine, r: Resolver, v: Value)
    requires InRange(m) && (!ProgramRuns(m) || !ValidResolver(m, r))
    ensures Move(m, CallReject(r, v)) == m && Move(m, CallResolve(r, v)) == m
    ensures !ProgramRuns(m) || forall p: nat :: !MaySettle(m, r, p)
  {
  }

  lemma LookupSettles(m: Machine, lookup: Lookup, p: nat)
    requires InRange(m) && p < |m.promises|
    ensures SettlesTo(m, Move(m, FinishLookup(lookup)), p, Settlement(m, FinishLookup(lookup), p))
  {
    if m.stack != [] && m.stack[|m.stack| - 1].Resolving? {
      hide InRange, Move;
      var Resolving(q, v) := m.stack[|m.stack| - 1];
      LookupAnswer(m, q, v, lookup);
    }
  }

  lemma HandlerReturnSettles(m: Machine, v: Value, lookup: Lookup, p: nat)
    requires InRange(m) && p < |m.promises|
    ensures SettlesTo(m, Move(m, HandlerReturns(v, lookup)), p, Settlement(m, HandlerReturns(v, lookup), p))
  {
    if m.stack != [] && m.stack[|m.stack| - 1].Reacting? {
      TopInRange(m);
      hide InRange, Move;
      var Reacting(q, r) := m.stack[|m.stack| - 1];
      if m.promises[q].status != Fulfilled && !r.fail {
        RejectionPassed(m, q, r, v, lookup);
      } else {
        ResultTaken(m, q, r, v, lookup);
      }
    }
  }

  lemma HandlerThrowSettles(m: Machine, e: Value, p: nat)
    requires InRange(m) && p < |m.promises|
    ensures SettlesTo(m, Move(m, HandlerThrows(e)), p, Settlement(m, HandlerThrows(e), p))
  {
    if m.stack != [] && m.stack[|m.stack| - 1].Reacting? {
      TopInRange(m);
      hide InRange, Move;
      HandlerFailed(m, m.stack[|m.stack| - 1].p, m.stack[|m.stack| - 1].r, e);
    }
  }

  lemma ThenableSettles(m: Machine, e: Value, p: nat)
    requires InRange(m) && p < |m.promises|
    ensures SettlesTo(m, Move(m, CallReturns), p, None)
    ensures SettlesTo(m, Move(m, CallThrows(e)), p, Settlement(m, CallThrows(e), p))
  {
    if m.stack != [] && (m.stack[|m.stack| - 1].Thening? || m.stack[|m.stack| - 1].CallingThen?) {
      TopInRange(m);
      var f := m.stack[|m.stack| - 1];
      var r := CalledWith(f);
      TargetInRange(m, r);
      PairHasTarget(m, r, p);
      PairHasTarget(m, r, Target(m, r));
      hide InRange, Move;
      ThenableCalled(m, f, e);
      if IsDone(m, r) { forall q: nat ensures !MaySettle(m, r, q) { PairHasTarget(m, r, q); } }
    }
  }

  lemma QuietSteps(m: Machine, step: Step, p: nat)
    requires InRange(m) && p < |m.promises| && (step.NewPromise? || step.CallThen? || step.StartTask? || step.DrainOne?)
    ensures SettlesTo(m, Move(m, step), p, None)
  {
    if m.tasks != [] { HeadInRange(m); }
    if m.stack != [] { TopInRange(m); }
    hide InRange;
  }

  /** Every step settles exactly the promise, the status and the value that its settlement says, and no other. */
  lemma MoveSettles(m: Machine, step: Step, p: nat)
    requires InRange(m) && p < |m.promises|
    ensures SettlesTo(m, Move(m, step), p, Settlement(m, step, p))
  {
    hide InRange, Move, Settlement, SettlesTo;
    match step {
      case CallReject(r, v) => CallSettles(m, r, v, p);
      case CallResolve(r, v) => CallSettles(m, r, v, p);
      case FinishLookup(lookup) => LookupSettles(m, lookup, p);
      case HandlerReturns(v, lookup) => HandlerReturnSettles(m, v, lookup, p);
      case HandlerThrows(e) => HandlerThrowSettles(m, e, p);
      case CallThrows(e) => ThenableSettles(m, e, p);
      case CallReturns => ThenableSettles(m, Undefined, p); NothingSettles(m, step, p);
      case _ => QuietSteps(m, step, p); NothingSettles(m, step, p);
    }
  }

  lemma NothingSettles(m: Machine, step: Step, p: nat)
    requires step.NewPromise? || step.CallThen? || step.StartTask? || step.DrainOne? || step.CallReturns?
    ensures Settlement(m, step, p) == None
  {
  }

  // ---------- Whole runs: the step that settled a promise ----------

  function SettlesAt(steps: seq<Step>, k: nat, p: nat): Option<Settled>
    requires k < |steps|
  {
    Settlement(Run(steps[..k]), steps[k], p)
  }

  lemma UnusedPairPending(m: Machine, r: Resolver, p: nat)
    requires Inv(m) && MaySettle(m, r, p)
    ensures m.promises[p].status == Pending
  {
    hide Balanced, Ordered;
    assert ValidResolver(m, r) && Target(m, r) == p;
    TakeRight(m, r);
    MarkInRange(m, r);
    InHandIsPending(MarkDone(m, r), p);
  }

  lemma LookedAtPending(m: Machine)
    requires Inv(m) && m.stack != [] && m.stack[|m.stack| - 1].Resolving?
    ensures var p := m.stack[|m.stack| - 1].p; p < |m.promises| && m.promises[p].status == Pending
  {
    hide Balanced, Ordered;
    TopInRange(m);
    PopInRange(m);
    PopBalanced(m);
    InHandIsPending(Pop(m), Top(m).p);
  }

  /** Only a pending promise is settled, and to a status that is not pending. */
  lemma SettlesPending(m: Machine, step: Step, p: nat)
    requires Inv(m) && Settlement(m, step, p).Some?
    ensures p < |m.promises| && m.promises[p].status == Pending && Settlement(m, step, p).value.status != Pending
  {
    hide InRange, Balanced, Ordered, Inv;
    match step {
      case CallReject(r, v) => UnusedPairPending(m, r, p);
      case CallResolve(r, v) => UnusedPairPending(m, r, p);
      case FinishLookup(lookup) => LookedAtPending(m);
      case HandlerReturns(v, lookup) => UnusedPairPending(m, Own(p), p);
      case HandlerThrows(e) => UnusedPairPending(m, Own(p), p);
      case CallThrows(e) => UnusedPairPending(m, CalledWith(m.stack[|m.stack| - 1]), p);
    }
  }

  lemma RunSnoc(steps: seq<Step>)
    requires steps != []
    ensures Run(steps) == Move(Run(steps[..|steps| - 1]), steps[|steps| - 1]) && Inv(Run(steps[..|steps| - 1]))
    ensures forall k: nat, p: nat :: k < |steps| - 1 ==> SettlesAt(steps, k, p) == SettlesAt(steps[..|steps| - 1], k, p)
  {
    hide Move, Inv, Settlement;
    var front := steps[..|steps| - 1];
    forall k: nat, p: nat | k < |steps| - 1 ensures SettlesAt(steps, k, p) == SettlesAt(front, k, p) {
      assert steps[..k] == front[..k] && steps[k] == front[k];
    }
  }

  /** No promise is new, and nothing more has run. */
  predicate RanKept(m: Machine, t: Machine) {
    |t.promises| == |m.promises| && forall p :: 0 <= p < |m.promises| ==> t.promises[p].ran == m.promises[p].ran
  }

  lemma SettleRan(m: Machine, p: nat, status: Status, v: Value)
    requires p < |m.promises|
    ensures RanKept(m, Settle(m, p, status, v))
  {
  }

  lemma MarkRan(m: Machine, r: Resolver)
    requires ValidResolver(m, r)
    ensures RanKept(m, MarkDone(m, r))
  {
  }

  lemma ResolverRan(m: Machine, r: Resolver, v: Value)
    requires InRange(m) && ValidResolver(m, r)
    ensures RanKept(m, Reject(m, r, v)) && RanKept(m, Resolve(m, r, v))
  {
    TargetInRange(m, r);
    MarkRan(m, r);
    hide InRange, Settle, MarkDone;
    SettleRan(MarkDone(m, r), Target(m, r), Rejected, v);
    SettleRan(MarkDone(m, r), Target(m, r), Rejected, TypeErrorValue);
  }

  lemma ResolvedRan(m: Machine, p: nat, v: Value, lookup: Lookup)
    requires p < |m.promises|
    ensures RanKept(m, Resolved(m, p, v, lookup))
  {
    hide Settle;
    SettleRan(m, p, Fulfilled, v);
    if lookup.GetterThrows? { SettleRan(m, p, Rejected, lookup.e); }
  }

  lemma HandlerRan(m: Machine, d: nat, v: Value, lookup: Lookup)
    requires InRange(m) && d < |m.promises|
    ensures RanKept(m, AfterHandler(m, d, v, lookup))
  {
    hide InRange, Reject, Resolve;
    ResolverRan(m, Own(d), v);
    ResolverRan(m, Own(d), TypeErrorValue);
    if lookup.GetterThrows? { ResolverRan(m, Own(d), lookup.e); }
  }

  /** The steps that call resolving functions, or go on with a handler's result. */
  lemma SettlersRan(m: Machine, step: Step)
    requires InRange(m)
    requires !(step.NewPromise? || step.CallThen? || step.StartTask? || step.DrainOne?)
    ensures RanKept(m, Move(m, step))
  {
    hide InRange, Reject, Resolve, Resolved, AfterHandler;
    if !Enabled(m, step) { return; }
    if m.stack != [] {
      TopInRange(m);
      PopInRange(m);
    }
    match step {
      case CallResolve(r, v) => ResolverRan(m, r, v);
      case CallReject(r, v) => ResolverRan(m, r, v);
      case FinishLookup(lookup) => ResolvedRan(Pop(m), Top(m).p, Top(m).v, lookup);
      case HandlerReturns(v, lookup) =>
        var Reacting(q, r) := Top(m);
        HandlerRan(Pop(m), r.derived, v, lookup);
        HandlerRan(Pop(m), r.derived, m.promises[q].value, lookup);
        ResolverRan(Pop(m), Own(r.derived), m.promises[q].value);
      case HandlerThrows(e) => ResolverRan(Pop(m), Own(Top(m).r.derived), e);
      case CallThrows(e) => ResolverRan(Pop(m), if Top(m).Thening? then Wrapped(Top(m).w) else Own(Top(m).d), e);
      case CallReturns =>
    }
  }

  /** At most one promise is new, and a new one is as PromiseMade says. */
  lemma StillThere(m: Machine, step: Step)
    requires InRange(m)
    ensures var t := Move(m, step);
            && |m.promises| <= |t.promises| <= |m.promises| + 1
            && (|t.promises| > |m.promises| ==>
                  t.promises[|m.promises|] == PromiseState(|m.promises|, false, false, [], Pending, Undefined, [], []))
  {
    if step.NewPromise? || step.CallThen? || step.StartTask? || step.DrainOne? {
      if m.tasks != [] { HeadInRange(m); }
      if m.stack != [] { TopInRange(m); }
      hide InRange;
    } else {
      hide InRange, Move;
      SettlersRan(m, step);
    }
  }

  /** A promise that no step has settled is pending; what a step settles it to is what it stays. */
  lemma {:induction false} SettledByOneStep(steps: seq<Step>, p: nat)
    requires p < |Run(steps).promises|
    ensures var ps := Run(steps).promises[p];
            && (ps.status != Pending ==> exists k: nat :: k < |steps| && SettlesAt(steps, k, p) == Some(Settled(ps.status, ps.value)))
            && (forall k: nat :: k < |steps| && SettlesAt(steps, k, p).Some? ==>
                  SettlesAt(steps, k, p) == Some(Settled(ps.status, ps.value)) && ps.status != Pending)
            && (forall j: nat, k: nat :: j < k < |steps| ==> SettlesAt(steps, j, p).None? || SettlesAt(steps, k, p).None?)
    decreases |steps|
  {
    hide Inv, Move, Settlement, SettlesTo;
    if steps == [] {
      NothingRun();
    } else {
      var front, last := steps[..|steps| - 1], steps[|steps| - 1];
      var m := Run(front);
      RunSnoc(steps);
      Ranged(m);
      StillThere(m, last);
      assert SettlesAt(steps, |front|, p) == Settlement(m, last, p) by { assert steps[..|front|] == front; }
      if Settlement(m, last, p).Some? { SettlesPending(m, last, p); }
      if p < |m.promises| {
        SettledByOneStep(front, p);
        Carried(steps, p);
        var ps, qs := m.promises[p], Run(steps).promises[p];
        if qs.status != Pending && Settlement(m, last, p).None? {
          var k: nat :| k < |front| && SettlesAt(front, k, p) == Some(Settled(ps.status, ps.value));
          assert SettlesAt(steps, k, p) == Some(Settled(qs.status, qs.value));
        }
      } else {
        NeverBefore(front, p);
      }
      forall k: nat | k < |front| ensures SettlesAt(steps, k, p) == SettlesAt(front, k, p) { }
    }
  }

  lemma Ranged(m: Machine)
    requires Inv(m)
    ensures InRange(m)
  {
  }

  lemma NothingRun()
    ensures Run([]) == EMPTY
  {
  }

  /** The last step settles the promise or leaves it as it was. */
  lemma Carried(steps: seq<Step>, p: nat)
    requires steps != [] && p < |Run(steps[..|steps| - 1]).promises|
    ensures var m, last := Run(steps[..|steps| - 1]), steps[|steps| - 1];
            && p < |Run(steps).promises|
            && match Settlement(m, last, p)
               case None => Run(steps).promises[p].status == m.promises[p].status && Run(steps).promises[p].value == m.promises[p].value
               case Some(x) => Run(steps).promises[p].status == x.status && Run(steps).promises[p].value == x.value
  {
    hide Inv, Move, Settlement;
    RunSnoc(steps);
    Ranged(Run(steps[..|steps| - 1]));
    MoveSettles(Run(steps[..|steps| - 1]), steps[|steps| - 1], p);
  }

  lemma {:induction false} NeverBefore(steps: seq<Step>, p: nat)
    requires p >= |Run(steps).promises|
    ensures forall k: nat :: k < |steps| ==> SettlesAt(steps, k, p).None?
    decreases |steps|
  {
    hide Inv, Move, Settlement;
    if steps != [] {
      var front, last := steps[..|steps| - 1], steps[|steps| - 1];
      RunSnoc(steps);
      Ranged(Run(front));
      StillThere(Run(front), last);
      NeverBefore(front, p);
      assert SettlesAt(steps, |front|, p) == Settlement(Run(front), last, p) by { assert steps[..|front|] == front; }
      if Settlement(Run(front), last, p).Some? { SettlesPending(Run(front), last, p); }
      forall k: nat | k < |steps| ensures SettlesAt(steps, k, p).None? {
        if k < |front| { assert SettlesAt(steps, k, p) == SettlesAt(front, k, p); }
      }
    }
  }

  // ---------- Whole runs: where a fulfilling value comes from ----------

  /** With what a step resolves the promise p, if the value is to be looked at first. */
  function Resolves(m: Machine, step: Step, p: nat): Option<Value> {
    match step
    case CallResolve(r, v) => if ProgramRuns(m) && MaySettle(m, r, p) && v != PromiseValue(p) then Some(v) else None
    case HandlerReturns(v, lookup) =>
      if !ReactsFor(m, p) || !MaySettle(m, Own(p), p) || lookup != NotThenable then None
      else
        var ps, r := m.promises[m.stack[|m.stack| - 1].p], m.stack[|m.stack| - 1].r;
        if (ps.status != Fulfilled && !r.fail) || ReactionResult(ps, r, v) == PromiseValue(p) then None
        else Some(ReactionResult(ps, r, v))
    case _ => None
  }

  function ResolvesAt(steps: seq<Step>, k: nat, p: nat): Option<Value>
    requires k < |steps|
  {
    Resolves(Run(steps[..k]), steps[k], p)
  }

  /** How the stack changes: only its last frame can go, and what comes on top has one of these causes. */
  predicate StackMoves(m: Machine, step: Step, t: Machine) {
    && |m.stack| - 1 <= |t.stack| <= |m.stack| + 1
    && (forall i :: 0 <= i < |m.stack| - 1 ==> t.stack[i] == m.stack[i])
    && (|t.stack| > |m.stack| && m.stack != [] ==> t.stack[|m.stack| - 1] == m.stack[|m.stack| - 1])
    && (t.stack != [] && (|t.stack| > |m.stack| || (|t.stack| == |m.stack| && t.stack != m.stack)) ==>
          Causes(m, step, t.stack[|t.stack| - 1]))
    && (m.stack != [] && (|t.stack| < |m.stack| || t.stack[|m.stack| - 1] != m.stack[|m.stack| - 1]) ==>
          Ends(step, m.stack[|m.stack| - 1]))
  }

  /** Why a frame comes on top. */
  predicate Causes(m: Machine, step: Step, f: Frame) {
    match f
    case Drain(p) => step == StartTask && m.stack == [] && m.tasks != [] && m.tasks[0] == Notify(p)
    case Reacting(p, r) =>
      || (step == StartTask && m.stack == [] && m.tasks != [] && m.tasks[0] == React(p, r))
      || (step == DrainOne && Runs(m, Drain(p)) && p < |m.promises| && m.promises[p].reactions != []
          && m.promises[p].reactions[0] == r)
    case Resolving(p, v) => Resolves(m, step, p) == Some(v)
    case Thening(w) => step == StartTask && m.stack == [] && m.tasks != [] && m.tasks[0].Job? && w == |m.wrappers|
    case CallingThen(d) => step.HandlerReturns? && step.lookup == Thenable && ReactsFor(m, d)
  }

  /** What takes a frame off. */
  predicate Ends(step: Step, f: Frame) {
    match f
    case Drain(_) => step == DrainOne
    case Reacting(_, _) => step.HandlerReturns? || step.HandlerThrows?
    case Resolving(_, _) => step.FinishLookup?
    case Thening(_) => step == CallReturns || step.CallThrows?
    case CallingThen(_) => step == CallReturns || step.CallThrows?
  }

  lemma CallerShape(m: Machine)
    ensures m.stack != [] ==> |Caller(m)| == |m.stack| - 1 && forall i :: 0 <= i < |m.stack| - 1 ==> Caller(m)[i] == m.stack[i]
  {
  }

  lemma CallStack(m: Machine, r: Resolver, v: Value)
    requires InRange(m)
    ensures StackMoves(m, CallReject(r, v), Move(m, CallReject(r, v)))
    ensures StackMoves(m, CallResolve(r, v), Move(m, CallResolve(r, v)))
  {
    hide InRange, Move;
    if !ProgramRuns(m) || !ValidResolver(m, r) {
      Disabled(m, r, v);
    } else if IsDone(m, r) {
      forall q: nat ensures !MaySettle(m, r, q) { PairHasTarget(m, r, q); }
      UsedCall(m, r, v);
    } else {
      TargetInRange(m, r);
      PairHasTarget(m, r, Target(m, r));
      RejectCall(m, r, v, Target(m, r));
      ResolveCall(m, r, v, Target(m, r));
    }
  }

  lemma ReturnStack(m: Machine, step: Step)
    requires InRange(m) && (step.HandlerReturns? || step.HandlerThrows?)
    ensures StackMoves(m, step, Move(m, step))
  {
    CallerShape(m);
    if m.stack != [] && m.stack[|m.stack| - 1].Reacting? {
      TopInRange(m);
      hide InRange, Move, Caller;
      var Reacting(q, r) := m.stack[|m.stack| - 1];
      if step.HandlerThrows? {
        HandlerFailed(m, q, r, step.e);
      } else if m.promises[q].status != Fulfilled && !r.fail {
        RejectionPassed(m, q, r, step.v, step.lookup);
      } else {
        ResultTaken(m, q, r, step.v, step.lookup);
      }
    }
  }

  lemma OtherStack(m: Machine, step: Step)
    requires InRange(m)
    requires step.NewPromise? || step.CallThen? || step.StartTask? || step.DrainOne? || step.FinishLookup? || step.CallReturns?
             || step.CallThrows?
    ensures StackMoves(m, step, Move(m, step))
  {
    if m.tasks != [] { HeadInRange(m); }
    if m.stack != [] { TopInRange(m); }
    hide InRange;
  }

  lemma StackStep(m: Machine, step: Step)
    requires InRange(m)
    ensures StackMoves(m, step, Move(m, step))
  {
    hide InRange, Move, StackMoves;
    match step {
      case CallReject(r, v) => CallStack(m, r, v);
      case CallResolve(r, v) => CallStack(m, r, v);
      case HandlerReturns(_, _) => ReturnStack(m, step);
      case HandlerThrows(_) => ReturnStack(m, step);
      case _ => OtherStack(m, step);
    }
  }

  /** A value that is looked at came with a call of a resolving function, or from a handler. */
  lemma {:induction false} LookedAtCame(steps: seq<Step>, i: nat)
    requires i < |Run(steps).stack| && Run(steps).stack[i].Resolving?
    ensures var f := Run(steps).stack[i]; exists j: nat :: j < |steps| && ResolvesAt(steps, j, f.p) == Some(f.v)
    decreases |steps|
  {
    hide Inv, Move, Resolves;
    if steps == [] {
      NothingRun();
    } else {
      var front, last := steps[..|steps| - 1], steps[|steps| - 1];
      var m, f := Run(front), Run(steps).stack[i];
      RunSnoc(steps);
      Ranged(m);
      StackStep(m, last);
      if i < |m.stack| && m.stack[i] == f {
        LookedAtCame(front, i);
        var j: nat :| j < |front| && ResolvesAt(front, j, f.p) == Some(f.v);
        assert steps[..j] == front[..j] && steps[j] == front[j];
        assert ResolvesAt(steps, j, f.p) == Some(f.v);
      } else {
        assert steps[..|front|] == front;
        assert ResolvesAt(steps, |front|, f.p) == Some(f.v);
      }
    }
  }

  /**
   A fulfilled promise has the value that a resolving function of an unused pair was called with, or that its
   handler gave, or that passed without a handler: it was looked at later and was no thenable.
   */
  lemma FulfilledByCall(steps: seq<Step>, p: nat)
    requires p < |Run(steps).promises| && Run(steps).promises[p].status == Fulfilled
    ensures var v := Run(steps).promises[p].value;
            exists j: nat, k: nat :: j < k < |steps| && ResolvesAt(steps, j, p) == Some(v)
              && steps[k] == FinishLookup(NotThenable) && Runs(Run(steps[..k]), Resolving(p, v))
  {
    hide Run, Inv, Resolves, Settlement;
    var v := Run(steps).promises[p].value;
    SettledByOneStep(steps, p);
    var k: nat :| k < |steps| && SettlesAt(steps, k, p) == Some(Settled(Fulfilled, v));
    FulfilsOnlyThere(Run(steps[..k]), steps[k], p, v);
    Looked(steps, k, p, v);
  }

  lemma Looked(steps: seq<Step>, k: nat, p: nat, v: Value)
    requires k < |steps| && Runs(Run(steps[..k]), Resolving(p, v))
    ensures exists j: nat :: j < k && ResolvesAt(steps, j, p) == Some(v)
  {
    hide Run, Inv, Resolves;
    LookedAtCame(steps[..k], |Run(steps[..k]).stack| - 1);
    var j: nat :| j < k && ResolvesAt(steps[..k], j, p) == Some(v);
    assert steps[..k][..j] == steps[..j] && steps[..k][j] == steps[j];
    assert ResolvesAt(steps, j, p) == Some(v);
  }

  lemma FulfilsOnlyThere(m: Machine, step: Step, p: nat, v: Value)
    requires Settlement(m, step, p) == Some(Settled(Fulfilled, v))
    ensures step == FinishLookup(NotThenable) && Runs(m, Resolving(p, v))
  {
  }

  // ---------- Whole runs: handlers are called ----------

  /** The handler of the reaction has returned or thrown in this step. */
  predicate FinishesAt(steps: seq<Step>, k: nat, p: nat, r: Reaction)
    requires k < |steps|
  {
    (steps[k].HandlerReturns? || steps[k].HandlerThrows?) && Runs(Run(steps[..k]), Reacting(p, r))
  }

  ghost predicate Finished(steps: seq<Step>, p: nat, r: Reaction) { exists k: nat :: k < |steps| && FinishesAt(steps, k, p, r) }

  /** What has run grows only where a handler starts. */
  lemma RanStep(m: Machine, step: Step, p: nat)
    requires InRange(m) && p < |m.promises|
    ensures var t := Move(m, step);
            && p < |t.promises|
            && (t.promises[p].ran == m.promises[p].ran
                || (t.stack != [] && t.stack[|t.stack| - 1].Reacting? && t.stack[|t.stack| - 1].p == p
                    && t.promises[p].ran == m.promises[p].ran + [t.stack[|t.stack| - 1].r]))
  {
    if step.NewPromise? || step.CallThen? || step.StartTask? || step.DrainOne? {
      if m.tasks != [] { HeadInRange(m); }
      if m.stack != [] { TopInRange(m); }
      hide InRange;
    } else {
      hide InRange, Move;
      SettlersRan(m, step);
    }
  }

  lemma FinishedEarlier(steps: seq<Step>, p: nat, r: Reaction)
    requires steps != [] && Finished(steps[..|steps| - 1], p, r)
    ensures Finished(steps, p, r)
  {
    var front := steps[..|steps| - 1];
    var k: nat :| k < |front| && FinishesAt(front, k, p, r);
    assert steps[..k] == front[..k] && steps[k] == front[k];
    assert FinishesAt(steps, k, p, r);
  }

  /** A reaction that has run: its handler is running, or has returned or thrown. */
  lemma {:induction false} HandlerCalled(steps: seq<Step>, p: nat, r: Reaction)
    requires p < |Run(steps).promises| && r in Run(steps).promises[p].ran
    ensures Reacting(p, r) in Run(steps).stack || Finished(steps, p, r)
    decreases |steps|
  {
    hide Inv, Move, Finished;
    if steps == [] {
      NothingRun();
    } else {
      var front, last := steps[..|steps| - 1], steps[|steps| - 1];
      var m, t := Run(front), Run(steps);
      RunSnoc(steps);
      Ranged(m);
      StillThere(m, last);
      if p < |m.promises| {
        RanStep(m, last, p);
        if r in m.promises[p].ran {
          HandlerCalled(front, p, r);
          if Finished(front, p, r) { FinishedEarlier(steps, p, r); } else { StillRunning(steps, p, r); }
        } else {
          assert t.stack[|t.stack| - 1] == Reacting(p, r);
        }
      }
    }
  }

  lemma StillRunning(steps: seq<Step>, p: nat, r: Reaction)
    requires steps != [] && Reacting(p, r) in Run(steps[..|steps| - 1]).stack
    ensures Reacting(p, r) in Run(steps).stack || Finished(steps, p, r)
  {
    hide Inv, Move;
    var front, last := steps[..|steps| - 1], steps[|steps| - 1];
    var m := Run(front);
    RunSnoc(steps);
    Ranged(m);
    StackStep(m, last);
    var i :| 0 <= i < |m.stack| && m.stack[i] == Reacting(p, r);
    if Reacting(p, r) !in Run(steps).stack {
      assert i == |m.stack| - 1;
      assert steps[..|front|] == front;
      assert FinishesAt(steps, |front|, p, r);
    }
  }

  /** When no microtask is left, the handler of every reaction of every settled promise has returned or thrown. */
  lemma AllHandlersFinish(steps: seq<Step>, p: nat, r: Reaction)
    requires Run(steps).stack == [] && Run(steps).tasks == []
    requires p < |Run(steps).promises| && Run(steps).promises[p].status != Pending && r in Run(steps).promises[p].registered
    ensures Finished(steps, p, r)
  {
    hide Finished;
    AllReactionsRun(steps, p);
    HandlerCalled(steps, p, r);
  }
}

/**
 The Promise state machine of js/secsdk-lastest.umd.js (section 27.2 of ECMA-262) as a
 transition system.  One thread; a stack of calls; a FIFO microtask queue.  User code
 (handlers, executors, thenables and their `then` getters) may run whenever the engine
 itself is not between two reactions, and may call any resolving function it ever got,
 any number of times.
 */
module Promises {

  datatype Status = Pending | Fulfilled | Rejected

  datatype Value = Undefined | Data(n: int) | PromiseValue(p: nat) | TypeErrorValue

  /** A registered reaction; its derived promise identifies it.  A missing handler is false. */
  datatype Reaction = Reaction(derived: nat, ok: bool, fail: bool)

  /** The source's state record, with the history of its reactions. */
  datatype PromiseState = PromiseState(
    facade: nat, done: bool, notified: bool, reactions: seq<Reaction>, status: Status, value: Value,
    registered: seq<Reaction>, ran: seq<Reaction>)

  /** The record that guards one call of a thenable's `then` for the promise `target`. */
  datatype Wrapper = Wrapper(done: bool, target: nat)

  /** A resolving function pair: the promise's own, or a wrapper's. */
  datatype Resolver = Own(p: nat) | Wrapped(w: nat)

  datatype Task = Notify(p: nat) | React(p: nat, r: Reaction) | Job(p: nat, v: Value)

  /** A call in progress. */
  datatype Frame =
    | Drain(p: nat)                      // the notify microtask, between reactions
    | Reacting(p: nat, r: Reaction)      // callReaction, its handler running
    | Resolving(p: nat, v: Value)        // internalResolve, the `then` getter of v running
    | Thening(w: nat)                    // a thenable's `then`, called by the job
    | CallingThen(d: nat)                // a thenable result's `then`, called by callReaction

  datatype Machine = Machine(
    promises: seq<PromiseState>, wrappers: seq<Wrapper>, tasks: seq<Task>, stack: seq<Frame>)

  /** What reading `then` of a value yields. */
  datatype Lookup = NotThenable | Thenable | GetterThrows(e: Value)

  datatype Step =
    | NewPromise
    | CallResolve(r: Resolver, v: Value)
    | CallReject(r: Resolver, v: Value)
    | CallThen(p: nat, ok: bool, fail: bool)
    | FinishLookup(lookup: Lookup)
    | StartTask
    | DrainOne
    | HandlerReturns(v: Value, lookup: Lookup)
    | HandlerThrows(e: Value)
    | CallReturns
    | CallThrows(e: Value)

  const EMPTY := Machine([], [], [], [])

  // ---------- The engine's functions ----------

  function FreshState(facade: nat): PromiseState {
    PromiseState(facade, false, false, [], Pending, Undefined, [], [])
  }

  predicate ValidResolver(m: Machine, r: Resolver) {
    match r
    case Own(p) => p < |m.promises|
    case Wrapped(w) => w < |m.wrappers| && m.wrappers[w].target < |m.promises|
  }

  function Target(m: Machine, r: Resolver): nat
    requires ValidResolver(m, r)
  {
    match r
    case Own(p) => p
    case Wrapped(w) => m.wrappers[w].target
  }

  predicate IsDone(m: Machine, r: Resolver)
    requires ValidResolver(m, r)
  {
    match r
    case Own(p) => m.promises[p].done
    case Wrapped(w) => m.wrappers[w].done
  }

  function MarkDone(m: Machine, r: Resolver): Machine
    requires ValidResolver(m, r)
  {
    match r
    case Own(p) => m.(promises := m.promises[p := m.promises[p].(done := true)])
    case Wrapped(w) => m.(wrappers := m.wrappers[w := m.wrappers[w].(done := true)])
  }

  function Notified(m: Machine, p: nat): Machine
    requires p < |m.promises|
  {
    if m.promises[p].notified then m
    else m.(promises := m.promises[p := m.promises[p].(notified := true)], tasks := m.tasks + [Notify(p)])
  }

  function Settle(m: Machine, p: nat, status: Status, v: Value): Machine
    requires p < |m.promises|
  {
    Notified(m.(promises := m.promises[p := m.promises[p].(status := status, value := v)]), p)
  }

  function Push(m: Machine, f: Frame): Machine { m.(stack := m.stack + [f]) }

  function Pop(m: Machine): Machine
    requires m.stack != []
  {
    m.(stack := m.stack[..|m.stack| - 1])
  }

  function Top(m: Machine): Frame
    requires m.stack != []
  {
    m.stack[|m.stack| - 1]
  }

  /** internalReject. */
  function Reject(m: Machine, r: Resolver, v: Value): Machine
    requires ValidResolver(m, r)
  {
    if IsDone(m, r) then m else Settle(MarkDone(m, r), Target(m, r), Rejected, v)
  }

  /** internalResolve up to the reading of `then`; resolving a promise with itself rejects it. */
  function Resolve(m: Machine, r: Resolver, v: Value): Machine
    requires ValidResolver(m, r)
  {
    if IsDone(m, r) then m
    else
      var p := Target(m, r);
      if v == PromiseValue(p) then Settle(MarkDone(m, r), p, Rejected, TypeErrorValue)
      else Push(MarkDone(m, r), Resolving(p, v))
  }

  /** The rest of internalResolve. */
  function Resolved(m: Machine, p: nat, v: Value, lookup: Lookup): Machine
    requires p < |m.promises|
  {
    match lookup
    case NotThenable => Settle(m, p, Fulfilled, v)
    case Thenable => m.(tasks := m.tasks + [Job(p, v)])
    case GetterThrows(e) => Settle(m, p, Rejected, e)
  }

  /** Promise.prototype.then: a derived promise and a reaction, kept while pending, queued otherwise. */
  function Registered(m: Machine, p: nat, ok: bool, fail: bool): Machine
    requires p < |m.promises|
  {
    var r := Reaction(|m.promises|, ok, fail);
    var ps := m.promises[p].(registered := m.promises[p].registered + [r]);
    if ps.status == Pending then
      m.(promises := m.promises[p := ps.(reactions := ps.reactions + [r])] + [FreshState(|m.promises|)])
    else
      m.(promises := m.promises[p := ps] + [FreshState(|m.promises|)], tasks := m.tasks + [React(p, r)])
  }

  /** callReaction begins: the handler is called. */
  function Begin(m: Machine, p: nat, r: Reaction): Machine
    requires p < |m.promises|
  {
    Push(m.(promises := m.promises[p := m.promises[p].(ran := m.promises[p].ran + [r])]), Reacting(p, r))
  }

  /** callReaction after its handler gave `v`. */
  function AfterHandler(m: Machine, d: nat, v: Value, lookup: Lookup): Machine
    requires d < |m.promises|
  {
    if v == PromiseValue(d) then Reject(m, Own(d), TypeErrorValue)
    else
      match lookup
      case NotThenable => Resolve(m, Own(d), v)
      case Thenable => Push(m, CallingThen(d))
      case GetterThrows(e) => Reject(m, Own(d), e)
  }

  // ---------- Steps ----------

  predicate FrameInRange(m: Machine, f: Frame) {
    match f
    case Drain(p) => p < |m.promises|
    case Reacting(p, r) => p < |m.promises| && r.derived < |m.promises|
    case Resolving(p, _) => p < |m.promises|
    case Thening(w) => ValidResolver(m, Wrapped(w))
    case CallingThen(d) => d < |m.promises|
  }

  predicate TaskInRange(m: Machine, t: Task) {
    match t
    case Notify(p) => p < |m.promises|
    case React(p, r) => p < |m.promises| && r.derived < |m.promises|
    case Job(p, _) => p < |m.promises|
  }

  predicate InRange(m: Machine) {
    && (forall i :: 0 <= i < |m.promises| ==> m.promises[i].facade == i)
    && (forall i :: 0 <= i < |m.promises| ==>
          forall j :: 0 <= j < |m.promises[i].reactions| ==> m.promises[i].reactions[j].derived < |m.promises|)
    && (forall i :: 0 <= i < |m.wrappers| ==> m.wrappers[i].target < |m.promises|)
    && (forall i :: 0 <= i < |m.stack| ==> FrameInRange(m, m.stack[i]))
    && (forall i :: 0 <= i < |m.tasks| ==> TaskInRange(m, m.tasks[i]))
  }

  /** User code may act unless the engine is between two reactions. */
  predicate UserTurn(m: Machine) { m.stack == [] || !Top(m).Drain? }

  predicate Enabled(m: Machine, step: Step) {
    match step
    case NewPromise => UserTurn(m)
    case CallResolve(r, _) => UserTurn(m) && ValidResolver(m, r)
    case CallReject(r, _) => UserTurn(m) && ValidResolver(m, r)
    case CallThen(p, _, _) => UserTurn(m) && p < |m.promises|
    case FinishLookup(_) => m.stack != [] && Top(m).Resolving?
    case StartTask => m.stack == [] && m.tasks != []
    case DrainOne => m.stack != [] && Top(m).Drain?
    case HandlerReturns(_, _) => m.stack != [] && Top(m).Reacting?
    case HandlerThrows(_) => m.stack != [] && Top(m).Reacting?
    case CallReturns => m.stack != [] && (Top(m).Thening? || Top(m).CallingThen?)
    case CallThrows(_) => m.stack != [] && (Top(m).Thening? || Top(m).CallingThen?)
  }

  function Start(m: Machine): Machine
    requires InRange(m) && m.tasks != []
  {
    var rest := m.(tasks := m.tasks[1..]);
    assert TaskInRange(m, m.tasks[0]);
    match m.tasks[0]
    case Notify(p) => Push(rest, Drain(p))
    case React(p, r) => Begin(rest, p, r)
    case Job(p, _) => Push(rest.(wrappers := m.wrappers + [Wrapper(false, p)]), Thening(|m.wrappers|))
  }

  /** The loop of the notify microtask: take the next reaction, or finish. */
  function DrainNext(m: Machine): Machine
    requires InRange(m) && m.stack != [] && Top(m).Drain?
  {
    assert FrameInRange(m, Top(m));
    var p := Top(m).p;
    var ps := m.promises[p];
    if ps.reactions == [] then Pop(m.(promises := m.promises[p := ps.(notified := false)]))
    else Begin(m.(promises := m.promises[p := ps.(reactions := ps.reactions[1..])]), p, ps.reactions[0])
  }

  /** A missing handler passes the value on (or the rejection); otherwise the handler's result counts. */
  function FinishReaction(m: Machine, v: Value, lookup: Lookup): Machine
    requires InRange(m) && m.stack != [] && Top(m).Reacting?
  {
    assert FrameInRange(m, Top(m));
    var Reacting(p, r) := Top(m);
    var ps := m.promises[p];
    if ps.status == Fulfilled then AfterHandler(Pop(m), r.derived, if r.ok then v else ps.value, lookup)
    else if r.fail then AfterHandler(Pop(m), r.derived, v, lookup)
    else Reject(Pop(m), Own(r.derived), ps.value)
  }

  function ThrowReaction(m: Machine, e: Value): Machine
    requires InRange(m) && m.stack != [] && Top(m).Reacting?
  {
    assert FrameInRange(m, Top(m));
    var Reacting(p, r) := Top(m);
    var ps := m.promises[p];
    if (ps.status == Fulfilled && r.ok) || (ps.status != Fulfilled && r.fail) then Reject(Pop(m), Own(r.derived), e) else m
  }

  function ThrowCall(m: Machine, e: Value): Machine
    requires InRange(m) && m.stack != [] && (Top(m).Thening? || Top(m).CallingThen?)
  {
    assert FrameInRange(m, Top(m));
    match Top(m)
    case Thening(w) => Reject(Pop(m), Wrapped(w), e)
    case CallingThen(d) => Reject(Pop(m), Own(d), e)
  }

  function Move(m: Machine, step: Step): Machine
    requires InRange(m)
  {
    if !Enabled(m, step) then m
    else
      match step
      case NewPromise => m.(promises := m.promises + [FreshState(|m.promises|)])
      case CallResolve(r, v) => Resolve(m, r, v)
      case CallReject(r, v) => Reject(m, r, v)
      case CallThen(p, ok, fail) => Registered(m, p, ok, fail)
      case FinishLookup(lookup) =>
        assert FrameInRange(m, Top(m));
        Resolved(Pop(m), Top(m).p, Top(m).v, lookup)
      case StartTask => Start(m)
      case DrainOne => DrainNext(m)
      case HandlerReturns(v, lookup) => FinishReaction(m, v, lookup)
      case HandlerThrows(e) => ThrowReaction(m, e)
      case CallReturns => Pop(m)
      case CallThrows(e) => ThrowCall(m, e)
  }

  // ---------- Every reference stays in range ----------

  lemma SettleInRange(m: Machine, p: nat, status: Status, v: Value)
    requires InRange(m) && p < |m.promises|
    ensures InRange(Settle(m, p, status, v)) && |Settle(m, p, status, v).promises| == |m.promises|
  {
    var t := Settle(m, p, status, v);
    assert forall f :: FrameInRange(t, f) <==> FrameInRange(m, f);
  }

  lemma MarkInRange(m: Machine, r: Resolver)
    requires InRange(m) && ValidResolver(m, r)
    ensures var t := MarkDone(m, r);
      InRange(t) && |t.promises| == |m.promises| && t.stack == m.stack && t.tasks == m.tasks
  {
    var t := MarkDone(m, r);
    assert forall i :: 0 <= i < |t.stack| ==> FrameInRange(m, m.stack[i]);
    assert forall i :: 0 <= i < |t.tasks| ==> TaskInRange(m, m.tasks[i]);
  }

  lemma PushInRange(m: Machine, f: Frame)
    requires InRange(m) && FrameInRange(m, f)
    ensures InRange(Push(m, f))
  {
    var t := Push(m, f);
    assert forall i :: 0 <= i < |m.stack| ==> FrameInRange(m, m.stack[i]);
  }

  lemma PopInRange(m: Machine)
    requires InRange(m) && m.stack != []
    ensures InRange(Pop(m))
  {
    assert forall i :: 0 <= i < |m.stack| - 1 ==> FrameInRange(m, m.stack[i]);
  }

  lemma RejectInRange(m: Machine, r: Resolver, v: Value)
    requires InRange(m) && ValidResolver(m, r)
    ensures InRange(Reject(m, r, v)) && |Reject(m, r, v).promises| == |m.promises|
  {
    hide InRange, MarkDone, Settle;
    MarkInRange(m, r);
    if !IsDone(m, r) { TargetInRange(m, r); SettleInRange(MarkDone(m, r), Target(m, r), Rejected, v); }
  }

  lemma TargetInRange(m: Machine, r: Resolver)
    requires ValidResolver(m, r)
    ensures Target(m, r) < |m.promises|
  {
  }

  lemma ResolveInRange(m: Machine, r: Resolver, v: Value)
    requires InRange(m) && ValidResolver(m, r)
    ensures InRange(Resolve(m, r, v)) && |Resolve(m, r, v).promises| == |m.promises|
  {
    hide InRange, MarkDone, Settle;
    MarkInRange(m, r);
    TargetInRange(m, r);
    if !IsDone(m, r) {
      SettleInRange(MarkDone(m, r), Target(m, r), Rejected, TypeErrorValue);
      PushInRange(MarkDone(m, r), Resolving(Target(m, r), v));
    }
  }

  lemma TaskAdded(m: Machine, t: Task)
    requires InRange(m) && TaskInRange(m, t)
    ensures InRange(m.(tasks := m.tasks + [t]))
  {
    var u := m.(tasks := m.tasks + [t]);
    assert forall i :: 0 <= i < |m.stack| ==> FrameInRange(m, m.stack[i]);
    assert forall i :: 0 <= i < |m.tasks| ==> TaskInRange(m, m.tasks[i]);
  }

  lemma PromiseAdded(m: Machine)
    requires InRange(m)
    ensures InRange(m.(promises := m.promises + [FreshState(|m.promises|)]))
  {
    assert forall i :: 0 <= i < |m.stack| ==> FrameInRange(m, m.stack[i]);
    assert forall i :: 0 <= i < |m.tasks| ==> TaskInRange(m, m.tasks[i]);
  }

  /** Replacing a promise's record by one with the same identity and reactions in range. */
  lemma PromiseReplaced(m: Machine, p: nat, ps: PromiseState)
    requires InRange(m) && p < |m.promises| && ps.facade == p
    requires forall j :: 0 <= j < |ps.reactions| ==> ps.reactions[j].derived < |m.promises|
    ensures InRange(m.(promises := m.promises[p := ps]))
  {
    assert forall i :: 0 <= i < |m.stack| ==> FrameInRange(m, m.stack[i]);
    assert forall i :: 0 <= i < |m.tasks| ==> TaskInRange(m, m.tasks[i]);
  }

  lemma RegisteredInRange(m: Machine, p: nat, ok: bool, fail: bool)
    requires InRange(m) && p < |m.promises|
    ensures InRange(Registered(m, p, ok, fail))
  {
    hide InRange;
    RangeOf(m, p);
    PromiseAdded(m);
    var n := m.(promises := m.promises + [FreshState(|m.promises|)]);
    var r := Reaction(|m.promises|, ok, fail);
    var ps := m.promises[p].(registered := m.promises[p].registered + [r]);
    var qs := if ps.status == Pending then ps.(reactions := ps.reactions + [r]) else ps;
    PromiseReplaced(n, p, qs);
    assert n.promises[p := qs] == m.promises[p := qs] + [FreshState(|m.promises|)];
    if ps.status != Pending { TaskAdded(n.(promises := n.promises[p := qs]), React(p, r)); }
  }

  lemma RangeOf(m: Machine, p: nat)
    requires InRange(m) && p < |m.promises|
    ensures m.promises[p].facade == p
    ensures forall j :: 0 <= j < |m.promises[p].reactions| ==> m.promises[p].reactions[j].derived < |m.promises|
  {
  }

  lemma BeginInRange(m: Machine, p: nat, r: Reaction)
    requires InRange(m) && p < |m.promises| && r.derived < |m.promises|
    ensures InRange(Begin(m, p, r))
  {
    hide InRange;
    RangeOf(m, p);
    var ps := m.promises[p].(ran := m.promises[p].ran + [r]);
    PromiseReplaced(m, p, ps);
    PushInRange(m.(promises := m.promises[p := ps]), Reacting(p, r));
  }

  lemma StartInRange(m: Machine)
    requires InRange(m) && m.tasks != []
    ensures InRange(Start(m))
  {
    var rest := m.(tasks := m.tasks[1..]);
    assert TaskInRange(m, m.tasks[0]);
    assert InRange(rest) by {
      assert forall i :: 0 <= i < |m.stack| ==> FrameInRange(m, m.stack[i]);
      assert forall i :: 1 <= i < |m.tasks| ==> TaskInRange(m, m.tasks[i]);
    }
    match m.tasks[0]
    case Notify(p) => PushInRange(rest, Drain(p));
    case React(p, r) => BeginInRange(rest, p, r);
    case Job(p, _) =>
      var n := rest.(wrappers := m.wrappers + [Wrapper(false, p)]);
      WrapperAdded(rest, p);
      PushInRange(n, Thening(|m.wrappers|));
  }

  lemma WrapperAdded(m: Machine, p: nat)
    requires InRange(m) && p < |m.promises|
    ensures InRange(m.(wrappers := m.wrappers + [Wrapper(false, p)]))
  {
    assert forall i :: 0 <= i < |m.stack| ==> FrameInRange(m, m.stack[i]);
    assert forall i :: 0 <= i < |m.tasks| ==> TaskInRange(m, m.tasks[i]);
  }

  lemma DrainInRange(m: Machine)
    requires InRange(m) && m.stack != [] && Top(m).Drain?
    ensures InRange(DrainNext(m))
  {
    hide InRange;
    TopInRange(m);
    var p := Top(m).p;
    var ps := m.promises[p];
    RangeOf(m, p);
    if ps.reactions == [] {
      PromiseReplaced(m, p, ps.(notified := false));
      PopInRange(m.(promises := m.promises[p := ps.(notified := false)]));
    } else {
      PromiseReplaced(m, p, ps.(reactions := ps.reactions[1..]));
      BeginInRange(m.(promises := m.promises[p := ps.(reactions := ps.reactions[1..])]), p, ps.reactions[0]);
    }
  }

  lemma TopInRange(m: Machine)
    requires InRange(m) && m.stack != []
    ensures FrameInRange(m, Top(m))
  {
  }

  lemma AfterHandlerInRange(m: Machine, d: nat, v: Value, lookup: Lookup)
    requires InRange(m) && d < |m.promises|
    ensures InRange(AfterHandler(m, d, v, lookup))
  {
    hide InRange, Reject, Resolve;
    RejectInRange(m, Own(d), TypeErrorValue);
    match lookup
    case NotThenable => ResolveInRange(m, Own(d), v);
    case Thenable => PushInRange(m, CallingThen(d));
    case GetterThrows(e) => RejectInRange(m, Own(d), e);
  }

  lemma MoveInRange(m: Machine, step: Step)
    requires InRange(m)
    ensures InRange(Move(m, step))
  {
    hide InRange, Reject, Resolve, Settle, Registered, Start, DrainNext, AfterHandler;
    if !Enabled(m, step) { return; }
    if m.stack != [] {
      TopInRange(m);
      PopInRange(m);
    }
    match step
    case NewPromise => PromiseAdded(m);
    case CallResolve(r, v) => ResolveInRange(m, r, v);
    case CallReject(r, v) => RejectInRange(m, r, v);
    case CallThen(p, ok, fail) => RegisteredInRange(m, p, ok, fail);
    case FinishLookup(lookup) => ResolvedInRange(Pop(m), Top(m).p, Top(m).v, lookup);
    case StartTask => StartInRange(m);
    case DrainOne => DrainInRange(m);
    case HandlerReturns(v, lookup) =>
      var Reacting(p, r) := Top(m);
      AfterHandlerInRange(Pop(m), r.derived, v, lookup);
      AfterHandlerInRange(Pop(m), r.derived, m.promises[p].value, lookup);
      RejectInRange(Pop(m), Own(r.derived), m.promises[p].value);
    case HandlerThrows(e) => RejectInRange(Pop(m), Own(Top(m).r.derived), e);
    case CallReturns =>
    case CallThrows(e) =>
      if Top(m).Thening? { RejectInRange(Pop(m), Wrapped(Top(m).w), e); } else { RejectInRange(Pop(m), Own(Top(m).d), e); }
  }

  lemma ResolvedInRange(m: Machine, p: nat, v: Value, lookup: Lookup)
    requires InRange(m) && p < |m.promises|
    ensures InRange(Resolved(m, p, v, lookup))
  {
    hide InRange, Settle;
    match lookup
    case NotThenable => SettleInRange(m, p, Fulfilled, v);
    case Thenable => TaskAdded(m, Job(p, v));
    case GetterThrows(e) => SettleInRange(m, p, Rejected, e);
  }

  // ---------- The right to settle ----------

  function Sum<T>(xs: seq<T>, f: T -> multiset<nat>): multiset<nat> {
    if xs == [] then multiset{} else Sum(xs[..|xs| - 1], f) + f(xs[|xs| - 1])
  }

  lemma SumSnoc<T>(xs: seq<T>, x: T, f: T -> multiset<nat>)
    ensures Sum(xs + [x], f) == Sum(xs, f) + f(x)
  {
    assert (xs + [x])[..|xs|] == xs;
  }

  lemma {:induction false} SumFront<T>(xs: seq<T>, f: T -> multiset<nat>)
    requires xs != []
    ensures Sum(xs, f) == f(xs[0]) + Sum(xs[1..], f)
  {
    if |xs| == 1 {
      assert xs[..0] == [] && xs[1..] == [];
    } else {
      var front := xs[..|xs| - 1];
      SumFront(front, f);
      assert xs[1..] == front[1..] + [xs[|xs| - 1]];
      SumSnoc(front[1..], xs[|xs| - 1], f);
    }
  }

  lemma {:induction false} SumUpdate<T>(xs: seq<T>, i: nat, y: T, f: T -> multiset<nat>)
    requires i < |xs|
    ensures forall n :: Sum(xs[i := y], f)[n] + f(xs[i])[n] == Sum(xs, f)[n] + f(y)[n]
  {
    var last := |xs| - 1;
    if i == last {
      assert xs[i := y][..last] == xs[..last];
    } else {
      SumUpdate(xs[..last], i, y, f);
      assert xs[i := y][..last] == xs[..last][i := y];
    }
  }

  function OwnRight(ps: PromiseState): multiset<nat> { if ps.done then multiset{} else multiset{ps.facade} }
  function WrapperRight(w: Wrapper): multiset<nat> { if w.done then multiset{} else multiset{w.target} }
  function TaskRight(t: Task): multiset<nat> { if t.Job? then multiset{t.p} else multiset{} }
  function FrameRight(f: Frame): multiset<nat> { if f.Resolving? then multiset{f.p} else multiset{} }
  function IsPending(ps: PromiseState): multiset<nat> { if ps.status == Pending then multiset{ps.facade} else multiset{} }

  /** Every live resolver, wrapper, queued job and resolution in progress, by the promise it may settle. */
  function Rights(m: Machine): multiset<nat> {
    Sum(m.promises, OwnRight) + Sum(m.wrappers, WrapperRight) + Sum(m.tasks, TaskRight) + Sum(m.stack, FrameRight)
  }

  function PendingPromises(m: Machine): multiset<nat> { Sum(m.promises, IsPending) }

  /** The rights, with those in hand, are exactly the pending promises, one right each. */
  predicate Balanced(m: Machine, inHand: multiset<nat>) { Rights(m) + inHand == PendingPromises(m) }

  /** Replacing one record exchanges its right and its pending mark, and nothing else. */
  lemma Exchange(m: Machine, p: nat, ps: PromiseState)
    requires p < |m.promises|
    ensures var t := m.(promises := m.promises[p := ps]);
      && (forall n :: Rights(t)[n] + OwnRight(m.promises[p])[n] == Rights(m)[n] + OwnRight(ps)[n])
      && (forall n :: PendingPromises(t)[n] + IsPending(m.promises[p])[n] == PendingPromises(m)[n] + IsPending(ps)[n])
  {
    hide Sum;
    SumUpdate(m.promises, p, ps, OwnRight);
    SumUpdate(m.promises, p, ps, IsPending);
  }

  lemma ExchangeWrapper(m: Machine, w: nat)
    requires w < |m.wrappers| && !m.wrappers[w].done
    ensures var t := m.(wrappers := m.wrappers[w := m.wrappers[w].(done := true)]);
      && Rights(t) == Rights(m) - multiset{m.wrappers[w].target} && m.wrappers[w].target in Rights(m)
      && PendingPromises(t) == PendingPromises(m)
  {
    hide Sum;
    SumUpdate(m.wrappers, w, m.wrappers[w].(done := true), WrapperRight);
  }

  lemma TakeRight(m: Machine, r: Resolver)
    requires InRange(m) && ValidResolver(m, r) && !IsDone(m, r) && Balanced(m, multiset{})
    ensures Balanced(MarkDone(m, r), multiset{Target(m, r)})
  {
    hide Rights, PendingPromises;
    match r
    case Own(p) => Exchange(m, p, m.promises[p].(done := true));
    case Wrapped(w) => ExchangeWrapper(m, w);
  }

  lemma InHandIsPending(m: Machine, p: nat)
    requires InRange(m) && p < |m.promises| && Balanced(m, multiset{p})
    ensures m.promises[p].status == Pending
  {
    hide InRange, Rights;
    PendingCount(m.promises, p, m);
    assert PendingPromises(m)[p] >= 1;
  }

  lemma {:induction false} PendingCount(ps: seq<PromiseState>, p: nat, m: Machine)
    requires InRange(m) && ps <= m.promises
    ensures Sum(ps, IsPending)[p] == if p < |ps| && m.promises[p].status == Pending then 1 else 0
  {
    if ps != [] {
      PendingCount(ps[..|ps| - 1], p, m);
      RangeOf(m, |ps| - 1);
      assert ps[|ps| - 1] == m.promises[|ps| - 1];
    }
  }

  lemma SpendRight(m: Machine, p: nat, status: Status, v: Value)
    requires InRange(m) && p < |m.promises| && Balanced(m, multiset{p}) && status != Pending
    ensures Balanced(Settle(m, p, status, v), multiset{})
  {
    InHandIsPending(m, p);
    hide InRange, Balanced;
    var ps := m.promises[p].(status := status, value := v);
    var qs := if ps.notified then ps else ps.(notified := true);
    SettledRecord(m, p, qs);
    assert m.promises[p := ps][p := qs] == m.promises[p := qs];
    TaskBalanced(m.(promises := m.promises[p := qs]), Notify(p));
  }

  lemma SettledRecord(m: Machine, p: nat, ps: PromiseState)
    requires InRange(m) && p < |m.promises| && Balanced(m, multiset{p}) && m.promises[p].status == Pending
    requires ps.facade == m.promises[p].facade && ps.done == m.promises[p].done && ps.status != Pending
    ensures Balanced(m.(promises := m.promises[p := ps]), multiset{})
  {
    RangeOf(m, p);
    hide InRange, Rights, PendingPromises;
    Exchange(m, p, ps);
  }

  lemma RejectBalanced(m: Machine, r: Resolver, v: Value)
    requires InRange(m) && ValidResolver(m, r) && Balanced(m, multiset{})
    ensures Balanced(Reject(m, r, v), multiset{})
  {
    hide InRange, Balanced, MarkDone, Settle;
    if !IsDone(m, r) {
      TakeRight(m, r);
      MarkInRange(m, r);
      TargetInRange(m, r);
      SpendRight(MarkDone(m, r), Target(m, r), Rejected, v);
    }
  }

  lemma ResolveBalanced(m: Machine, r: Resolver, v: Value)
    requires InRange(m) && ValidResolver(m, r) && Balanced(m, multiset{})
    ensures Balanced(Resolve(m, r, v), multiset{})
  {
    hide InRange, Balanced, MarkDone, Settle;
    if !IsDone(m, r) {
      var p := Target(m, r);
      TakeRight(m, r);
      MarkInRange(m, r);
      TargetInRange(m, r);
      if v == PromiseValue(p) {
        SpendRight(MarkDone(m, r), p, Rejected, TypeErrorValue);
      } else {
        PushBalanced(MarkDone(m, r), Resolving(p, v), multiset{p});
      }
    }
  }

  lemma PushBalanced(m: Machine, f: Frame, inHand: multiset<nat>)
    requires Balanced(m, inHand) && FrameRight(f) == inHand
    ensures Balanced(Push(m, f), multiset{})
  {
    hide Sum;
    SumSnoc(m.stack, f, FrameRight);
  }

  lemma PopBalanced(m: Machine)
    requires m.stack != [] && Balanced(m, multiset{})
    ensures Balanced(Pop(m), FrameRight(Top(m)))
  {
  }

  lemma ResolvedBalanced(m: Machine, p: nat, v: Value, lookup: Lookup)
    requires InRange(m) && p < |m.promises| && Balanced(m, multiset{p})
    ensures Balanced(Resolved(m, p, v, lookup), multiset{})
  {
    hide InRange, Sum, Settle;
    match lookup
    case NotThenable => SpendRight(m, p, Fulfilled, v);
    case Thenable => SumSnoc(m.tasks, Job(p, v), TaskRight);
    case GetterThrows(e) => SpendRight(m, p, Rejected, e);
  }

  /** A change of a record that is neither done nor status moves no right. */
  lemma ReplacedBalanced(m: Machine, p: nat, ps: PromiseState, inHand: multiset<nat>)
    requires p < |m.promises| && Balanced(m, inHand)
    requires ps.facade == m.promises[p].facade && ps.done == m.promises[p].done && ps.status == m.promises[p].status
    ensures Balanced(m.(promises := m.promises[p := ps]), inHand)
  {
    hide Rights, PendingPromises;
    Exchange(m, p, ps);
  }

  lemma AddedBalanced(m: Machine)
    requires Balanced(m, multiset{})
    ensures Balanced(m.(promises := m.promises + [FreshState(|m.promises|)]), multiset{})
  {
    hide Sum;
    SumSnoc(m.promises, FreshState(|m.promises|), OwnRight);
    SumSnoc(m.promises, FreshState(|m.promises|), IsPending);
  }

  lemma TaskBalanced(m: Machine, t: Task)
    requires Balanced(m, multiset{}) && !t.Job?
    ensures Balanced(m.(tasks := m.tasks + [t]), multiset{})
  {
    hide Sum;
    SumSnoc(m.tasks, t, TaskRight);
  }

  lemma RegisteredBalanced(m: Machine, p: nat, ok: bool, fail: bool)
    requires p < |m.promises| && Balanced(m, multiset{})
    ensures Balanced(Registered(m, p, ok, fail), multiset{})
  {
    hide Balanced;
    AddedBalanced(m);
    var n := m.(promises := m.promises + [FreshState(|m.promises|)]);
    var r := Reaction(|m.promises|, ok, fail);
    var ps := m.promises[p].(registered := m.promises[p].registered + [r]);
    var qs := if ps.status == Pending then ps.(reactions := ps.reactions + [r]) else ps;
    ReplacedBalanced(n, p, qs, multiset{});
    assert n.promises[p := qs] == m.promises[p := qs] + [FreshState(|m.promises|)];
    TaskBalanced(n.(promises := n.promises[p := qs]), React(p, r));
  }

  lemma BeginBalanced(m: Machine, p: nat, r: Reaction)
    requires p < |m.promises| && Balanced(m, multiset{})
    ensures Balanced(Begin(m, p, r), multiset{})
  {
    hide Balanced;
    var ps := m.promises[p].(ran := m.promises[p].ran + [r]);
    ReplacedBalanced(m, p, ps, multiset{});
    PushBalanced(m.(promises := m.promises[p := ps]), Reacting(p, r), multiset{});
  }

  /** A job hands its right to the wrapper it creates. */
  lemma StartBalanced(m: Machine)
    requires InRange(m) && m.tasks != [] && Balanced(m, multiset{})
    ensures Balanced(Start(m), multiset{})
  {
    assert TaskInRange(m, m.tasks[0]);
    var rest := m.(tasks := m.tasks[1..]);
    assert Balanced(rest, TaskRight(m.tasks[0])) by {
      hide Sum;
      SumFront(m.tasks, TaskRight);
    }
    hide InRange, Sum;
    match m.tasks[0]
    case Notify(p) => PushBalanced(rest, Drain(p), multiset{});
    case React(p, r) => BeginBalanced(rest, p, r);
    case Job(p, _) =>
      SumSnoc(m.wrappers, Wrapper(false, p), WrapperRight);
      PushBalanced(rest.(wrappers := m.wrappers + [Wrapper(false, p)]), Thening(|m.wrappers|), multiset{});
  }

  lemma DrainBalanced(m: Machine)
    requires InRange(m) && m.stack != [] && Top(m).Drain? && Balanced(m, multiset{})
    ensures Balanced(DrainNext(m), multiset{})
  {
    TopInRange(m);
    hide InRange, Balanced;
    var p := Top(m).p;
    var ps := m.promises[p];
    if ps.reactions == [] {
      ReplacedBalanced(m, p, ps.(notified := false), multiset{});
      PopBalanced(m.(promises := m.promises[p := ps.(notified := false)]));
    } else {
      ReplacedBalanced(m, p, ps.(reactions := ps.reactions[1..]), multiset{});
      BeginBalanced(m.(promises := m.promises[p := ps.(reactions := ps.reactions[1..])]), p, ps.reactions[0]);
    }
  }

  lemma AfterHandlerBalanced(m: Machine, d: nat, v: Value, lookup: Lookup)
    requires InRange(m) && d < |m.promises| && Balanced(m, multiset{})
    ensures Balanced(AfterHandler(m, d, v, lookup), multiset{})
  {
    hide InRange, Balanced, Reject, Resolve;
    RejectBalanced(m, Own(d), TypeErrorValue);
    match lookup
    case NotThenable => ResolveBalanced(m, Own(d), v);
    case Thenable => PushBalanced(m, CallingThen(d), multiset{});
    case GetterThrows(e) => RejectBalanced(m, Own(d), e);
  }

  lemma MoveBalanced(m: Machine, step: Step)
    requires InRange(m) && Balanced(m, multiset{})
    ensures Balanced(Move(m, step), multiset{})
  {
    hide InRange, Balanced, Reject, Resolve, Resolved, Registered, Start, DrainNext, AfterHandler;
    if !Enabled(m, step) { return; }
    if m.stack != [] {
      TopInRange(m);
      PopInRange(m);
      PopBalanced(m);
    }
    match step
    case NewPromise => AddedBalanced(m);
    case CallResolve(r, v) => ResolveBalanced(m, r, v);
    case CallReject(r, v) => RejectBalanced(m, r, v);
    case CallThen(p, ok, fail) => RegisteredBalanced(m, p, ok, fail);
    case FinishLookup(lookup) => ResolvedBalanced(Pop(m), Top(m).p, Top(m).v, lookup);
    case StartTask => StartBalanced(m);
    case DrainOne => DrainBalanced(m);
    case HandlerReturns(v, lookup) =>
      var Reacting(p, r) := Top(m);
      AfterHandlerBalanced(Pop(m), r.derived, v, lookup);
      AfterHandlerBalanced(Pop(m), r.derived, m.promises[p].value, lookup);
      RejectBalanced(Pop(m), Own(r.derived), m.promises[p].value);
    case HandlerThrows(e) => RejectBalanced(Pop(m), Own(Top(m).r.derived), e);
    case CallReturns =>
    case CallThrows(e) =>
      if Top(m).Thening? { RejectBalanced(Pop(m), Wrapped(Top(m).w), e); } else { RejectBalanced(Pop(m), Own(Top(m).d), e); }
  }

  // ---------- A settled promise never changes ----------

  predicate Keeps(m: Machine, t: Machine) {
    && |m.promises| <= |t.promises|
    && forall p :: 0 <= p < |m.promises| && m.promises[p].status != Pending ==>
         t.promises[p].status == m.promises[p].status && t.promises[p].value == m.promises[p].value
  }

  lemma SettleKeeps(m: Machine, p: nat, status: Status, v: Value)
    requires InRange(m) && p < |m.promises| && Balanced(m, multiset{p})
    ensures Keeps(m, Settle(m, p, status, v))
  {
    InHandIsPending(m, p);
  }

  lemma RejectKeeps(m: Machine, r: Resolver, v: Value)
    requires InRange(m) && ValidResolver(m, r) && Balanced(m, multiset{})
    ensures Keeps(m, Reject(m, r, v))
  {
    hide InRange, Balanced, Settle;
    if !IsDone(m, r) {
      TakeRight(m, r);
      MarkInRange(m, r);
      TargetInRange(m, r);
      SettleKeeps(MarkDone(m, r), Target(m, r), Rejected, v);
    }
  }

  lemma ResolveKeeps(m: Machine, r: Resolver, v: Value)
    requires InRange(m) && ValidResolver(m, r) && Balanced(m, multiset{})
    ensures Keeps(m, Resolve(m, r, v))
  {
    hide InRange, Balanced, Settle;
    if !IsDone(m, r) && v == PromiseValue(Target(m, r)) {
      TakeRight(m, r);
      MarkInRange(m, r);
      TargetInRange(m, r);
      SettleKeeps(MarkDone(m, r), Target(m, r), Rejected, TypeErrorValue);
    }
  }

  lemma ResolvedKeeps(m: Machine, p: nat, v: Value, lookup: Lookup)
    requires InRange(m) && p < |m.promises| && Balanced(m, multiset{p})
    ensures Keeps(m, Resolved(m, p, v, lookup))
  {
    hide InRange, Balanced, Settle;
    match lookup
    case NotThenable => SettleKeeps(m, p, Fulfilled, v);
    case Thenable =>
    case GetterThrows(e) => SettleKeeps(m, p, Rejected, e);
  }

  lemma AfterHandlerKeeps(m: Machine, d: nat, v: Value, lookup: Lookup)
    requires InRange(m) && d < |m.promises| && Balanced(m, multiset{})
    ensures Keeps(m, AfterHandler(m, d, v, lookup))
  {
    hide InRange, Balanced, Reject, Resolve;
    RejectKeeps(m, Own(d), TypeErrorValue);
    match lookup
    case NotThenable => ResolveKeeps(m, Own(d), v);
    case Thenable =>
    case GetterThrows(e) => RejectKeeps(m, Own(d), e);
  }

  lemma MoveKeeps(m: Machine, step: Step)
    requires InRange(m) && Balanced(m, multiset{})
    ensures Keeps(m, Move(m, step))
  {
    hide InRange, Balanced, Reject, Resolve, Resolved, AfterHandler;
    if !Enabled(m, step) { return; }
    if m.stack != [] {
      TopInRange(m);
      PopInRange(m);
      PopBalanced(m);
    }
    if m.tasks != [] { HeadInRange(m); }
    match step
    case NewPromise =>
    case CallResolve(r, v) => ResolveKeeps(m, r, v);
    case CallReject(r, v) => RejectKeeps(m, r, v);
    case CallThen(p, ok, fail) =>
    case FinishLookup(lookup) => ResolvedKeeps(Pop(m), Top(m).p, Top(m).v, lookup);
    case StartTask =>
    case DrainOne =>
    case HandlerReturns(v, lookup) =>
      var Reacting(p, r) := Top(m);
      AfterHandlerKeeps(Pop(m), r.derived, v, lookup);
      AfterHandlerKeeps(Pop(m), r.derived, m.promises[p].value, lookup);
      RejectKeeps(Pop(m), Own(r.derived), m.promises[p].value);
    case HandlerThrows(e) => RejectKeeps(Pop(m), Own(Top(m).r.derived), e);
    case CallReturns =>
    case CallThrows(e) =>
      if Top(m).Thening? { RejectKeeps(Pop(m), Wrapped(Top(m).w), e); } else { RejectKeeps(Pop(m), Own(Top(m).d), e); }
  }

  lemma HeadInRange(m: Machine)
    requires InRange(m) && m.tasks != []
    ensures TaskInRange(m, m.tasks[0])
  {
  }

  // ---------- Reactions run once, in order ----------

  predicate About(t: Task, p: nat) { t == Notify(p) || (t.React? && t.p == p) }

  predicate NoneAbout(tasks: seq<Task>, p: nat) { forall i :: 0 <= i < |tasks| ==> !About(tasks[i], p) }

  /** The reactions of p that wait in the microtask queue on their own. */
  function Queued(tasks: seq<Task>, p: nat): seq<Reaction> {
    if tasks == [] then []
    else if tasks[0].React? && tasks[0].p == p then [tasks[0].r] + Queued(tasks[1..], p)
    else Queued(tasks[1..], p)
  }

  /** The first microtask about p is the one that drains its reactions. */
  predicate NotifyFirst(tasks: seq<Task>, p: nat) {
    tasks != [] && if About(tasks[0], p) then tasks[0].Notify? else NotifyFirst(tasks[1..], p)
  }

  predicate Draining(stack: seq<Frame>, p: nat) { stack != [] && stack[0] == Drain(p) }

  /** The engine drains only from an empty stack. */
  predicate Discipline(stack: seq<Frame>) { forall i :: 0 < i < |stack| ==> !stack[i].Drain? }

  predicate Increasing(rs: seq<Reaction>, bound: nat) {
    && (forall j, k :: 0 <= j < k < |rs| ==> rs[j].derived < rs[k].derived)
    && (forall j :: 0 <= j < |rs| ==> rs[j].derived < bound)
  }

  /** What was registered is what ran, then what waits in the promise, then what waits in the queue. */
  predicate OrderedAt(ps: PromiseState, tasks: seq<Task>, stack: seq<Frame>) {
    && ps.registered == ps.ran + ps.reactions + Queued(tasks, ps.facade)
    && (ps.status == Pending ==>
          ps.ran == [] && !ps.notified && NoneAbout(tasks, ps.facade) && !Draining(stack, ps.facade))
    && (ps.status != Pending && ps.reactions != [] ==> Draining(stack, ps.facade) || NotifyFirst(tasks, ps.facade))
  }

  predicate Ordered(m: Machine) {
    && Discipline(m.stack)
    && (forall p :: 0 <= p < |m.promises| ==> OrderedAt(m.promises[p], m.tasks, m.stack))
    && (forall p :: 0 <= p < |m.promises| ==> Increasing(m.promises[p].registered, |m.promises|))
  }

  lemma {:induction false} TaskAppended(tasks: seq<Task>, t: Task, p: nat)
    ensures Queued(tasks + [t], p) == Queued(tasks, p) + (if t.React? && t.p == p then [t.r] else [])
    ensures NotifyFirst(tasks, p) ==> NotifyFirst(tasks + [t], p)
    ensures NoneAbout(tasks, p) && t == Notify(p) ==> NotifyFirst(tasks + [t], p)
    ensures NoneAbout(tasks, p) && !About(t, p) ==> NoneAbout(tasks + [t], p)
  {
    var all := tasks + [t];
    if tasks == [] {
      assert all == [t] && all[1..] == [];
    } else {
      TaskAppended(tasks[1..], t, p);
      assert all[0] == tasks[0] && all[1..] == tasks[1..] + [t];
    }
  }

  lemma {:induction false} NoneQueued(tasks: seq<Task>, p: nat)
    requires NoneAbout(tasks, p)
    ensures Queued(tasks, p) == []
  {
    if tasks != [] {
      assert !About(tasks[0], p);
      NoneQueued(tasks[1..], p);
    }
  }

  /** A new microtask that is not a reaction, and does not announce a pending promise, disturbs no promise. */
  lemma AppendOrdered(ps: PromiseState, tasks: seq<Task>, stack: seq<Frame>, t: Task)
    requires OrderedAt(ps, tasks, stack)
    requires !t.React? && (t == Notify(ps.facade) ==> ps.status != Pending)
    ensures OrderedAt(ps, tasks + [t], stack)
  {
    hide Queued, NotifyFirst, NoneAbout;
    TaskAppended(tasks, t, ps.facade);
    assert Queued(tasks, ps.facade) + [] == Queued(tasks, ps.facade);
  }

  lemma MarkOrdered(m: Machine, r: Resolver)
    requires Ordered(m) && ValidResolver(m, r)
    ensures Ordered(MarkDone(m, r))
  {
    hide Queued, NotifyFirst, NoneAbout, Increasing, Draining;
  }

  lemma SettleOrdered(m: Machine, p: nat, status: Status, v: Value)
    requires InRange(m) && p < |m.promises| && Ordered(m) && m.promises[p].status == Pending && status != Pending
    ensures Ordered(Settle(m, p, status, v))
  {
    RangeOf(m, p);
    var t := Settle(m, p, status, v);
    forall q | 0 <= q < |t.promises| ensures OrderedAt(t.promises[q], t.tasks, t.stack) {
      RangeOf(m, q);
      SettleOrderedAt(m, p, q, status, v);
    }
    hide InRange, OrderedAt, Increasing;
    assert forall q :: 0 <= q < |t.promises| ==> t.promises[q].registered == m.promises[q].registered;
  }

  lemma SettleOrderedAt(m: Machine, p: nat, q: nat, status: Status, v: Value)
    requires p < |m.promises| && q < |m.promises| && m.promises[p].status == Pending && status != Pending
    requires m.promises[p].facade == p && m.promises[q].facade == q
    requires OrderedAt(m.promises[p], m.tasks, m.stack) && OrderedAt(m.promises[q], m.tasks, m.stack)
    ensures var t := Settle(m, p, status, v); OrderedAt(t.promises[q], t.tasks, t.stack)
  {
    hide Queued, NotifyFirst, NoneAbout, Draining;
    if q == p {
      TaskAppended(m.tasks, Notify(p), p);
      assert Queued(m.tasks, p) + [] == Queued(m.tasks, p);
    } else {
      AppendOrdered(m.promises[q], m.tasks, m.stack, Notify(p));
    }
  }

  lemma RejectOrdered(m: Machine, r: Resolver, v: Value)
    requires InRange(m) && ValidResolver(m, r) && Balanced(m, multiset{}) && Ordered(m)
    ensures Ordered(Reject(m, r, v))
  {
    hide InRange, Balanced, Settle, Ordered;
    if !IsDone(m, r) {
      hide MarkDone;
      TakeRight(m, r);
      MarkInRange(m, r);
      MarkOrdered(m, r);
      TargetInRange(m, r);
      InHandIsPending(MarkDone(m, r), Target(m, r));
      SettleOrdered(MarkDone(m, r), Target(m, r), Rejected, v);
    }
  }

  lemma PushOrdered(m: Machine, f: Frame)
    requires Ordered(m) && !f.Drain?
    ensures Ordered(Push(m, f))
  {
    hide Queued, NotifyFirst, NoneAbout, Increasing;
    assert forall p :: Draining(m.stack + [f], p) <==> Draining(m.stack, p);
  }

  lemma PopOrdered(m: Machine)
    requires Ordered(m) && m.stack != [] && !Top(m).Drain?
    ensures Ordered(Pop(m))
  {
    hide Queued, NotifyFirst, NoneAbout, Increasing;
    assert forall p :: Draining(Pop(m).stack, p) <==> Draining(m.stack, p);
  }

  lemma ResolveOrdered(m: Machine, r: Resolver, v: Value)
    requires InRange(m) && ValidResolver(m, r) && Balanced(m, multiset{}) && Ordered(m)
    ensures Ordered(Resolve(m, r, v))
  {
    hide InRange, Balanced, Settle, Ordered;
    if !IsDone(m, r) {
      hide MarkDone;
      var p := Target(m, r);
      TakeRight(m, r);
      MarkInRange(m, r);
      MarkOrdered(m, r);
      TargetInRange(m, r);
      InHandIsPending(MarkDone(m, r), p);
      SettleOrdered(MarkDone(m, r), p, Rejected, TypeErrorValue);
      PushOrdered(MarkDone(m, r), Resolving(p, v));
    }
  }

  lemma ResolvedOrdered(m: Machine, p: nat, v: Value, lookup: Lookup)
    requires InRange(m) && p < |m.promises| && Balanced(m, multiset{p}) && Ordered(m)
    ensures Ordered(Resolved(m, p, v, lookup))
  {
    InHandIsPending(m, p);
    match lookup
    case NotThenable => SettleOrdered(m, p, Fulfilled, v);
    case Thenable =>
      hide Queued, NotifyFirst, NoneAbout, Increasing, OrderedAt;
      forall q | 0 <= q < |m.promises| ensures OrderedAt(m.promises[q], m.tasks + [Job(p, v)], m.stack) {
        AppendOrdered(m.promises[q], m.tasks, m.stack, Job(p, v));
      }
    case GetterThrows(e) => SettleOrdered(m, p, Rejected, e);
  }

  /** A fresh promise has no history, and nothing in the queue or on the stack is about it. */
  lemma AddedOrdered(m: Machine)
    requires InRange(m) && Ordered(m)
    ensures Ordered(m.(promises := m.promises + [FreshState(|m.promises|)]))
  {
    var d := |m.promises|;
    assert NoneAbout(m.tasks, d) by {
      forall i | 0 <= i < |m.tasks| ensures !About(m.tasks[i], d) { assert TaskInRange(m, m.tasks[i]); }
    }
    assert !Draining(m.stack, d) by { if m.stack != [] { assert FrameInRange(m, m.stack[0]); } }
    NoneQueued(m.tasks, d);
    hide InRange, Queued, NotifyFirst, NoneAbout, Draining;
  }

  lemma RegisteredOrdered(m: Machine, p: nat, ok: bool, fail: bool)
    requires InRange(m) && p < |m.promises| && Ordered(m)
    ensures Ordered(Registered(m, p, ok, fail))
  {
    hide InRange, OrderedAt, Increasing, Discipline;
    AddedOrdered(m);
    var n := m.(promises := m.promises + [FreshState(|m.promises|)]);
    var t := Registered(m, p, ok, fail);
    var r := Reaction(|m.promises|, ok, fail);
    forall q | 0 <= q < |t.promises| ensures OrderedAt(t.promises[q], t.tasks, t.stack) {
      RangeOf(m, p);
      if q < |m.promises| { RangeOf(m, q); }
      RegisteredOrderedAt(n, t, p, q, r);
    }
    forall q | 0 <= q < |t.promises| ensures Increasing(t.promises[q].registered, |t.promises|) {
      assert Increasing(n.promises[q].registered, |n.promises|);
      if q == p {
        assert t.promises[q].registered == m.promises[q].registered + [r];
        OneMore(m.promises[p].registered, r);
      } else {
        assert t.promises[q] == n.promises[q];
      }
    }
  }

  /** The reaction registered last has the newest derived promise. */
  lemma OneMore(rs: seq<Reaction>, r: Reaction)
    requires Increasing(rs, r.derived)
    ensures Increasing(rs + [r], r.derived + 1)
  {
  }

  lemma RegisteredOrderedAt(n: Machine, t: Machine, p: nat, q: nat, r: Reaction)
    requires p < |n.promises| == |t.promises| && q < |n.promises|
    requires OrderedAt(n.promises[q], n.tasks, n.stack) && t.stack == n.stack
    requires n.promises[p].facade == p && n.promises[q].facade == q
    requires q != p ==> t.promises[q] == n.promises[q]
    requires t.promises[p].registered == n.promises[p].registered + [r]
    requires n.promises[p].status == Pending ==>
      t.tasks == n.tasks && t.promises[p] ==
        n.promises[p].(registered := n.promises[p].registered + [r], reactions := n.promises[p].reactions + [r])
    requires n.promises[p].status != Pending ==>
      t.tasks == n.tasks + [React(p, r)] && t.promises[p] == n.promises[p].(registered := n.promises[p].registered + [r])
    ensures OrderedAt(t.promises[q], t.tasks, t.stack)
  {
    var ps := n.promises[q];
    if n.promises[p].status == Pending {
      if q == p { NoneQueued(n.tasks, p); }
    } else {
      hide NotifyFirst, Draining, Queued;
      TaskAppended(n.tasks, React(p, r), q);
      if q == p {
        assert ps.registered + [r] == ps.ran + ps.reactions + (Queued(n.tasks, q) + [r]);
      } else {
        assert Queued(n.tasks, q) + [] == Queued(n.tasks, q);
      }
    }
  }

  /** Taking the first microtask away changes nothing for the promises it is not about. */
  lemma HeadTaken(ps: PromiseState, tasks: seq<Task>)
    requires tasks != [] && !About(tasks[0], ps.facade) && OrderedAt(ps, tasks, [])
    ensures OrderedAt(ps, tasks[1..], [])
  {
  }

  /** The drain microtask moves from the queue to the stack. */
  lemma DrainStarts(ps: PromiseState, tasks: seq<Task>)
    requires tasks != [] && tasks[0] == Notify(ps.facade) && OrderedAt(ps, tasks, [])
    ensures OrderedAt(ps, tasks[1..], [Drain(ps.facade)])
  {
    assert About(tasks[0], ps.facade);
  }

  lemma FrameIrrelevant(ps: PromiseState, tasks: seq<Task>, f: Frame)
    requires OrderedAt(ps, tasks, []) && f != Drain(ps.facade)
    ensures OrderedAt(ps, tasks, [f])
  {
  }

  /** A queued reaction starts only when the promise's own queue is empty, so it is next in order. */
  lemma ReactionStarts(ps: PromiseState, tasks: seq<Task>)
    requires tasks != [] && tasks[0].React? && tasks[0].p == ps.facade && OrderedAt(ps, tasks, [])
    ensures OrderedAt(ps.(ran := ps.ran + [tasks[0].r]), tasks[1..], [])
  {
    assert About(tasks[0], ps.facade);
    assert ps.reactions == [];
    assert ps.ran + [] + ([tasks[0].r] + Queued(tasks[1..], ps.facade)) == ps.ran + [tasks[0].r] + [] + Queued(tasks[1..],
        ps.facade);
  }

  lemma StartOrdered(m: Machine)
    requires InRange(m) && m.tasks != [] && m.stack == [] && Ordered(m)
    ensures Ordered(Start(m))
  {
    var t := Start(m);
    HeadInRange(m);
    var head := m.tasks[0];
    forall q | 0 <= q < |t.promises| ensures OrderedAt(t.promises[q], t.tasks, t.stack) {
      RangeOf(m, q);
      StartOrderedAt(m, head, q);
    }
    hide OrderedAt, InRange;
    assert forall q :: 0 <= q < |t.promises| ==> t.promises[q].registered == m.promises[q].registered;
  }

  lemma StartOrderedAt(m: Machine, head: Task, q: nat)
    requires InRange(m) && m.tasks != [] && m.stack == [] && head == m.tasks[0] && q < |m.promises|
    requires OrderedAt(m.promises[q], m.tasks, []) && m.promises[q].facade == q && |Start(m).promises| == |m.promises|
    ensures var t := Start(m); OrderedAt(t.promises[q], t.tasks, t.stack)
  {
    hide InRange, OrderedAt;
    HeadInRange(m);
    var ps := m.promises[q];
    if head == Notify(q) {
      DrainStarts(ps, m.tasks);
      assert Start(m).stack == [Drain(q)];
    } else if head.React? && head.p == q {
      ReactionStarts(ps, m.tasks);
      FrameIrrelevant(ps.(ran := ps.ran + [head.r]), m.tasks[1..], Reacting(q, head.r));
      assert Start(m).stack == [Reacting(q, head.r)];
    } else {
      HeadTaken(ps, m.tasks);
      var t := Start(m);
      assert t.promises[q] == ps && t.tasks == m.tasks[1..] && |t.stack| == 1;
      FrameIrrelevant(ps, t.tasks, t.stack[0]);
      assert t.stack == [t.stack[0]];
    }
  }

  lemma DrainOrdered(m: Machine)
    requires InRange(m) && m.stack != [] && Top(m).Drain? && Ordered(m)
    ensures Ordered(DrainNext(m))
  {
    TopInRange(m);
    assert |m.stack| == 1;
    var p := Top(m).p;
    var t := DrainNext(m);
    forall q | 0 <= q < |t.promises| ensures OrderedAt(t.promises[q], t.tasks, t.stack) {
      RangeOf(m, q);
      DrainOrderedAt(m, p, q);
    }
    hide OrderedAt, InRange;
    assert forall q :: 0 <= q < |t.promises| ==> t.promises[q].registered == m.promises[q].registered;
  }

  lemma DrainOrderedAt(m: Machine, p: nat, q: nat)
    requires InRange(m) && |m.stack| == 1 && Top(m) == Drain(p) && p < |m.promises| && q < |m.promises|
    requires OrderedAt(m.promises[q], m.tasks, m.stack) && m.promises[q].facade == q && |DrainNext(m).promises| == |m.promises|
    ensures var t := DrainNext(m); OrderedAt(t.promises[q], t.tasks, t.stack)
  {
    hide InRange, Queued, NotifyFirst, NoneAbout;
    var ps := m.promises[q];
    if q == p {
      assert Draining(m.stack, p);
      if ps.reactions != [] {
        assert ps.ran + ps.reactions == ps.ran + [ps.reactions[0]] + ps.reactions[1..];
      }
    }
  }

  lemma AfterHandlerOrdered(m: Machine, d: nat, v: Value, lookup: Lookup)
    requires InRange(m) && d < |m.promises| && Balanced(m, multiset{}) && Ordered(m)
    ensures Ordered(AfterHandler(m, d, v, lookup))
  {
    hide InRange, Balanced, Reject, Resolve, Ordered;
    RejectOrdered(m, Own(d), TypeErrorValue);
    match lookup
    case NotThenable => ResolveOrdered(m, Own(d), v);
    case Thenable => PushOrdered(m, CallingThen(d));
    case GetterThrows(e) => RejectOrdered(m, Own(d), e);
  }

  lemma MoveOrdered(m: Machine, step: Step)
    requires InRange(m) && Balanced(m, multiset{}) && Ordered(m)
    ensures Ordered(Move(m, step))
  {
    hide InRange, Balanced, Ordered, Reject, Resolve, Resolved, Registered, Start, DrainNext, AfterHandler;
    if !Enabled(m, step) { return; }
    if m.stack != [] {
      TopInRange(m);
      PopInRange(m);
      PopBalanced(m);
      if !Top(m).Drain? { PopOrdered(m); }
    }
    match step
    case NewPromise => AddedOrdered(m);
    case CallResolve(r, v) => ResolveOrdered(m, r, v);
    case CallReject(r, v) => RejectOrdered(m, r, v);
    case CallThen(p, ok, fail) => RegisteredOrdered(m, p, ok, fail);
    case FinishLookup(lookup) => ResolvedOrdered(Pop(m), Top(m).p, Top(m).v, lookup);
    case StartTask => StartOrdered(m);
    case DrainOne => DrainOrdered(m);
    case HandlerReturns(v, lookup) =>
      var Reacting(p, r) := Top(m);
      AfterHandlerOrdered(Pop(m), r.derived, v, lookup);
      AfterHandlerOrdered(Pop(m), r.derived, m.promises[p].value, lookup);
      RejectOrdered(Pop(m), Own(r.derived), m.promises[p].value);
    case HandlerThrows(e) => RejectOrdered(Pop(m), Own(Top(m).r.derived), e);
    case CallReturns =>
    case CallThrows(e) =>
      if Top(m).Thening? { RejectOrdered(Pop(m), Wrapped(Top(m).w), e); } else { RejectOrdered(Pop(m), Own(Top(m).d), e); }
  }

  // ---------- Every run ----------

  predicate Inv(m: Machine) { InRange(m) && Balanced(m, multiset{}) && Ordered(m) }

  function RunFrom(m: Machine, steps: seq<Step>): (t: Machine)
    requires Inv(m)
    ensures Inv(t)
  {
    if steps == [] then m
    else
      var t := RunFrom(m, steps[..|steps| - 1]);
      MoveInv(t, steps[|steps| - 1]);
      Move(t, steps[|steps| - 1])
  }

  lemma MoveInv(m: Machine, step: Step)
    requires Inv(m)
    ensures Inv(Move(m, step))
  {
    hide InRange, Balanced, Ordered, Move;
    MoveInRange(m, step);
    MoveBalanced(m, step);
    MoveOrdered(m, step);
  }

  /** A run of the engine from its start. */
  function Run(steps: seq<Step>): (m: Machine)
    ensures Inv(m)
  {
    RunFrom(EMPTY, steps)
  }

  /**
   At every moment of every run a pending promise has exactly one right to settle it - a live
   resolver or wrapper, a queued job, or a resolution in progress - and a settled one has none.
   */
  lemma OneRightEach(steps: seq<Step>, p: nat)
    requires p < |Run(steps).promises|
    ensures Rights(Run(steps))[p] == if Run(steps).promises[p].status == Pending then 1 else 0
  {
    var m := Run(steps);
    PendingCount(m.promises, p, m);
    assert Rights(m) + multiset{} == Rights(m);
  }

  /** Once settled, a promise keeps its state and value in every continuation, whatever user code calls. */
  lemma {:induction false} SettledForever(m: Machine, steps: seq<Step>, p: nat)
    requires Inv(m) && p < |m.promises| && m.promises[p].status != Pending
    ensures var t := RunFrom(m, steps);
      && p < |t.promises|
      && t.promises[p].status == m.promises[p].status && t.promises[p].value == m.promises[p].value
  {
    if steps != [] {
      var front := steps[..|steps| - 1];
      SettledForever(m, front, p);
      MoveKeeps(RunFrom(m, front), steps[|steps| - 1]);
    }
  }

  /**
   In every run, what has run of a promise's reactions is an initial part of what was registered, so each
   reaction ran at most once and in registration order; none ran before the promise settled.
   */
  lemma ReactionsInOrder(steps: seq<Step>, p: nat)
    requires p < |Run(steps).promises|
    ensures var ps := Run(steps).promises[p];
      && ps.ran <= ps.registered
      && (forall j, k :: 0 <= j < k < |ps.ran| ==> ps.ran[j] != ps.ran[k])
      && (ps.ran != [] ==> ps.status != Pending)
  {
    var ps := Run(steps).promises[p];
    assert OrderedAt(ps, Run(steps).tasks, Run(steps).stack);
    assert Increasing(ps.registered, |Run(steps).promises|);
    forall j, k | 0 <= j < k < |ps.ran| ensures ps.ran[j] != ps.ran[k] {
      assert ps.ran[j] == ps.registered[j] && ps.ran[k] == ps.registered[k];
    }
  }

  /** When no microtask is left, every reaction of every settled promise has run. */
  lemma AllReactionsRun(steps: seq<Step>, p: nat)
    requires Run(steps).stack == [] && Run(steps).tasks == []
    requires p < |Run(steps).promises| && Run(steps).promises[p].status != Pending
    ensures Run(steps).promises[p].ran == Run(steps).promises[p].registered
  {
    var m := Run(steps);
    var ps := m.promises[p];
    assert OrderedAt(ps, m.tasks, m.stack);
    assert ps.ran + [] + [] == ps.ran;
  }
}

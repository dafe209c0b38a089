/**
 The timer queue of js/hybrid-fake-dom.js.  A callback is the list of timer operations it
 performs before it returns or throws; it may schedule, clear, ask for a frame and drain again.
 */
module Timers {
  datatype Operation =
    | SetTimeout(handler: Handler)
    | ClearTimeout(id: int)
    | RequestFrame(callback: Handler)
    | Drain

  /** Functions and source texts can be queued, only functions called back for a frame; anything else just uses up an id. */
  datatype Handler = Callable(body: seq<Operation>) | SourceText(body: seq<Operation>) | Neither

  datatype Timer = Timer(id: nat, body: seq<Operation>)

  const SAFETY := 5000

  function Ids(queue: seq<Timer>): (ids: seq<nat>)
    ensures |ids| == |queue| && forall i :: 0 <= i < |ids| ==> ids[i] == queue[i].id
  {
    if queue == [] then [] else [queue[0].id] + Ids(queue[1..])
  }

  predicate Increasing(s: seq<nat>) { forall i, j :: 0 <= i < j < |s| ==> s[i] < s[j] }

  predicate Issued(s: seq<nat>, counter: nat) { forall i :: 0 <= i < |s| ==> 1 <= s[i] <= counter }

  /** How many operations a callback holds, frames included; what makes a finite callback return. */
  function Weight(ops: seq<Operation>): nat {
    if ops == [] then 0
    else 1 + OwnWeight(ops[0]) + Weight(ops[1..])
  }

  function OwnWeight(op: Operation): nat {
    match op
    case RequestFrame(Callable(body)) => Weight(body)
    case _ => 0
  }

  /** Fired, pending and cleared timers share out the scheduled ones, and ids fire in the order they were issued. */
  ghost predicate Ordered(fired: seq<nat>, pending: seq<nat>, cleared: set<nat>, scheduled: set<nat>, counter: nat) {
    && Increasing(fired + pending) && Issued(fired + pending, counter)
    && (forall id :: id in scheduled <==> id in fired || id in pending || id in cleared)
    && (forall id :: id in cleared ==> id !in fired && id !in pending && id <= counter)
  }

  /** No timer fires twice, and a cleared or a pending one has not fired. */
  lemma EachFate(fired: seq<nat>, pending: seq<nat>, cleared: set<nat>, scheduled: set<nat>, counter: nat, i: nat)
    requires Ordered(fired, pending, cleared, scheduled, counter) && i < |fired|
    ensures fired[i] in scheduled && fired[i] !in pending && fired[i] !in cleared
    ensures forall j :: 0 <= j < |fired| && fired[j] == fired[i] ==> j == i
  {
    var all := fired + pending;
    assert all[i] == fired[i];
    forall j | 0 <= j < |fired| && j != i ensures fired[j] != fired[i] { assert all[j] == fired[j]; }
    forall k | 0 <= k < |pending| ensures pending[k] != fired[i] { assert all[|fired| + k] == pending[k]; }
  }

  lemma Scheduling(fired: seq<nat>, pending: seq<nat>, cleared: set<nat>, scheduled: set<nat>, counter: nat)
    requires Ordered(fired, pending, cleared, scheduled, counter)
    ensures Ordered(fired, pending + [counter + 1], cleared, scheduled + {counter + 1}, counter + 1)
    ensures Ordered(fired, pending, cleared, scheduled, counter + 1)
  {
    var all := fired + pending;
    assert fired + (pending + [counter + 1]) == all + [counter + 1];
    assert forall id :: id in fired ==> id in all;
    assert forall id :: id in pending ==> id in all;
  }

  lemma Firing(fired: seq<nat>, pending: seq<nat>, cleared: set<nat>, scheduled: set<nat>, counter: nat)
    requires Ordered(fired, pending, cleared, scheduled, counter) && pending != []
    ensures Ordered(fired + [pending[0]], pending[1..], cleared, scheduled, counter)
  {
    assert fired + [pending[0]] + pending[1..] == fired + pending;
    assert pending == [pending[0]] + pending[1..];
  }

  lemma Clearing(fired: seq<nat>, pending: seq<nat>, cleared: set<nat>, scheduled: set<nat>, counter: nat, k: nat)
    requires Ordered(fired, pending, cleared, scheduled, counter) && k < |pending|
    ensures Ordered(fired, pending[..k] + pending[k + 1..], cleared + {pending[k]}, scheduled, counter)
  {
    var all, left := fired + pending, pending[..k] + pending[k + 1..];
    assert forall i :: 0 <= i < |fired + left| ==> (fired + left)[i] == all[if i < |fired| + k then i else i + 1];
    assert all[|fired| + k] == pending[k];
    assert forall i :: 0 <= i < |left| ==> left[i] == all[if i < k then |fired| + i else |fired| + i + 1];
    assert pending == pending[..k] + [pending[k]] + pending[k + 1..];
    assert forall i :: 0 <= i < |fired| ==> fired[i] == all[i];
  }

  lemma {:induction false} IdsConcat(a: seq<Timer>, b: seq<Timer>)
    ensures Ids(a + b) == Ids(a) + Ids(b)
  {
    hide Ids;
    forall i | 0 <= i < |a| + |b| ensures Ids(a + b)[i] == (Ids(a) + Ids(b))[i] {
      assert (a + b)[i] == if i < |a| then a[i] else b[i - |a|];
    }
  }

  lemma IdsSlice(queue: seq<Timer>, low: nat, high: nat)
    requires low <= high <= |queue|
    ensures Ids(queue[low..high]) == Ids(queue)[low..high]
  {
    hide Ids;
    forall i | 0 <= i < high - low ensures Ids(queue[low..high])[i] == Ids(queue)[low..high][i] {
      assert queue[low..high][i] == queue[low + i];
    }
  }

  lemma IdsAppend(queue: seq<Timer>, t: Timer)
    ensures Ids(queue + [t]) == Ids(queue) + [t.id]
  {
    IdsConcat(queue, [t]);
  }

  lemma IdsRemoved(queue: seq<Timer>, k: nat)
    requires k < |queue|
    ensures Ids(queue[..k] + queue[k + 1..]) == Ids(queue)[..k] + Ids(queue)[k + 1..]
  {
    hide Ids;
    var a, b := queue[..k], queue[k + 1..];
    assert Ids(a) == Ids(queue)[..k] by { IdsSlice(queue, 0, k); }
    assert Ids(b) == Ids(queue)[k + 1..] by { IdsSlice(queue, k + 1, |queue|); }
    IdsConcat(a, b);
  }

  lemma IdsRest(queue: seq<Timer>)
    requires queue != []
    ensures Ids(queue[1..]) == Ids(queue)[1..]
  {
  }

  lemma IdsMember(queue: seq<Timer>, id: int)
    ensures id in Ids(queue) <==> exists k :: 0 <= k < |queue| && queue[k].id == id
  {
    hide Ids;
    if k :| 0 <= k < |queue| && queue[k].id == id { assert Ids(queue)[k] == id; }
  }

  // ---------- What a callback does, as a function of the state it starts in ----------

  datatype State = State(queue: seq<Timer>, timerId: nat, fired: seq<nat>)

  /** The first timer with the id is taken out. */
  function Without(queue: seq<Timer>, id: int): seq<Timer> {
    if queue == [] then []
    else if queue[0].id == id then queue[1..]
    else [queue[0]] + Without(queue[1..], id)
  }

  function BodyOf(handler: Handler): seq<Operation> {
    match handler
    case Callable(body) => body
    case SourceText(body) => body
    case Neither => []
  }

  function WasSet(s: State, handler: Handler): State {
    var id := s.timerId + 1;
    State(if handler.Neither? then s.queue else s.queue + [Timer(id, BodyOf(handler))], id, s.fired)
  }

  function Performed(ops: seq<Operation>, s: State, draining: bool): State
    decreases if draining then 0 else 1, Weight(ops), 0
  {
    if ops == [] then s else Performed(ops[1..], PerformedOne(ops[0], s, draining), draining)
  }

  function PerformedOne(op: Operation, s: State, draining: bool): State
    decreases if draining then 0 else 1, OwnWeight(op), 2
  {
    match op
    case SetTimeout(handler) => WasSet(s, handler)
    case ClearTimeout(id) => s.(queue := Without(s.queue, id))
    case RequestFrame(callback) => Framed(callback, s, draining)
    case Drain => if draining then s else Drained(s, SAFETY)
  }

  function Framed(callback: Handler, s: State, draining: bool): State
    decreases if draining then 0 else 1, if callback.Callable? then Weight(callback.body) else 0, 1
  {
    var t := s.(timerId := s.timerId + 1);
    if callback.Callable? then Performed(callback.body, t, draining) else t
  }

  /** At most `budget` timers fire, always the first one queued; their own drains do nothing. */
  function Drained(s: State, budget: nat): State
    decreases 1, 0, 0, budget
  {
    if s.queue == [] || budget == 0 then s
    else
      var timer := s.queue[0];
      Drained(Performed(timer.body, State(s.queue[1..], s.timerId, s.fired + [timer.id]), true), budget - 1)
  }

  class TimerQueue {
    var queue: seq<Timer>
    var timerId: nat
    var draining: bool
    ghost var fired: seq<nat>
    ghost var cleared: set<nat>
    ghost var scheduled: set<nat>

    ghost predicate Valid()
      reads this
    {
      Ordered(fired, Ids(queue), cleared, scheduled, timerId)
    }

    ghost function AsState(): State
      reads this
    {
      State(queue, timerId, fired)
    }

    /** Nothing that has happened is taken back. */
    twostate predicate Later()
      reads this
    {
      && old(fired) <= fired && old(cleared) <= cleared && old(scheduled) <= scheduled
      && old(timerId) <= timerId && draining == old(draining)
      && (draining ==> fired == old(fired))
    }

    constructor ()
      ensures Valid() && queue == [] && timerId == 0 && !draining
      ensures fired == [] && cleared == {} && scheduled == {}
    {
      queue, timerId, draining := [], 0, false;
      fired, cleared, scheduled := [], {}, {};
    }

    /** The id returned is new; a function or a text is queued behind all others. */
    method Set(handler: Handler) returns (id: nat)
      requires Valid()
      modifies `queue, `timerId, `scheduled
      ensures Valid() && id == timerId == old(timerId) + 1
      ensures queue == if handler.Neither? then old(queue) else old(queue) + [Timer(id, BodyOf(handler))]
      ensures AsState() == WasSet(old(AsState()), handler)
      ensures scheduled == if handler.Neither? then old(scheduled) else old(scheduled) + {id}
      ensures id !in old(scheduled)
    {
      hide Ordered, Ids, BodyOf;
      ghost var timer := Timer(timerId + 1, BodyOf(handler));
      SettingKeeps(fired, queue, cleared, scheduled, timerId, BodyOf(handler));
      timerId := timerId + 1;
      id := timerId;
      if handler.Neither? { return; }
      queue := queue + [Timer(id, BodyOf(handler))];
      scheduled := scheduled + {id};
      assert queue == old(queue) + [timer];
    }

    /** Exactly the timer with this id leaves the queue; a fired or unknown id changes nothing. */
    method Clear(id: int)
      requires Valid()
      modifies `queue, `cleared
      ensures Valid()
      ensures forall n: nat :: n in Ids(queue) <==> n in old(Ids(queue)) && n != id
      ensures forall n: nat :: n in cleared <==> n in old(cleared) || (n == id && n in old(Ids(queue)))
      ensures queue == Without(old(queue), id)
    {
      hide Ids, Ordered;
      var idx := 0;
      IdsMember(queue, id);
      while idx < |queue| && queue[idx].id != id
        invariant 0 <= idx <= |queue|
        invariant forall k :: 0 <= k < idx ==> queue[k].id != id
      {
        idx := idx + 1;
      }
      ghost var ids := Ids(queue);
      WithoutFirst(queue, id, idx);
      if idx < |queue| {
        Clearing(fired, ids, cleared, scheduled, timerId, idx);
        IdsRemoved(queue, idx);
        RemovedExactly(fired, ids, cleared, scheduled, timerId, idx);
        queue := queue[..idx] + queue[idx + 1..];
        cleared := cleared + {ids[idx]};
      }
    }

    /** A callback's operations, one after the other. */
    method Run(ops: seq<Operation>)
      requires Valid()
      modifies this
      ensures Valid() && Later() && AsState() == Performed(ops, old(AsState()), old(draining))
      decreases if draining then 0 else 1, Weight(ops), 1
    {
      var i := 0;
      assert ops[0..] == ops;
      while i < |ops|
        invariant 0 <= i <= |ops| && Weight(ops[i..]) <= Weight(ops)
        invariant Valid() && Later()
        invariant Performed(ops[i..], AsState(), draining) == Performed(ops, old(AsState()), old(draining))
      {
        hide Ordered, Without, WasSet;
        WeightStep(ops, i);
        assert ops[i..][1..] == ops[i + 1..];
        match ops[i] {
          case SetTimeout(handler) => { var timer := Set(handler); }
          case ClearTimeout(id) => { Clear(id); }
          case RequestFrame(callback) => { var frame := Frame(callback); }
          case Drain => { DrainDeferred(); }
        }
        i := i + 1;
      }
    }

    /** A frame request uses up an id and calls back at once. */
    method Frame(callback: Handler) returns (id: nat)
      requires Valid()
      modifies this
      ensures Valid() && Later() && id == old(timerId) + 1
      ensures AsState() == Framed(callback, old(AsState()), old(draining))
      decreases if draining then 0 else 1, if callback.Callable? then Weight(callback.body) else 0, 2
    {
      Scheduling(fired, Ids(queue), cleared, scheduled, timerId);
      timerId := timerId + 1;
      id := timerId;
      if callback.Callable? { Run(callback.body); }
    }

    /** One drain fires at most SAFETY timers, in the order of their ids; a drain inside a drain does nothing. */
    method DrainDeferred()
      requires Valid()
      modifies this
      ensures Valid() && Later()
      ensures |fired| <= |old(fired)| + SAFETY
      ensures !draining && |fired| < |old(fired)| + SAFETY ==> queue == []
      ensures AsState() == if draining then old(AsState()) else Drained(old(AsState()), SAFETY)
      decreases if draining then 0 else 1, 0, 0
    {
      hide Ordered, Ids;
      if draining { return; }
      draining := true;
      var safety := 0;
      while |queue| > 0 && safety < SAFETY
        invariant Valid() && draining && 0 <= safety <= SAFETY
        invariant old(fired) <= fired && |fired| == |old(fired)| + safety
        invariant old(cleared) <= cleared && old(scheduled) <= scheduled && old(timerId) <= timerId
        invariant Drained(AsState(), SAFETY - safety) == Drained(old(AsState()), SAFETY)
        decreases SAFETY - safety
      {
        var timer := queue[0];
        Firing(fired, Ids(queue), cleared, scheduled, timerId);
        IdsRest(queue);
        queue := queue[1..];
        fired := fired + [timer.id];
        Run(timer.body);
        safety := safety + 1;
      }
      draining := false;
    }
  }

  lemma SettingKeeps(
    fired: seq<nat>, queue: seq<Timer>, cleared: set<nat>, scheduled: set<nat>, counter: nat, body: seq<Operation>)
    requires Ordered(fired, Ids(queue), cleared, scheduled, counter)
    ensures counter + 1 !in scheduled && Ordered(fired, Ids(queue), cleared, scheduled, counter + 1)
    ensures Ordered(fired, Ids(queue + [Timer(counter + 1, body)]), cleared, scheduled + {counter + 1}, counter + 1)
  {
    Scheduling(fired, Ids(queue), cleared, scheduled, counter);
    NotYet(fired, Ids(queue), cleared, scheduled, counter);
    hide Ordered, Ids;
    IdsAppend(queue, Timer(counter + 1, body));
  }

  lemma NotYet(fired: seq<nat>, pending: seq<nat>, cleared: set<nat>, scheduled: set<nat>, counter: nat)
    requires Ordered(fired, pending, cleared, scheduled, counter)
    ensures counter + 1 !in scheduled
  {
    var all := fired + pending;
    assert forall i :: 0 <= i < |fired| ==> fired[i] == all[i];
    assert forall i :: 0 <= i < |pending| ==> pending[i] == all[|fired| + i];
  }

  lemma RemovedExactly(fired: seq<nat>, ids: seq<nat>, cleared: set<nat>, scheduled: set<nat>, counter: nat, k: nat)
    requires Ordered(fired, ids, cleared, scheduled, counter) && k < |ids|
    ensures forall n :: n in ids[..k] + ids[k + 1..] <==> n in ids && n != ids[k]
  {
    var all := fired + ids;
    assert forall i :: 0 <= i < |ids| ==> ids[i] == all[|fired| + i];
    assert ids == ids[..k] + [ids[k]] + ids[k + 1..];
  }

  lemma WeightStep(ops: seq<Operation>, i: nat)
    requires i < |ops|
    ensures Weight(ops[i..]) >= 1 + Weight(ops[i + 1..])
    ensures ops[i].RequestFrame? && ops[i].callback.Callable? ==> Weight(ops[i..]) > Weight(ops[i].callback.body)
  {
    assert ops[i..][1..] == ops[i + 1..];
  }

  lemma {:induction false} WithoutFirst(queue: seq<Timer>, id: int, k: nat)
    requires k <= |queue| && forall j :: 0 <= j < k ==> queue[j].id != id
    requires k < |queue| ==> queue[k].id == id
    ensures Without(queue, id) == if k < |queue| then queue[..k] + queue[k + 1..] else queue
  {
    if queue == [] {
    } else if k == 0 {
      assert queue[..0] + queue[1..] == queue[1..];
    } else {
      WithoutFirst(queue[1..], id, k - 1);
      if k < |queue| { CutBehind(queue, k); }
    }
  }

  lemma CutBehind(queue: seq<Timer>, k: nat)
    requires 0 < k < |queue|
    ensures var rest := queue[1..]; [queue[0]] + (rest[..k - 1] + rest[k..]) == queue[..k] + queue[k + 1..]
  {
    var rest := queue[1..];
    assert rest[..k - 1] == queue[1..k] && rest[k..] == queue[k + 1..];
    assert queue[..k] == [queue[0]] + queue[1..k];
  }

  // ---------- Everything asked for is done ----------

  /** A callback's requests in order, with the callbacks of its frames in their places. */
  function Flat(ops: seq<Operation>): seq<Operation>
    decreases Weight(ops), 0
  {
    if ops == [] then [] else FlatOne(ops[0]) + Flat(ops[1..])
  }

  function FlatOne(op: Operation): seq<Operation>
    decreases OwnWeight(op), 1
  {
    match op
    case RequestFrame(Callable(body)) => [RequestFrame(Neither)] + Flat(body)
    case _ => [op]
  }

  lemma {:induction false} PerformedAppend(a: seq<Operation>, b: seq<Operation>, s: State, draining: bool)
    ensures Performed(a + b, s, draining) == Performed(b, Performed(a, s, draining), draining)
  {
    hide PerformedOne;
    if a == [] {
      assert a + b == b;
    } else {
      assert (a + b)[1..] == a[1..] + b;
      PerformedAppend(a[1..], b, PerformedOne(a[0], s, draining), draining);
    }
  }

  lemma PerformedSingle(op: Operation, s: State, draining: bool)
    ensures Performed([op], s, draining) == PerformedOne(op, s, draining)
  {
    hide PerformedOne;
    assert [op][1..] == [];
  }

  lemma FrameRuns(op: Operation, body: seq<Operation>, s: State, draining: bool)
    requires op == RequestFrame(Callable(body))
    ensures OwnWeight(op) == Weight(body)
    ensures PerformedOne(op, s, draining) == Performed(body, s.(timerId := s.timerId + 1), draining)
  {
    assert PerformedOne(op, s, draining) == Framed(Callable(body), s, draining);
    hide Performed;
  }

  /** A frame's callback runs where the frame is asked for. */
  lemma {:induction false} FramesInPlace(ops: seq<Operation>, s: State, draining: bool)
    ensures Performed(ops, s, draining) == Performed(Flat(ops), s, draining)
    decreases Weight(ops)
  {
    hide Drained, WasSet, Without;
    if ops != [] {
      var op, rest := ops[0], ops[1..];
      var after := PerformedOne(op, s, draining);
      FramesInPlace(rest, after, draining);
      if op.RequestFrame? && op.callback.Callable? {
        var body, t := op.callback.body, s.(timerId := s.timerId + 1);
        FrameRuns(op, body, s, draining);
        FramesInPlace(body, t, draining);
        PerformedSingle(RequestFrame(Neither), s, draining);
        PerformedAppend([RequestFrame(Neither)], Flat(body), s, draining);
        PerformedAppend([RequestFrame(Neither)] + Flat(body), Flat(rest), s, draining);
      } else {
        PerformedSingle(op, s, draining);
        PerformedAppend([op], Flat(rest), s, draining);
        assert Flat(ops) == [op] + Flat(rest);
      }
    }
  }

  /** The timers that a list of requests asks for, numbered from behind `counter`. */
  function Asked(requests: seq<Operation>, counter: nat): seq<Timer> {
    seq(|requests|, i requires 0 <= i < |requests| =>
      Timer(counter + 1 + i, match requests[i] { case SetTimeout(h) => BodyOf(h) case _ => [] }))
  }

  /**
   A callback that only sets timers and asks for frames leaves every timer it asked for at the end of the queue,
   in order, and has used up one id for each request.
   */
  lemma {:induction false} EveryRequest(requests: seq<Operation>, s: State, draining: bool)
    requires forall i :: 0 <= i < |requests| ==> requests[i].SetTimeout? && !requests[i].handler.Neither?
    ensures Performed(requests, s, draining) == State(s.queue + Asked(requests, s.timerId), s.timerId + |requests|, s.fired)
  {
    if requests != [] {
      var first, rest := requests[0], requests[1..];
      EveryRequest(rest, WasSet(s, first.handler), draining);
      assert Asked(requests, s.timerId) == [Timer(s.timerId + 1, first.handler.body)] + Asked(rest, s.timerId + 1);
      assert s.queue + ([Timer(s.timerId + 1, first.handler.body)] + Asked(rest, s.timerId + 1)) ==
             s.queue + [Timer(s.timerId + 1, first.handler.body)] + Asked(rest, s.timerId + 1);
    } else {
      assert Asked(requests, s.timerId) == [] && s.queue + [] == s.queue;
    }
  }

  /** Anything that is no function and no text uses up an id, and a cleared timer is the only one to leave the queue. */
  lemma OtherRequests(s: State, draining: bool, front: seq<Timer>, timer: Timer, back: seq<Timer>)
    requires s.queue == front + [timer] + back && forall i :: 0 <= i < |front| ==> front[i].id != timer.id
    ensures Performed([SetTimeout(Neither)], s, draining) == s.(timerId := s.timerId + 1)
    ensures Performed([RequestFrame(Neither)], s, draining) == s.(timerId := s.timerId + 1)
    ensures Performed([ClearTimeout(timer.id)], s, draining) == s.(queue := front + back)
    ensures forall id: int :: (forall i :: 0 <= i < |s.queue| ==> s.queue[i].id != id) ==> Performed([ClearTimeout(id)], s, draining) == s
  {
    hide Drained, Without;
    PerformedSingle(SetTimeout(Neither), s, draining);
    PerformedSingle(RequestFrame(Neither), s, draining);
    PerformedSingle(ClearTimeout(timer.id), s, draining);
    assert s.queue[|front|] == timer && s.queue[..|front|] == front && s.queue[|front| + 1..] == back;
    WithoutFirst(s.queue, timer.id, |front|);
    forall id: int | forall i :: 0 <= i < |s.queue| ==> s.queue[i].id != id ensures Performed([ClearTimeout(id)], s, draining) == s {
      PerformedSingle(ClearTimeout(id), s, draining);
      WithoutFirst(s.queue, id, |s.queue|);
    }
  }

  lemma {:induction false} OnlyFires(s: State, budget: nat)
    ensures var t := Drained(s, budget);
      && s.fired <= t.fired && |t.fired| <= |s.fired| + budget
      && (t.queue == [] || |t.fired| == |s.fired| + budget)
      && (s.queue != [] && budget > 0 ==> |t.fired| > |s.fired| && t.fired[|s.fired|] == s.queue[0].id)
    decreases budget
  {
    if s.queue != [] && budget > 0 {
      var timer := s.queue[0];
      var t := State(s.queue[1..], s.timerId, s.fired + [timer.id]);
      NoneFire(timer.body, t);
      OnlyFires(Performed(timer.body, t, true), budget - 1);
    }
  }

  /** While timers are being drained a callback fires none. */
  lemma {:induction false} NoneFire(ops: seq<Operation>, s: State)
    ensures Performed(ops, s, true).fired == s.fired
    decreases Weight(ops)
  {
    if ops != [] {
      if ops[0].RequestFrame? && ops[0].callback.Callable? {
        var body, t := ops[0].callback.body, s.(timerId := s.timerId + 1);
        FrameRuns(ops[0], body, s, true);
        NoneFire(body, t);
      }
      NoneFire(ops[1..], PerformedOne(ops[0], s, true));
      if !(ops[0].RequestFrame? && ops[0].callback.Callable?) { PlainFires(ops[0], s); }
    }
  }

  lemma PlainFires(op: Operation, s: State)
    requires !(op.RequestFrame? && op.callback.Callable?)
    ensures PerformedOne(op, s, true).fired == s.fired
  {
    if op.RequestFrame? { assert PerformedOne(op, s, true) == Framed(op.callback, s, true); }
  }

  /** A drain fires the first timer of the queue, and goes on until none is left or 5000 have fired. */
  lemma DrainFires(s: State)
    ensures var t := Performed([Drain], s, false);
      && s.fired <= t.fired && |t.fired| <= |s.fired| + 5000
      && (t.queue == [] || |t.fired| == |s.fired| + 5000)
      && (s.queue != [] ==> |t.fired| > |s.fired| && t.fired[|s.fired|] == s.queue[0].id)
    ensures Performed([Drain], s, true) == s
  {
    hide Drained;
    PerformedSingle(Drain, s, false);
    PerformedSingle(Drain, s, true);
    OnlyFires(s, 5000);
  }
}

/**
 What the steps of a run of src/client.cpp hand in, and what becomes of it: every message a transport takes is
 dispatched, every session is one attempt to connect, and no thread ends or goes on without a reason.
 */
module LifecycleLaws {
  import opened Wrappers
  import opened Dispatch
  import opened Lifecycle

  // ---------- Every message taken is dispatched ----------

  /** The messages a step hands to a transport: the backlog, a frame of the socket, or an answer to a poll. */
  function Took(s: State, step: Step, from: Transport): seq<Message> {
    match from
    case Backlog => if s.main == EmitConnect && step.MainStep? && step.input.Messages? then step.input.messages else []
    case Socket => if s.main == Driving(Receiving) && step.MainStep? && step.input.Messages? then step.input.messages else []
    case Poller => if s.poll == Fetching && step.PollStep? && step.input.Messages? then step.input.messages else []
  }

  function Taken(s: State, steps: seq<Step>, from: Transport): seq<Message> {
    if steps == [] then []
    else
      var front := steps[..|steps| - 1];
      Taken(s, front, from) + Took(Run(s, front), steps[|steps| - 1], from)
  }

  /** What a transport has taken and not yet dispatched. */
  function InHand(s: State, from: Transport): seq<Message> {
    match from
    case Backlog => if s.main.FirstBatch? then s.main.queue else []
    case Socket => if s.main.Driving? && s.main.ws.Frame? then s.main.ws.queue else []
    case Poller => if s.poll.Batch? then s.poll.queue else []
  }

  function ArrivedFrom(trace: seq<Event>, from: Transport): seq<Message> {
    if trace == [] then []
    else
      var e := trace[|trace| - 1];
      ArrivedFrom(trace[..|trace| - 1], from) + (if e.Arrival? && e.from == from then [e.message] else [])
  }

  lemma ArrivedFromSnoc(trace: seq<Event>, e: Event, from: Transport)
    ensures ArrivedFrom(trace + [e], from) == ArrivedFrom(trace, from) + (if e.Arrival? && e.from == from then [e.message] else [])
  {
    assert (trace + [e])[..|trace|] == trace;
  }

  /** What has arrived from a transport and what it has in hand. */
  function Held(s: State, from: Transport): seq<Message> { ArrivedFrom(s.log.trace, from) + InHand(s, from) }

  /** A dispatch moves the first message of a queue from hand to the trace. */
  lemma HeldDispatch(s: State, via: Transport, batch: nat, q: seq<Message>, from: Transport)
    requires q != []
    ensures var t := DispatchOne(s, via, batch, q[0]);
            && (from == via ==> ArrivedFrom(t.log.trace, from) + q[1..] == ArrivedFrom(s.log.trace, from) + q)
            && (from != via ==> ArrivedFrom(t.log.trace, from) == ArrivedFrom(s.log.trace, from))
  {
    hide Deliver, ArrivedFrom;
    DispatchFrame(s, via, batch, q[0]);
    ArrivedFromSnoc(s.log.trace, ArrivalOf(s, via, batch, q[0]), from);
    var a := ArrivedFrom(s.log.trace, from);
    assert a + [q[0]] + q[1..] == a + q;
    assert a + [] == a;
  }

  lemma HeldDriver(s: State, pc: WsPc, input: Input, from: Transport)
    requires s.main == Driving(pc)
    ensures Held(DriverStep(s, pc, input), from) == Held(s, from) + Took(s, MainStep(input), from)
  {
    hide DispatchOne, Backoff, ArrivedFrom;
    DriverFrame(s, pc, input);
    assert Held(s, from) + [] == Held(s, from);
    if pc.Frame? && pc.queue != [] {
      HeldDispatch(s, Socket, s.log.socketBatch, pc.queue, from);
      DispatchFrame(s, Socket, s.log.socketBatch, pc.queue[0]);
    } else if pc.Receiving? && input.Messages? {
      var a := ArrivedFrom(s.log.trace, from);
      assert a + [] + input.messages == a + input.messages;
    }
  }

  lemma HeldMain(s: State, input: Input, from: Transport)
    requires Shape(s.main, s.log.trace) && Threads(s) && !s.main.Driving?
    ensures Held(MainMove(s, input), from) == Held(s, from) + Took(s, MainStep(input), from)
  {
    hide DispatchOne, DriverStep, ArrivedFrom, Opened;
    var a := ArrivedFrom(s.log.trace, from);
    assert Held(s, from) + [] == Held(s, from);
    if s.main.FirstBatch? && s.main.queue != [] {
      HeldDispatch(s, Backlog, 0, s.main.queue, from);
      DispatchFrame(s, Backlog, 0, s.main.queue[0]);
    } else if s.main.EmitConnect? {
      ArrivedFromSnoc(s.log.trace, Connect, from);
      assert a + [] == a;
      if input.Messages? { assert a + [] + input.messages == a + input.messages; }
    } else if s.main.EmitDisconnect? {
      ArrivedFromSnoc(s.log.trace, Disconnect, from);
      assert a + [] == a;
    }
  }

  lemma HeldPoll(s: State, input: Input, from: Transport)
    ensures Held(PollMove(s, input), from) == Held(s, from) + Took(s, PollStep(input), from)
  {
    hide DispatchOne, ArrivedFrom;
    var a := ArrivedFrom(s.log.trace, from);
    assert Held(s, from) + [] == Held(s, from);
    if s.poll.Batch? && s.poll.queue != [] {
      HeldDispatch(s, Poller, s.log.pollBatch, s.poll.queue, from);
      DispatchFrame(s, Poller, s.log.pollBatch, s.poll.queue[0]);
    } else if s.poll.Fetching? && input.Messages? {
      assert a + [] + input.messages == a + input.messages;
    }
  }

  lemma HeldStep(s: State, step: Step, from: Transport)
    requires Shape(s.main, s.log.trace) && Threads(s)
    ensures Held(Move(s, step), from) == Held(s, from) + Took(s, step, from)
  {
    hide Shape, Threads, MainMove, PollMove, DriverStep, ArrivedFrom;
    match step {
      case MainStep(input) =>
        if s.main.Driving? {
          HeldDriver(s, s.main.ws, input, from);
          MainDrives(s, input);
        } else {
          HeldMain(s, input, from);
        }
      case PollStep(input) => HeldPoll(s, input, from);
      case _ => assert Held(s, from) + [] == Held(s, from);
    }
  }

  lemma MainDrives(s: State, input: Input)
    requires s.main.Driving?
    ensures MainMove(s, input) == DriverStep(s, s.main.ws, input)
  {
    hide DriverStep;
  }

  /**
   In every run and for each transport, what has arrived from it, followed by what it has in hand, is all it was
   handed, in order: the backlog, every frame of the socket and every answer to a poll, and nothing else.
   */
  lemma {:induction false} NothingLost(s: State, steps: seq<Step>, from: Transport)
    requires Init(s)
    ensures ArrivedFrom(Run(s, steps).log.trace, from) + InHand(Run(s, steps), from) == Taken(s, steps, from)
    decreases |steps|
  {
    hide Move, Took;
    if steps != [] {
      var front := steps[..|steps| - 1];
      NothingLost(s, front, from);
      RunInv(s, front);
      HeldStep(Run(s, front), steps[|steps| - 1], from);
    }
  }

  /** When the run has returned, everything handed to a transport has been dispatched. */
  lemma AllDispatched(s: State, steps: seq<Step>, from: Transport)
    requires Init(s) && Run(s, steps).main.Returned?
    ensures ArrivedFrom(Run(s, steps).log.trace, from) == Taken(s, steps, from)
  {
    hide Run, Taken, ArrivedFrom, Shape, SocketLate, PollerLate, BacklogLate, Deduplicated, DriverOk;
    NothingLost(s, steps, from);
    RunInv(s, steps);
    assert ArrivedFrom(Run(s, steps).log.trace, from) + [] == ArrivedFrom(Run(s, steps).log.trace, from);
  }

  // ---------- Which transports run ----------

  predicate AtEnd(main: MainPc) { main.Teardown? || main.EmitDisconnect? || main.Returned? }

  predicate Launched(main: MainPc) { main.Driving? || main.Driven? || main.Joining? || AtEnd(main) }

  predicate Roles(s: State) {
    && (!Launched(s.main) ==> s.poll == NotStarted && s.driver.verdict == None && s.driver.sessions == [])
    && (s.main.Driving? ==> s.driver.verdict == None && s.mode != PollOnly)
    && (s.main.Driven? ==> s.driver.verdict == Some(s.main.handled) && s.mode != PollOnly)
    && (s.main.Joining? || AtEnd(s.main) ==> (s.driver.verdict == None <==> s.mode == PollOnly))
    && (s.mode == Dual && Launched(s.main) ==> s.poll != NotStarted)
    && (s.mode == PollOnly && Launched(s.main) ==> s.poll != NotStarted && s.driver.sessions == [])
    && (s.mode == SocketOnly ==>
          && (s.main.Driving? || s.main.Driven? ==> s.poll == NotStarted)
          && (s.main.Joining? ==> s.driver.verdict == Some(false) && s.poll != NotStarted)
          && (AtEnd(s.main) ==> s.poll == if s.driver.verdict == Some(false) then Done else NotStarted))
    && (s.mode != SocketOnly && AtEnd(s.main) ==> s.poll == Done)
  }

  lemma RolesDriver(s: State, pc: WsPc, input: Input)
    requires s.main == Driving(pc) && Roles(s)
    ensures Roles(DriverStep(s, pc, input))
  {
    hide DispatchOne, Backoff;
    DriverFrame(s, pc, input);
    if pc.Frame? && pc.queue != [] { DispatchFrame(s, Socket, s.log.socketBatch, pc.queue[0]); }
  }

  lemma RolesStep(s: State, step: Step)
    requires Roles(s)
    ensures Roles(Move(s, step))
  {
    hide DispatchOne, DriverStep;
    if step.MainStep? && s.main.Driving? { RolesDriver(s, s.main.ws, step.input); }
    if step.MainStep? && s.main.FirstBatch? && s.main.queue != [] { DispatchFrame(s, Backlog, 0, s.main.queue[0]); }
    if step.PollStep? && s.poll.Batch? && s.poll.queue != [] { DispatchFrame(s, Poller, s.log.pollBatch, s.poll.queue[0]); }
  }

  lemma {:induction false} RolesRun(s: State, steps: seq<Step>)
    requires Init(s)
    ensures Roles(Run(s, steps))
    decreases |steps|
  {
    hide Move, Roles;
    if steps == [] {
      RolesInit(s);
    } else {
      RolesRun(s, steps[..|steps| - 1]);
      RolesStep(Run(s, steps[..|steps| - 1]), steps[|steps| - 1]);
    }
  }

  lemma RolesInit(s: State)
    requires Init(s)
    ensures Roles(s)
  {
  }

  /** The polling loop is entered at its head. */
  ghost predicate PollBegins(s: State, steps: seq<Step>) {
    exists k: nat :: k <= |steps| && Run(s, steps[..k]).poll == HeadRunning && (k == 0 || Run(s, steps[..k - 1]).poll == NotStarted)
  }

  lemma PollStarts(s: State, step: Step)
    ensures s.poll == NotStarted ==> Move(s, step).poll == NotStarted || Move(s, step).poll == HeadRunning
    ensures s.poll != NotStarted && !(s.main.Launch? || s.main.Driven?) ==> Move(s, step).poll != NotStarted
  {
    hide DispatchOne, DriverStep;
    if step.MainStep? && s.main.Driving? { DriverFrame(s, s.main.ws, step.input); }
    if step.MainStep? && s.main.FirstBatch? && s.main.queue != [] { DispatchFrame(s, Backlog, 0, s.main.queue[0]); }
    if step.PollStep? && s.poll.Batch? && s.poll.queue != [] { DispatchFrame(s, Poller, s.log.pollBatch, s.poll.queue[0]); }
  }

  lemma {:induction false} PollBegan(s: State, steps: seq<Step>)
    requires Init(s) && Run(s, steps).poll != NotStarted
    ensures PollBegins(s, steps)
    decreases |steps|
  {
    hide Move;
    if steps != [] {
      var front, last := steps[..|steps| - 1], steps[|steps| - 1];
      PollStarts(Run(s, front), last);
      assert steps[..|steps|] == steps;
      if Run(s, front).poll == NotStarted {
        assert Run(s, steps[..|steps|]).poll == HeadRunning;
      } else {
        PollBegan(s, front);
        var k: nat :| k <= |front| && Run(s, front[..k]).poll == HeadRunning && (k == 0 || Run(s, front[..k - 1]).poll == NotStarted);
        assert front[..k] == steps[..k];
        if k > 0 { assert front[..k - 1] == steps[..k - 1]; }
      }
    }
  }

  /**
   With the socket alone the run polls before it tears down exactly if the driver gave the socket up; with both, or
   with polling alone, it always does, and the polling loop is over by then.
   */
  lemma FallbackPolls(s: State, steps: seq<Step>)
    requires Init(s) && AtEnd(Run(s, steps).main)
    ensures var t := Run(s, steps);
            && (t.mode == SocketOnly ==> (PollBegins(s, steps) <==> t.driver.verdict == Some(false)))
            && (t.mode != SocketOnly ==> PollBegins(s, steps))
            && (PollBegins(s, steps) ==> t.poll == Done)
            && (t.driver.verdict == None <==> t.mode == PollOnly)
  {
    hide Run;
    RolesRun(s, steps);
    if Run(s, steps).poll != NotStarted { PollBegan(s, steps); }
    if Run(s, steps).poll == NotStarted { NeverBegan(s, steps); }
  }

  lemma {:induction false} NeverBegan(s: State, steps: seq<Step>)
    requires Init(s) && Run(s, steps).poll == NotStarted
    ensures forall k: nat :: k <= |steps| ==> Run(s, steps[..k]).poll == NotStarted
    decreases |steps|
  {
    hide Move, Roles;
    assert steps[..|steps|] == steps;
    if steps != [] {
      var front, last := steps[..|steps| - 1], steps[|steps| - 1];
      RolesRun(s, front);
      RolesStarted(Run(s, front), last);
      NeverBegan(s, front);
      forall k: nat | k <= |steps| ensures Run(s, steps[..k]).poll == NotStarted {
        if k <= |front| { assert front[..k] == steps[..k]; }
      }
    }
  }

  lemma RolesStarted(s: State, step: Step)
    requires Roles(s) && Move(s, step).poll == NotStarted
    ensures s.poll == NotStarted
  {
    PollStarts(s, step);
    hide DispatchOne, DriverStep;
  }

  // ---------- Every session is one attempt to connect ----------

  /** Whether each attempt to connect failed, in order. */
  function Attempts(s: State, steps: seq<Step>): seq<bool> {
    if steps == [] then []
    else
      var front, last := steps[..|steps| - 1], steps[|steps| - 1];
      Attempts(s, front) +
        (if Run(s, front).main == Driving(Connecting) && last.MainStep? then [last.input.Failure?] else [])
  }

  /** Whether each session was one that never connected. */
  function Fails(sessions: seq<WsResult>): seq<bool> {
    seq(|sessions|, i requires 0 <= i < |sessions| => sessions[i] == HandshakeFailed)
  }

  /** The sessions so far, and the one under way. */
  function Tried(s: State): seq<bool> {
    if !s.main.Driving? then Fails(s.driver.sessions)
    else
      match s.main.ws
      case SessionOver(r) => Fails(s.driver.sessions) + [r == HandshakeFailed]
      case pc => Fails(s.driver.sessions) + (if InSession(pc) then [false] else [])
  }

  lemma FailsSnoc(sessions: seq<WsResult>, r: WsResult)
    ensures Fails(sessions + [r]) == Fails(sessions) + [r == HandshakeFailed]
  {
  }

  lemma TriedSession(s: State, r: WsResult)
    requires s.main == Driving(SessionOver(r))
    ensures Tried(AfterSession(s, r)) == Tried(s)
  {
    hide Fails, TrailingFails;
    FailsSnoc(s.driver.sessions, r);
    var f := Fails(s.driver.sessions + [r]);
    assert f + [] == f;
  }

  lemma TriedDriver(s: State, pc: WsPc, input: Input)
    requires s.main == Driving(pc)
    ensures Tried(DriverStep(s, pc, input)) == Tried(s) + (if pc == Connecting then [input.Failure?] else [])
  {
    hide DispatchOne, Backoff, Fails, AfterSession;
    var f := Fails(s.driver.sessions);
    assert f + [] == f && Tried(s) + [] == Tried(s) && f + [] + [input.Failure?] == f + [input.Failure?];
    if pc.SessionOver? {
      TriedSession(s, pc.result);
    } else if pc.Frame? && pc.queue != [] {
      DispatchFrame(s, Socket, s.log.socketBatch, pc.queue[0]);
    }
  }

  lemma TriedStep(s: State, step: Step)
    ensures Tried(Move(s, step)) ==
            Tried(s) + (if s.main == Driving(Connecting) && step.MainStep? then [step.input.Failure?] else [])
  {
    hide DispatchOne, DriverStep, Fails;
    var f := Fails(s.driver.sessions);
    assert f + [] == f && Tried(s) + [] == Tried(s);
    if step.MainStep? && s.main.Driving? { TriedDriver(s, s.main.ws, step.input); }
    if step.MainStep? && s.main.FirstBatch? && s.main.queue != [] { DispatchFrame(s, Backlog, 0, s.main.queue[0]); }
    if step.PollStep? && s.poll.Batch? && s.poll.queue != [] { DispatchFrame(s, Poller, s.log.pollBatch, s.poll.queue[0]); }
  }

  lemma {:induction false} TriedRun(s: State, steps: seq<Step>)
    requires Init(s)
    ensures Tried(Run(s, steps)) == Attempts(s, steps)
    decreases |steps|
  {
    hide Move, Tried;
    if steps == [] {
      NothingTried(s);
    } else {
      TriedRun(s, steps[..|steps| - 1]);
      TriedStep(Run(s, steps[..|steps| - 1]), steps[|steps| - 1]);
    }
  }

  lemma NothingTried(s: State)
    requires Init(s)
    ensures Tried(s) == []
  {
  }

  /**
   When the driver has answered, its sessions are the attempts to connect, in order, a handshake failure where one
   failed; and it has given the socket up exactly if that is allowed and the only attempt ever failed, or the last six.
   */
  lemma GivesUpByAttempts(s: State, steps: seq<Step>)
    requires Init(s) && Run(s, steps).driver.verdict.Some?
    ensures var d, attempts := Run(s, steps).driver, Attempts(s, steps);
            && |d.sessions| == |attempts| && (forall i :: 0 <= i < |attempts| ==> (d.sessions[i] == HandshakeFailed <==> attempts[i]))
            && (!s.driver.wsBefore ==>
                  (!d.verdict.value <==> s.mode != Dual && (attempts == [true] || LastSix(attempts))))
  {
    hide Run, Attempts;
    TriedRun(s, steps);
    RolesRun(s, steps);
    var d, attempts := Run(s, steps).driver, Attempts(s, steps);
    assert attempts == Fails(d.sessions);
    if !s.driver.wsBefore {
      GivesUpExactly(s, steps);
      OneSession(d.sessions);
    }
  }

  lemma OneSession(sessions: seq<WsResult>)
    ensures sessions == [HandshakeFailed] <==> Fails(sessions) == [true]
  {
    if Fails(sessions) == [true] {
      assert Fails(sessions)[0] && |Fails(sessions)| == 1;
      assert sessions == [sessions[0]];
    }
  }

  predicate LastSix(attempts: seq<bool>) {
    |attempts| >= 6 && forall i :: |attempts| - 6 <= i < |attempts| ==> attempts[i]
  }

  // ---------- What the flags mean ----------

  predicate PastStart(main: MainPc) { !main.StoreRunning? }
  predicate PastStop(main: MainPc) { PastStart(main) && !main.StoreStop? }
  predicate PastStores(main: MainPc) { PastStop(main) && !main.StoreLive? }

  /** A stop was requested after the run had reset the flag. */
  predicate Asked(s: State, steps: seq<Step>) {
    steps != [] &&
    var front := steps[..|steps| - 1];
    Asked(s, front) || (steps[|steps| - 1] == StopRequested && PastStop(Run(s, front).main))
  }

  /** `running` was cleared from outside after the run had set it. */
  predicate Cleared(s: State, steps: seq<Step>) {
    steps != [] &&
    var front := steps[..|steps| - 1];
    Cleared(s, front) || (steps[|steps| - 1] == RunningCleared && PastStart(Run(s, front).main))
  }

  predicate IsEnd(e: Event) { e.Arrival? && e.emitted && e.message.liveEnd }

  /** A message that ends the LIVE has been emitted. */
  predicate EndSeen(trace: seq<Event>) { exists e :: e in trace && IsEnd(e) }

  predicate FlagsMean(s: State, asked: bool, cleared: bool) {
    && (PastStop(s.main) ==> (s.flags.stop <==> asked || (s.mode == Dual && (s.main.Joining? || AtEnd(s.main)))))
    && (PastStart(s.main) ==> (s.flags.running <==> !cleared && !s.main.EmitDisconnect? && !s.main.Returned?))
    && (PastStores(s.main) ==> (s.flags.live <==> EndSeen(s.log.trace)))
    && (asked ==> PastStop(s.main)) && (cleared ==> PastStart(s.main))
  }

  lemma EndSeenSnoc(trace: seq<Event>, e: Event)
    ensures EndSeen(trace + [e]) <==> EndSeen(trace) || IsEnd(e)
  {
    assert e in trace + [e];
    assert forall x :: x in trace + [e] <==> x in trace || x == e;
  }

  lemma FlagsDispatch(s: State, from: Transport, batch: nat, m: Message)
    ensures var t := DispatchOne(s, from, batch, m);
            && t.main == s.main && t.mode == s.mode && t.poll == s.poll && t.driver == s.driver
            && t.flags == s.flags.(live := t.flags.live)
            && ((s.flags.live <==> EndSeen(s.log.trace)) ==> (t.flags.live <==> EndSeen(t.log.trace)))
  {
    hide Deliver, EndSeen;
    DispatchFrame(s, from, batch, m);
    EndSeenSnoc(s.log.trace, ArrivalOf(s, from, batch, m));
  }

  lemma FlagsDriver(s: State, pc: WsPc, input: Input, asked: bool, cleared: bool)
    requires s.main == Driving(pc) && FlagsMean(s, asked, cleared)
    ensures FlagsMean(DriverStep(s, pc, input), asked, cleared)
  {
    hide DispatchOne, EndSeen, Backoff;
    DriverFrame(s, pc, input);
    if pc.Frame? && pc.queue != [] {
      DriverDispatches(s, pc, input);
      FlagsDispatch(s, Socket, s.log.socketBatch, pc.queue[0]);
    }
  }

  lemma FlagsMain(s: State, input: Input, asked: bool, cleared: bool)
    requires FlagsMean(s, asked, cleared) && Shape(s.main, s.log.trace) && !s.main.Driving?
    ensures FlagsMean(MainMove(s, input), asked, cleared)
  {
    hide DispatchOne, EndSeen, Opened;
    NothingSeen();
    if s.main.FirstBatch? && s.main.queue != [] {
      FlagsDispatch(s, Backlog, 0, s.main.queue[0]);
    } else if s.main.EmitConnect? {
      EndSeenSnoc(s.log.trace, Connect);
    } else if s.main.EmitDisconnect? {
      EndSeenSnoc(s.log.trace, Disconnect);
    }
  }

  lemma NothingSeen()
    ensures !EndSeen([])
  {
  }

  lemma FlagsStep(s: State, step: Step, asked: bool, cleared: bool)
    requires FlagsMean(s, asked, cleared) && Shape(s.main, s.log.trace)
    ensures FlagsMean(Move(s, step), asked || (step == StopRequested && PastStop(s.main)),
                      cleared || (step == RunningCleared && PastStart(s.main)))
  {
    hide DispatchOne, MainMove, DriverStep, EndSeen, Shape;
    match step {
      case MainStep(input) =>
        if s.main.Driving? {
          MainDrives(s, input);
          FlagsDriver(s, s.main.ws, input, asked, cleared);
        } else {
          FlagsMain(s, input, asked, cleared);
        }
      case PollStep(input) =>
        if s.poll.Batch? && s.poll.queue != [] { FlagsDispatch(s, Poller, s.log.pollBatch, s.poll.queue[0]); }
      case _ =>
    }
  }

  /**
   In every run, whatever the interleaving: stop_requested is set exactly if a stop was requested after the run began,
   or the driver is done in dual mode; live_ended exactly if a message that ends the LIVE was emitted; and `running`
   is cleared only from outside and by the teardown.
   */
  lemma {:induction false} FlagsMeaning(s: State, steps: seq<Step>)
    requires Init(s)
    ensures FlagsMean(Run(s, steps), Asked(s, steps), Cleared(s, steps))
    decreases |steps|
  {
    hide Move, FlagsMean, Shape;
    if steps == [] {
      FlagsInit(s);
    } else {
      var front := steps[..|steps| - 1];
      FlagsMeaning(s, front);
      RunInv(s, front);
      FlagsStep(Run(s, front), steps[|steps| - 1], Asked(s, front), Cleared(s, front));
    }
  }

  lemma FlagsInit(s: State)
    requires Init(s)
    ensures FlagsMean(s, false, false)
  {
  }

  // ---------- No thread ends without a reason ----------

  predicate Reasoned(s: State) {
    && (s.driver.verdict == Some(true) ==> Ending(s.flags))
    && (s.poll == Done ==> Ending(s.flags))
    && (s.poll.Batch? && s.poll.ended ==> s.flags.live)
    && (s.main.Driving? ==>
          match s.main.ws
          case Frame(_, ended) => ended ==> s.flags.live
          case CloseStop(saw) => saw ==> s.flags.live
          case CloseLive(saw) => saw ==> s.flags.live
          case SessionOver(r) => (r == Stopped ==> s.flags.stop) && (r == LiveEnded ==> s.flags.live)
          case _ => true)
  }

  lemma ReasonedDriver(s: State, pc: WsPc, input: Input)
    requires s.main == Driving(pc) && Reasoned(s) && Roles(s)
    ensures Reasoned(DriverStep(s, pc, input))
  {
    hide DispatchOne, Backoff;
    DriverFrame(s, pc, input);
    if pc.Frame? && pc.queue != [] { DispatchFrame(s, Socket, s.log.socketBatch, pc.queue[0]); }
  }

  lemma ReasonedPoll(s: State, input: Input)
    requires Reasoned(s) && Roles(s)
    ensures Reasoned(PollMove(s, input))
  {
    hide DispatchOne;
    if s.poll.Batch? && s.poll.queue != [] { DispatchFrame(s, Poller, s.log.pollBatch, s.poll.queue[0]); }
  }

  lemma ReasonedMain(s: State, input: Input)
    requires Reasoned(s) && Roles(s) && !s.main.Driving?
    ensures Reasoned(MainMove(s, input))
  {
    hide DispatchOne;
    if s.main.FirstBatch? && s.main.queue != [] { DispatchFrame(s, Backlog, 0, s.main.queue[0]); }
  }

  lemma ReasonedStep(s: State, step: Step)
    requires Reasoned(s) && Roles(s)
    ensures Reasoned(Move(s, step))
  {
    hide MainMove, PollMove, DriverStep, Roles;
    match step {
      case MainStep(input) =>
        if s.main.Driving? {
          MainDrives(s, input);
          ReasonedDriver(s, s.main.ws, input);
        } else {
          ReasonedMain(s, input);
        }
      case PollStep(input) => ReasonedPoll(s, input);
      case _ =>
    }
  }

  /** The driver answers true, and the polling loop is over, only once the flags ask for the end. */
  lemma {:induction false} EndsForReason(s: State, steps: seq<Step>)
    requires Init(s)
    ensures Reasoned(Run(s, steps))
    decreases |steps|
  {
    hide Move, Reasoned, Roles;
    if steps == [] {
      ReasonedInit(s);
    } else {
      EndsForReason(s, steps[..|steps| - 1]);
      RolesRun(s, steps[..|steps| - 1]);
      ReasonedStep(Run(s, steps[..|steps| - 1]), steps[|steps| - 1]);
    }
  }

  lemma ReasonedInit(s: State)
    requires Init(s)
    ensures Reasoned(s)
  {
  }

  // ---------- Once the flags ask for the end ----------

  predicate Quitting(s: State) { Ending(s.flags) && PastStores(s.main) }

  /** The step hands the transport a batch or a frame, if only an empty one. */
  predicate Takes(s: State, step: Step, from: Transport) {
    match from
    case Backlog => false
    case Socket => s.main == Driving(Receiving) && step.MainStep? && step.input.Messages?
    case Poller => s.poll == Fetching && step.PollStep? && step.input.Messages?
  }

  /** The transport reads the flags before it could take anything more. */
  predicate Through(s: State, from: Transport) {
    match from
    case Backlog => true
    case Socket => SocketWillStop(s.main, s.flags)
    case Poller => PollerWillStop(s.poll, s.flags) && !(s.main.Launch? || s.main.FirstBatch? || s.main.EmitConnect? || s.main.Setup?)
  }

  lemma QuittingDriver(s: State, pc: WsPc, input: Input, from: Transport)
    requires s.main == Driving(pc) && Quitting(s)
    ensures var t := DriverStep(s, pc, input);
            && Quitting(t) && t.poll == s.poll && t.flags == s.flags.(live := t.flags.live) && (s.flags.live ==> t.flags.live)
            && (from == Socket && Through(s, from) ==> Through(t, from) && pc != Receiving)
            && (from == Socket && pc == Receiving && input.Messages? ==> Through(t, from))
            && (from == Poller && Through(s, from) ==> Through(t, from))
  {
    hide DispatchOne, Backoff;
    DriverFrame(s, pc, input);
    if pc.Frame? && pc.queue != [] { DispatchFrame(s, Socket, s.log.socketBatch, pc.queue[0]); }
  }

  lemma QuittingPoll(s: State, input: Input, from: Transport)
    requires Quitting(s) && Roles(s)
    ensures var t := PollMove(s, input);
            && Quitting(t) && (Through(s, from) ==> Through(t, from) && !Takes(s, PollStep(input), from))
            && (Takes(s, PollStep(input), from) ==> Through(t, from))
  {
    hide DispatchOne;
    if s.poll.Batch? && s.poll.queue != [] { DispatchFrame(s, Poller, s.log.pollBatch, s.poll.queue[0]); }
  }

  lemma QuittingMain(s: State, input: Input, from: Transport)
    requires Quitting(s) && Roles(s) && !s.main.Driving?
    ensures var t := MainMove(s, input);
            Quitting(t) && !Takes(s, MainStep(input), from) && (Through(s, from) ==> Through(t, from))
  {
    hide DispatchOne;
    if s.main.FirstBatch? && s.main.queue != [] { DispatchFrame(s, Backlog, 0, s.main.queue[0]); }
  }

  lemma QuittingStep(s: State, step: Step, from: Transport)
    requires Quitting(s) && Roles(s)
    ensures Quitting(Move(s, step))
    ensures Through(s, from) ==> Through(Move(s, step), from) && !Takes(s, step, from)
    ensures Takes(s, step, from) ==> Through(Move(s, step), from)
  {
    hide MainMove, PollMove, DriverStep;
    match step {
      case MainStep(input) =>
        if s.main.Driving? {
          MainDrives(s, input);
          QuittingDriver(s, s.main.ws, input, from);
        } else {
          QuittingMain(s, input, from);
        }
      case PollStep(input) => QuittingPoll(s, input, from);
      case _ =>
    }
  }

  lemma RunSplit(s: State, steps: seq<Step>, k: nat)
    requires k < |steps|
    ensures Run(s, steps[..k + 1]) == Move(Run(s, steps[..k]), steps[k])
  {
    hide Move;
    assert steps[..k + 1][..k] == steps[..k];
  }

  lemma {:induction false} QuittingStays(s: State, steps: seq<Step>, j: nat, k: nat, from: Transport)
    requires Init(s) && j <= k <= |steps| && Quitting(Run(s, steps[..j]))
    ensures Quitting(Run(s, steps[..k])) && (Through(Run(s, steps[..j]), from) ==> Through(Run(s, steps[..k]), from))
    decreases k - j
  {
    hide Move, Quitting, Through, Roles, Takes, Run;
    if j < k {
      RolesRun(s, steps[..j]);
      RunSplit(s, steps, j);
      QuittingStep(Run(s, steps[..j]), steps[j], from);
      QuittingStays(s, steps, j + 1, k, from);
    }
  }

  /**
   From the moment a flag asks for the end, whoever set it, a transport is handed at most one more batch or frame.
   */
  lemma OneMoreTaken(s: State, steps: seq<Step>, at: nat, i: nat, k: nat, from: Transport)
    requires Init(s) && at <= i < k < |steps| && Quitting(Run(s, steps[..at]))
    ensures !Takes(Run(s, steps[..i]), steps[i], from) || !Takes(Run(s, steps[..k]), steps[k], from)
  {
    hide Move, Quitting, Through, Roles, Takes, Run;
    QuittingStays(s, steps, at, i, from);
    RolesRun(s, steps[..i]);
    RolesRun(s, steps[..k]);
    RunSplit(s, steps, i);
    QuittingStep(Run(s, steps[..i]), steps[i], from);
    QuittingStays(s, steps, i + 1, k, from);
    QuittingStep(Run(s, steps[..k]), steps[k], from);
  }

  /** How many sessions the driver can still add once a flag asks for the end. */
  function SessionsLeft(main: MainPc, f: Flags): nat {
    if !main.Driving? then 0
    else if main.ws == OuterStop then if f.stop || f.live then 0 else 1
    else if main.ws == OuterLive then if f.live then 0 else 1
    else if main.ws == Connecting || InSession(main.ws) || main.ws.SessionOver? then 1
    else 0
  }

  /** And how many waits before a reconnect. */
  function WaitsLeft(main: MainPc, f: Flags): nat {
    if !main.Driving? then 0
    else if main.ws == AfterStop then if f.stop || f.live then 0 else 1
    else if main.ws == AfterLive then if f.live then 0 else 1
    else if main.ws == BackingOff then 1
    else 0
  }

  function Sessions(s: State): nat { |s.driver.sessions| + SessionsLeft(s.main, s.flags) }
  function Waits(s: State): nat { |s.driver.backoffs| + WaitsLeft(s.main, s.flags) }

  lemma SessionsOver(s: State, r: WsResult)
    requires s.main == Driving(SessionOver(r))
    ensures Sessions(AfterSession(s, r)) <= Sessions(s)
  {
    hide TrailingFails;
  }

  lemma SessionsDriver(s: State, pc: WsPc, input: Input)
    requires s.main == Driving(pc) && Quitting(s)
    ensures Sessions(DriverStep(s, pc, input)) <= Sessions(s)
  {
    hide DispatchOne, Backoff, AfterSession;
    if pc.SessionOver? {
      SessionsOver(s, pc.result);
    } else {
      hide DriverStep;
      SessionsBefore(s, pc, input);
    }
  }

  lemma SessionsBefore(s: State, pc: WsPc, input: Input)
    requires s.main == Driving(pc) && Quitting(s) && !pc.SessionOver?
    ensures Sessions(DriverStep(s, pc, input)) <= Sessions(s)
  {
    hide DispatchOne, Backoff, AfterSession;
    if pc.Frame? && pc.queue != [] { DispatchFrame(s, Socket, s.log.socketBatch, pc.queue[0]); }
  }

  lemma BackoffsDriver(s: State, pc: WsPc, input: Input)
    requires s.main == Driving(pc) && Quitting(s)
    ensures Waits(DriverStep(s, pc, input)) <= Waits(s)
  {
    hide DispatchOne, Backoff, TrailingFails;
    DriverFrame(s, pc, input);
    if pc.Frame? && pc.queue != [] { DispatchFrame(s, Socket, s.log.socketBatch, pc.queue[0]); }
  }

  lemma LeftStep(s: State, step: Step)
    requires Quitting(s)
    ensures Sessions(Move(s, step)) <= Sessions(s) && Waits(Move(s, step)) <= Waits(s)
  {
    hide DispatchOne, DriverStep;
    hide Deliver;
    if step.MainStep? && s.main.Driving? {
      SessionsDriver(s, s.main.ws, step.input);
      BackoffsDriver(s, s.main.ws, step.input);
    }
    if step.MainStep? && s.main.FirstBatch? && s.main.queue != [] { DispatchFrame(s, Backlog, 0, s.main.queue[0]); }
    if step.PollStep? && s.poll.Batch? && s.poll.queue != [] { DispatchFrame(s, Poller, s.log.pollBatch, s.poll.queue[0]); }
  }

  lemma {:induction false} LeftRun(s: State, steps: seq<Step>, at: nat, k: nat)
    requires Init(s) && at <= k <= |steps| && Quitting(Run(s, steps[..at]))
    ensures Sessions(Run(s, steps[..k])) <= Sessions(Run(s, steps[..at])) && Waits(Run(s, steps[..k])) <= Waits(Run(s, steps[..at]))
    decreases k - at
  {
    hide Move, Quitting, Run, Roles, Sessions, Waits;
    if at < k {
      RolesRun(s, steps[..at]);
      RunSplit(s, steps, at);
      LeftStep(Run(s, steps[..at]), steps[at]);
      QuittingStep(Run(s, steps[..at]), steps[at], Backlog);
      LeftRun(s, steps, at + 1, k);
    }
  }

  /** From then on the driver makes at most one more session, and waits at most once more. */
  lemma OneMoreSession(s: State, steps: seq<Step>, at: nat)
    requires Init(s) && at <= |steps| && Quitting(Run(s, steps[..at]))
    ensures var d, e := Run(s, steps[..at]).driver, Run(s, steps).driver;
            |e.sessions| <= |d.sessions| + 1 && |e.backoffs| <= |d.backoffs| + 1
  {
    hide Run, Quitting;
    assert steps[..|steps|] == steps;
    LeftRun(s, steps, at, |steps|);
  }

  // ---------- How long the driver waits ----------

  lemma WaitsDriver(s: State, pc: WsPc, input: Input)
    requires s.main == Driving(pc)
    ensures DriverStep(s, pc, input).driver.backoffs ==
            if pc == BackingOff then s.driver.backoffs + [Backoff(s.driver.fails)] else s.driver.backoffs
  {
    hide DispatchOne, Backoff;
    if pc.Frame? && pc.queue != [] { DispatchFrame(s, Socket, s.log.socketBatch, pc.queue[0]); }
  }

  lemma WaitsStep(s: State, step: Step)
    ensures Move(s, step).driver.backoffs ==
            if s.main == Driving(BackingOff) && step.MainStep? then s.driver.backoffs + [Backoff(s.driver.fails)]
            else s.driver.backoffs
  {
    hide DispatchOne, DriverStep, Backoff;
    if step.MainStep? && s.main.Driving? { WaitsDriver(s, s.main.ws, step.input); }
    if step.MainStep? && s.main.FirstBatch? && s.main.queue != [] { DispatchFrame(s, Backlog, 0, s.main.queue[0]); }
    if step.PollStep? && s.poll.Batch? && s.poll.queue != [] { DispatchFrame(s, Poller, s.log.pollBatch, s.poll.queue[0]); }
  }

  /** How many attempts at the end of the history failed. */
  function FailedLast(attempts: seq<bool>): nat {
    if attempts == [] || !attempts[|attempts| - 1] then 0 else FailedLast(attempts[..|attempts| - 1]) + 1
  }

  lemma {:induction false} FailedSessions(sessions: seq<WsResult>)
    ensures FailedLast(Fails(sessions)) == TrailingFails(sessions)
  {
    if sessions != [] {
      var front := sessions[..|sessions| - 1];
      assert Fails(sessions)[..|front|] == Fails(front);
      FailedSessions(front);
    }
  }

  /**
   The driver waits only before a reconnect: 300 ms, or, with the socket alone, 500 ms for each attempt that has failed
   since the last that did not.
   */
  lemma WaitsExactly(s: State, steps: seq<Step>, k: nat)
    requires Init(s) && k < |steps|
    ensures var t, failed := Run(s, steps[..k]), FailedLast(Attempts(s, steps[..k]));
            Run(s, steps[..k + 1]).driver.backoffs ==
            if t.main == Driving(BackingOff) && steps[k].MainStep? then
              t.driver.backoffs + [if s.mode == Dual || failed == 0 then 300 else 500 * failed]
            else t.driver.backoffs
  {
    hide Run, Move, Attempts, Threads, Shape, SocketLate, PollerLate, BacklogLate, Deduplicated;
    var t := Run(s, steps[..k]);
    RunSplit(s, steps, k);
    RunInv(s, steps[..k]);
    WaitsStep(t, steps[k]);
    if t.main == Driving(BackingOff) {
      TriedRun(s, steps[..k]);
      assert Tried(t) == Fails(t.driver.sessions) by { assert Fails(t.driver.sessions) + [] == Fails(t.driver.sessions); }
      FailedSessions(t.driver.sessions);
      FewFails(t.driver);
    }
  }

  lemma FewFails(d: Driver)
    ensures !GivenUp(d.wsBefore, d.sessions) ==> TrailingFails(d.sessions) < 6
    ensures d.fails < 6 ==> Backoff(d.fails) == if d.fails == 0 then 300 else 500 * d.fails
  {
  }
}

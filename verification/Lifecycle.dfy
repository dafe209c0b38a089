/**
 The run lifecycle of src/client.cpp as a transition system: `run`, `run_websocket`,
 `run_websocket_with_reconnect` and `poll_loop`, with the polling thread, the thread
 of the socket and calls of `disconnect` interleaved at every read and write of the
 shared flags.  A run is any sequence of steps; a step names who moves and, where the
 outcome comes from the network, what arrives.
 */
module Lifecycle {
  import opened Wrappers
  import opened Dispatch

  const MAX_HANDSHAKE_FAILS: nat := 6

  /** The options use_websocket and use_polling. */
  datatype Mode = Dual | SocketOnly | PollOnly

  datatype WsResult = HandshakeFailed | LiveEnded | Stopped | Dropped

  datatype Transport = Backlog | Socket | Poller

  /**
   What the run does that can be observed.  An arrival is one call of dispatch_message:
   which transport and which of its batches it belongs to, whether the flags already
   asked for the end, and whether the message was emitted.
   */
  datatype Event =
    | Connect
    | Arrival(from: Transport, batch: nat, message: Message, late: bool, emitted: bool)
    | Disconnect

  datatype WsPc =
    | OuterRunning | OuterStop | OuterLive
    | Connecting
    | LoopRunning | LoopStop | LoopLive | LoopConnected
    | Receiving
    | Frame(queue: seq<Message>, ended: bool)
    | CloseStop(sawEnd: bool) | CloseLive(sawEnd: bool)
    | SessionOver(result: WsResult)
    | AfterRunning | AfterStop | AfterLive
    | BackingOff
    | SleptRunning | SleptStop
    | Refetching

  datatype MainPc =
    | StoreRunning | StoreStop | StoreLive
    | Setup | EmitConnect | FirstBatch(queue: seq<Message>) | Launch
    | Driving(ws: WsPc) | Driven(handled: bool)
    | Joining | Teardown | EmitDisconnect
    | Returned | Threw

  datatype PollPc =
    | NotStarted
    | HeadRunning | HeadStop | HeadLive
    | Waiting
    | WokeRunning | WokeStop | WokeLive
    | Fetching
    | Batch(queue: seq<Message>, ended: bool)
    | Done

  datatype Flags = Flags(running: bool, stop: bool, live: bool)

  /** A stop was requested, the LIVE has ended, or `running` was cleared. */
  predicate Ending(f: Flags) { f.stop || f.live || !f.running }

  /** What the reconnect driver keeps: ws_ever_connected (and its value when the run starts), and the history. */
  datatype Driver = Driver(
    wsBefore: bool, wsEver: bool, fails: nat,
    sessions: seq<WsResult>, backoffs: seq<nat>, verdict: Option<bool>)

  /** The observable run, what the dispatcher has emitted, and the number of each transport's current batch. */
  datatype Log = Log(trace: seq<Event>, delivered: seq<Message>, socketBatch: nat, pollBatch: nat)

  datatype State = State(mode: Mode, main: MainPc, poll: PollPc, flags: Flags, driver: Driver, log: Log)

  /** What the network answers where a step needs an answer. */
  datatype Input = Nothing | Failure | Messages(messages: seq<Message>) | Closed

  datatype Step = MainStep(input: Input) | PollStep(input: Input) | StopRequested | RunningCleared

  predicate Init(s: State) {
    && s.main == StoreRunning && s.poll == NotStarted
    && s.driver == Driver(s.driver.wsBefore, s.driver.wsBefore, 0, [], [], None)
    && s.log == Log([], [], 0, 0)
  }

  // ---------- The steps ----------

  /** dispatch_message, one atomic step under its mutex. */
  function DispatchOne(s: State, from: Transport, batch: nat, m: Message): State {
    var delivered := Deliver(s.log.delivered, m, MAX_SEEN_IDS);
    var emitted := delivered != s.log.delivered;
    var event := Arrival(from, batch, m, Ending(s.flags), emitted);
    s.(log := s.log.(delivered := delivered, trace := s.log.trace + [event]),
       flags := s.flags.(live := s.flags.live || (emitted && m.liveEnd)))
  }

  function EndsLive(s: State, m: Message): bool {
    Deliver(s.log.delivered, m, MAX_SEEN_IDS) != s.log.delivered && m.liveEnd
  }

  function At(s: State, pc: WsPc): State { s.(main := Driving(pc)) }

  function Verdict(s: State, handled: bool): State {
    s.(main := Driven(handled), driver := s.driver.(verdict := Some(handled)))
  }

  function AllowFallback(s: State): bool { s.mode != Dual }

  /** The switch over the outcome of one session. */
  function AfterSession(s: State, r: WsResult): State {
    var d := s.driver.(sessions := s.driver.sessions + [r]);
    match r
    case LiveEnded => Verdict(s.(driver := d), true)
    case Stopped => Verdict(s.(driver := d), true)
    case HandshakeFailed =>
      if !AllowFallback(s) then At(s.(driver := d), AfterRunning)
      else if !d.wsEver then Verdict(s.(driver := d), false)
      else
        var u := s.(driver := d.(fails := d.fails + 1));
        if u.driver.fails >= MAX_HANDSHAKE_FAILS then Verdict(u, false) else At(u, AfterRunning)
    case Dropped => At(s.(driver := d.(fails := 0)), AfterRunning)
  }

  function Backoff(fails: nat): nat {
    if fails > 0 then if 500 * fails < 5000 then 500 * fails else 5000 else 300
  }

  /** One step of run_websocket_with_reconnect or of the session it runs. */
  function DriverStep(s: State, pc: WsPc, input: Input): State {
    match pc
    case OuterRunning => if s.flags.running then At(s, OuterStop) else Verdict(s, true)
    case OuterStop => if !s.flags.stop then At(s, OuterLive) else Verdict(s, true)
    case OuterLive => if !s.flags.live then At(s, Connecting) else Verdict(s, true)
    case Connecting =>
      if input.Failure? then At(s, SessionOver(HandshakeFailed))
      else At(s.(driver := s.driver.(wsEver := true)), LoopRunning)
    case LoopRunning => At(s, if s.flags.running then LoopStop else CloseStop(false))
    case LoopStop => At(s, if !s.flags.stop then LoopLive else CloseStop(false))
    case LoopLive => At(s, if !s.flags.live then LoopConnected else CloseStop(false))
    case LoopConnected => At(s, if input.Closed? then CloseStop(false) else Receiving)
    case Receiving =>
      (match input
       case Messages(ms) => At(s.(log := s.log.(socketBatch := s.log.socketBatch + 1)), Frame(ms, false))
       case Nothing => At(s, LoopRunning)
       case _ => At(s, CloseStop(false)))
    case Frame(q, ended) =>
      if q == [] then At(s, if ended then CloseStop(true) else LoopRunning)
      else At(DispatchOne(s, Socket, s.log.socketBatch, q[0]), Frame(q[1..], ended || EndsLive(s, q[0])))
    case CloseStop(saw) => At(s, if s.flags.stop then SessionOver(Stopped) else CloseLive(saw))
    case CloseLive(saw) => At(s, SessionOver(if saw || s.flags.live then LiveEnded else Dropped))
    case SessionOver(r) => AfterSession(s, r)
    case AfterRunning => if s.flags.running then At(s, AfterStop) else Verdict(s, true)
    case AfterStop => if !s.flags.stop then At(s, AfterLive) else Verdict(s, true)
    case AfterLive => if !s.flags.live then At(s, BackingOff) else Verdict(s, true)
    case BackingOff =>
      At(s.(driver := s.driver.(backoffs := s.driver.backoffs + [Backoff(s.driver.fails)])), SleptRunning)
    case SleptRunning => if s.flags.running then At(s, SleptStop) else Verdict(s, true)
    case SleptStop => if !s.flags.stop then At(s, Refetching) else Verdict(s, true)
    case Refetching => At(s, OuterRunning)
  }

  /** One step of run on the calling thread. */
  function MainMove(s: State, input: Input): State {
    match s.main
    case StoreRunning => s.(flags := s.flags.(running := true), main := StoreStop)
    case StoreStop => s.(flags := s.flags.(stop := false), main := StoreLive)
    case StoreLive => s.(flags := s.flags.(live := false), main := Setup)
    case Setup => s.(main := if input.Failure? then Threw else EmitConnect)
    case EmitConnect =>
      s.(log := s.log.(trace := s.log.trace + [Connect]),
         main := if input.Messages? then FirstBatch(input.messages) else Launch)
    case FirstBatch(q) =>
      if q == [] then s.(main := Launch)
      else DispatchOne(s, Backlog, 0, q[0]).(main := FirstBatch(q[1..]))
    case Launch =>
      (match s.mode
       case Dual => s.(poll := HeadRunning, main := Driving(OuterRunning))
       case SocketOnly => s.(main := Driving(OuterRunning))
       case PollOnly => s.(poll := HeadRunning, main := Joining))
    case Driving(pc) => DriverStep(s, pc, input)
    case Driven(handled) =>
      if s.mode == Dual then s.(flags := s.flags.(stop := true), main := Joining)
      else if handled then s.(main := Teardown)
      else s.(poll := HeadRunning, main := Joining)
    case Joining => if s.poll == Done then s.(main := Teardown) else s
    case Teardown => s.(flags := s.flags.(running := false), main := EmitDisconnect)
    case EmitDisconnect => s.(log := s.log.(trace := s.log.trace + [Disconnect]), main := Returned)
    case Returned => s
    case Threw => s
  }

  /** One step of poll_loop, on its own thread or on the caller's. */
  function PollMove(s: State, input: Input): State {
    match s.poll
    case NotStarted => s
    case HeadRunning => s.(poll := if s.flags.running then HeadStop else Done)
    case HeadStop => s.(poll := if !s.flags.stop then HeadLive else Done)
    case HeadLive => s.(poll := if !s.flags.live then Waiting else Done)
    case Waiting => s.(poll := WokeRunning)
    case WokeRunning => s.(poll := if s.flags.running then WokeStop else Done)
    case WokeStop => s.(poll := if !s.flags.stop then WokeLive else Done)
    case WokeLive => s.(poll := if !s.flags.live then Fetching else Done)
    case Fetching =>
      if input.Messages? then
        s.(log := s.log.(pollBatch := s.log.pollBatch + 1), poll := Batch(input.messages, false))
      else s.(poll := HeadRunning)
    case Batch(q, ended) =>
      if q == [] then s.(poll := if ended then Done else HeadRunning)
      else DispatchOne(s, Poller, s.log.pollBatch, q[0]).(poll := Batch(q[1..], ended || EndsLive(s, q[0])))
    case Done => s
  }

  function Move(s: State, step: Step): State {
    match step
    case MainStep(input) => MainMove(s, input)
    case PollStep(input) => PollMove(s, input)
    case StopRequested => s.(flags := s.flags.(stop := true))
    case RunningCleared => s.(flags := s.flags.(running := false))
  }

  function Run(s: State, steps: seq<Step>): State {
    if steps == [] then s else Move(Run(s, steps[..|steps| - 1]), steps[|steps| - 1])
  }

  // ---------- The shape of single steps ----------

  lemma DispatchFrame(s: State, from: Transport, batch: nat, m: Message)
    ensures var t := DispatchOne(s, from, batch, m);
      && t.mode == s.mode && t.main == s.main && t.poll == s.poll && t.driver == s.driver
      && t.flags == s.flags.(live := s.flags.live || EndsLive(s, m))
      && t.log == s.log.(delivered := t.log.delivered, trace := s.log.trace + [ArrivalOf(s, from, batch, m)])
  {
  }

  function ArrivalOf(s: State, from: Transport, batch: nat, m: Message): Event {
    Arrival(from, batch, m, Ending(s.flags), Deliver(s.log.delivered, m, MAX_SEEN_IDS) != s.log.delivered)
  }

  /** The driver dispatches only in Frame and takes a new frame only in Receiving; nothing else touches the log. */
  lemma DriverFrame(s: State, pc: WsPc, input: Input)
    ensures var t := DriverStep(s, pc, input);
      && t.mode == s.mode && t.poll == s.poll
      && (t.main.Driving? || t.main.Driven?)
      && (!pc.Frame? || pc.queue == [] ==> t.flags == s.flags && t.log.trace == s.log.trace && t.log.delivered == s.log.delivered)
      && (!pc.Receiving? && (!pc.Frame? || pc.queue == []) ==> t.log == s.log)
  {
    hide DispatchOne, Backoff;
    if pc.Frame? && pc.queue != [] { DispatchFrame(s, Socket, s.log.socketBatch, pc.queue[0]); }
  }

  // ---------- Connect first, Disconnect last ----------

  predicate BeforeConnect(pc: MainPc) {
    pc.StoreRunning? || pc.StoreStop? || pc.StoreLive? || pc.Setup? || pc.EmitConnect? || pc.Threw?
  }

  predicate AllArrivals(trace: seq<Event>) { forall i :: 0 <= i < |trace| ==> trace[i].Arrival? }

  predicate Opened(trace: seq<Event>) { |trace| > 0 && trace[0] == Connect && AllArrivals(trace[1..]) }

  predicate Closed(trace: seq<Event>) {
    |trace| > 1 && trace[|trace| - 1] == Disconnect && Opened(trace[..|trace| - 1])
  }

  /** Connect, then arrivals, then Disconnect once the run has returned. */
  predicate Shape(pc: MainPc, trace: seq<Event>) {
    if BeforeConnect(pc) then trace == []
    else if pc.Returned? then Closed(trace)
    else Opened(trace)
  }

  /** The polling thread runs only between Launch and the join. */
  predicate Threads(s: State) {
    && (BeforeConnect(s.main) || s.main.FirstBatch? || s.main.Launch? ==> s.poll == NotStarted)
    && (s.main.Driving? || s.main.Driven? ==> s.mode != PollOnly && (s.mode == SocketOnly ==> s.poll == NotStarted))
    && (s.main.Teardown? || s.main.EmitDisconnect? || s.main.Returned? ==> s.poll == NotStarted || s.poll == Done)
  }

  lemma ThreadsStep(s: State, step: Step)
    requires Threads(s)
    ensures Threads(Move(s, step))
  {
    hide DispatchOne, DriverStep, Deliver;
    if step.MainStep? && s.main.Driving? { DriverFrame(s, s.main.ws, step.input); }
    if step.MainStep? && s.main.FirstBatch? && s.main.queue != [] { DispatchFrame(s, Backlog, 0, s.main.queue[0]); }
    if step.PollStep? && s.poll.Batch? && s.poll.queue != [] {
      DispatchFrame(s, Poller, s.log.pollBatch, s.poll.queue[0]);
    }
  }

  lemma OpenedSnoc(trace: seq<Event>, e: Event)
    requires Opened(trace) && e.Arrival?
    ensures Opened(trace + [e])
  {
    assert (trace + [e])[1..] == trace[1..] + [e];
  }

  lemma ShapeStep(s: State, step: Step)
    requires Shape(s.main, s.log.trace) && Threads(s)
    ensures var t := Move(s, step); Shape(t.main, t.log.trace)
  {
    hide DispatchOne, DriverStep, Deliver, Opened;
    match step
    case MainStep(input) =>
      if s.main.Driving? {
        ShapeDriver(s, s.main.ws, input);
      } else if s.main.FirstBatch? && s.main.queue != [] {
        DispatchFrame(s, Backlog, 0, s.main.queue[0]);
        OpenedSnoc(s.log.trace, ArrivalOf(s, Backlog, 0, s.main.queue[0]));
      } else if s.main.EmitConnect? {
        ConnectOpens();
        assert s.log.trace + [Connect] == [Connect];
      } else if s.main.EmitDisconnect? {
        DisconnectCloses(s.log.trace);
      }
    case PollStep(input) =>
      if s.poll.Batch? && s.poll.queue != [] {
        DispatchFrame(s, Poller, s.log.pollBatch, s.poll.queue[0]);
        OpenedSnoc(s.log.trace, ArrivalOf(s, Poller, s.log.pollBatch, s.poll.queue[0]));
      }
    case _ =>
  }

  lemma ConnectOpens()
    ensures Opened([Connect])
  {
  }

  lemma DisconnectCloses(trace: seq<Event>)
    requires Opened(trace)
    ensures Closed(trace + [Disconnect])
  {
    assert (trace + [Disconnect])[..|trace|] == trace;
  }

  lemma ShapeDriver(s: State, pc: WsPc, input: Input)
    requires s.main == Driving(pc) && Shape(s.main, s.log.trace)
    ensures var t := DriverStep(s, pc, input); Shape(t.main, t.log.trace)
  {
    hide DispatchOne, Opened;
    DriverFrame(s, pc, input);
    if pc.Frame? && pc.queue != [] {
      DispatchFrame(s, Socket, s.log.socketBatch, pc.queue[0]);
      OpenedSnoc(s.log.trace, ArrivalOf(s, Socket, s.log.socketBatch, pc.queue[0]));
    }
  }

  // ---------- At most one more batch once the flags are set ----------

  predicate IsLate(e: Event, from: Transport) { e.Arrival? && e.from == from && e.late }

  ghost predicate HasLate(trace: seq<Event>, from: Transport) { exists e :: e in trace && IsLate(e, from) }

  ghost predicate LateIn(trace: seq<Event>, from: Transport, batch: nat) {
    forall e :: e in trace && IsLate(e, from) ==> e.batch == batch
  }

  /** From here the socket's thread reads a set flag before it could take another frame. */
  predicate SocketWillStop(main: MainPc, flags: Flags) {
    if !main.Driving? then !(BeforeConnect(main) || main.FirstBatch? || main.Launch?)
    else
      match main.ws
      case LoopRunning => true
      case LoopStop => flags.stop || flags.live
      case LoopLive => flags.live
      case Frame(_, _) => true
      case CloseStop(_) => true
      case CloseLive(_) => flags.live || !flags.running
      case SessionOver(r) => r == Stopped || r == LiveEnded || (r == Dropped && !flags.running)
      case AfterRunning => !flags.running
      case _ => false
  }

  predicate PollerWillStop(poll: PollPc, flags: Flags) {
    match poll
    case HeadRunning => true
    case HeadStop => flags.stop || flags.live
    case HeadLive => flags.live
    case Batch(_, _) => true
    case Done => true
    case _ => false
  }

  /** Late arrivals belong to the transport's current batch, and the transport is about to stop. */
  ghost predicate SocketLate(main: MainPc, flags: Flags, log: Log) {
    && LateIn(log.trace, Socket, log.socketBatch)
    && (HasLate(log.trace, Socket) ==> Ending(flags) && SocketWillStop(main, flags))
  }

  ghost predicate PollerLate(main: MainPc, poll: PollPc, flags: Flags, log: Log) {
    && LateIn(log.trace, Poller, log.pollBatch)
    && (HasLate(log.trace, Poller) ==> Ending(flags) && PollerWillStop(poll, flags) && !BeforeConnect(main))
  }

  lemma LateSnoc(trace: seq<Event>, e: Event, from: Transport, batch: nat)
    ensures HasLate(trace + [e], from) <==> HasLate(trace, from) || IsLate(e, from)
    ensures LateIn(trace + [e], from, batch) <==> LateIn(trace, from, batch) && (IsLate(e, from) ==> e.batch == batch)
  {
    assert e in trace + [e];
    assert forall x :: x in trace + [e] <==> x in trace || x == e;
  }

  lemma NoLateYet(from: Transport, batch: nat)
    ensures !HasLate([], from) && LateIn([], from, batch)
  {
  }

  lemma FreshBatch(trace: seq<Event>, from: Transport, batch: nat)
    requires !HasLate(trace, from)
    ensures LateIn(trace, from, batch)
  {
  }

  /** A dispatch appends one arrival; late exactly if a flag was set before it. */
  lemma LateDispatch(s: State, from: Transport, batch: nat, m: Message, about: Transport, current: nat)
    ensures var t := DispatchOne(s, from, batch, m);
      && (HasLate(t.log.trace, about) <==>
            HasLate(s.log.trace, about) || (from == about && Ending(s.flags)))
      && (LateIn(s.log.trace, about, current) && (from == about ==> batch == current) ==> LateIn(t.log.trace, about, current))
      && t.log == s.log.(trace := t.log.trace, delivered := t.log.delivered)
      && t.main == s.main && t.poll == s.poll && t.flags == s.flags.(live := t.flags.live) && (s.flags.live ==> t.flags.live)
  {
    hide HasLate, LateIn, Deliver;
    DispatchFrame(s, from, batch, m);
    LateSnoc(s.log.trace, ArrivalOf(s, from, batch, m), about, current);
  }

  lemma SocketLateDriver(s: State, pc: WsPc, input: Input)
    requires s.main == Driving(pc) && SocketLate(s.main, s.flags, s.log)
    ensures var t := DriverStep(s, pc, input); SocketLate(t.main, t.flags, t.log)
  {
    hide HasLate, LateIn, DispatchOne, Backoff, Deliver;
    if pc.Frame? && pc.queue != [] {
      LateDispatch(s, Socket, s.log.socketBatch, pc.queue[0], Socket, s.log.socketBatch);
    } else if pc.Receiving? {
      FreshBatch(s.log.trace, Socket, s.log.socketBatch + 1);
    } else {
      DriverFrame(s, pc, input);
    }
  }

  lemma SocketLateStep(s: State, step: Step)
    requires SocketLate(s.main, s.flags, s.log) && Shape(s.main, s.log.trace)
    ensures var t := Move(s, step); SocketLate(t.main, t.flags, t.log)
  {
    hide HasLate, LateIn, DispatchOne, DriverStep, Deliver, Opened, Closed;
    NoLateYet(Socket, s.log.socketBatch);
    match step
    case MainStep(input) =>
      if s.main.Driving? {
        SocketLateDriver(s, s.main.ws, input);
      } else if s.main.FirstBatch? && s.main.queue != [] {
        LateDispatch(s, Backlog, 0, s.main.queue[0], Socket, s.log.socketBatch);
      } else if s.main.EmitConnect? {
        LateSnoc(s.log.trace, Connect, Socket, s.log.socketBatch);
      } else if s.main.EmitDisconnect? {
        LateSnoc(s.log.trace, Disconnect, Socket, s.log.socketBatch);
      }
    case PollStep(input) =>
      if s.poll.Batch? && s.poll.queue != [] {
        LateDispatch(s, Poller, s.log.pollBatch, s.poll.queue[0], Socket, s.log.socketBatch);
      }
    case _ =>
  }

  lemma PollerLateMain(s: State, input: Input)
    requires PollerLate(s.main, s.poll, s.flags, s.log) && Shape(s.main, s.log.trace) && Threads(s)
    ensures var t := MainMove(s, input); PollerLate(t.main, t.poll, t.flags, t.log)
  {
    hide HasLate, LateIn, DispatchOne, DriverStep, Deliver, Opened, Closed;
    NoLateYet(Poller, s.log.pollBatch);
    if s.main.Driving? {
      var pc := s.main.ws;
      DriverFrame(s, pc, input);
      if pc.Frame? && pc.queue != [] {
        DriverDispatches(s, pc, input);
        LateDispatch(s, Socket, s.log.socketBatch, pc.queue[0], Poller, s.log.pollBatch);
      } else if pc.Receiving? {
        assert pc == Receiving;
        DriverReceives(s, input);
      }
    } else if s.main.FirstBatch? && s.main.queue != [] {
      LateDispatch(s, Backlog, 0, s.main.queue[0], Poller, s.log.pollBatch);
    } else if s.main.EmitConnect? {
      LateSnoc(s.log.trace, Connect, Poller, s.log.pollBatch);
    } else if s.main.EmitDisconnect? {
      LateSnoc(s.log.trace, Disconnect, Poller, s.log.pollBatch);
    }
  }

  lemma DriverDispatches(s: State, pc: WsPc, input: Input)
    requires pc.Frame? && pc.queue != []
    ensures DriverStep(s, pc, input)
         == At(DispatchOne(s, Socket, s.log.socketBatch, pc.queue[0]), Frame(pc.queue[1..], pc.ended || EndsLive(s, pc.queue[0])))
  {
  }

  lemma DriverReceives(s: State, input: Input)
    ensures DriverStep(s, Receiving, input).log.pollBatch == s.log.pollBatch
  {
  }

  lemma PollerLateStep(s: State, step: Step)
    requires PollerLate(s.main, s.poll, s.flags, s.log) && Shape(s.main, s.log.trace) && Threads(s)
    ensures var t := Move(s, step); PollerLate(t.main, t.poll, t.flags, t.log)
  {
    hide HasLate, LateIn, DispatchOne, MainMove, Deliver, Opened, Closed;
    match step
    case MainStep(input) => PollerLateMain(s, input);
    case PollStep(input) =>
      if s.poll.Batch? && s.poll.queue != [] {
        LateDispatch(s, Poller, s.log.pollBatch, s.poll.queue[0], Poller, s.log.pollBatch);
      } else if s.poll.Fetching? {
        FreshBatch(s.log.trace, Poller, s.log.pollBatch + 1);
      }
    case _ =>
  }

  /** The backlog is one batch. */
  ghost predicate BacklogLate(log: Log) { LateIn(log.trace, Backlog, 0) }

  lemma BacklogLateStep(s: State, step: Step)
    requires BacklogLate(s.log)
    ensures BacklogLate(Move(s, step).log)
  {
    hide HasLate, LateIn, DispatchOne, DriverStep, Deliver;
    match step
    case MainStep(input) =>
      if s.main.Driving? {
        var pc := s.main.ws;
        DriverFrame(s, pc, input);
        if pc.Frame? && pc.queue != [] {
          DriverDispatches(s, pc, input);
          LateDispatch(s, Socket, s.log.socketBatch, pc.queue[0], Backlog, 0);
        }
      } else if s.main.FirstBatch? && s.main.queue != [] {
        LateDispatch(s, Backlog, 0, s.main.queue[0], Backlog, 0);
      } else if s.main.EmitConnect? {
        LateSnoc(s.log.trace, Connect, Backlog, 0);
      } else if s.main.EmitDisconnect? {
        LateSnoc(s.log.trace, Disconnect, Backlog, 0);
      }
    case PollStep(input) =>
      if s.poll.Batch? && s.poll.queue != [] {
        LateDispatch(s, Poller, s.log.pollBatch, s.poll.queue[0], Backlog, 0);
      }
    case _ =>
  }

  // ---------- The dispatcher under every interleaving ----------

  /** The messages the two transports and the backlog brought, in the order the mutex admitted them. */
  function Arrived(trace: seq<Event>): seq<Message> {
    if trace == [] then []
    else
      var e := trace[|trace| - 1];
      Arrived(trace[..|trace| - 1]) + (if e.Arrival? then [e.message] else [])
  }

  /** The messages the callbacks saw. */
  function Emitted(trace: seq<Event>): seq<Message> {
    if trace == [] then []
    else
      var e := trace[|trace| - 1];
      Emitted(trace[..|trace| - 1]) + (if e.Arrival? && e.emitted then [e.message] else [])
  }

  ghost predicate Deduplicated(log: Log) {
    && log.delivered == Delivered([], Arrived(log.trace), MAX_SEEN_IDS)
    && log.delivered == Emitted(log.trace)
  }

  lemma ArrivedSnoc(trace: seq<Event>, e: Event)
    ensures Arrived(trace + [e]) == if e.Arrival? then Arrived(trace) + [e.message] else Arrived(trace)
    ensures Emitted(trace + [e]) == if e.Arrival? && e.emitted then Emitted(trace) + [e.message] else Emitted(trace)
  {
    assert (trace + [e])[..|trace|] == trace;
  }

  lemma DeduplicatedDispatch(s: State, from: Transport, batch: nat, m: Message)
    requires Deduplicated(s.log)
    ensures Deduplicated(DispatchOne(s, from, batch, m).log)
  {
    hide Window, Ids;
    var e := ArrivalOf(s, from, batch, m);
    ArrivedSnoc(s.log.trace, e);
    var arrivals := Arrived(s.log.trace);
    assert (arrivals + [m])[..|arrivals|] == arrivals;
    assert Deliver(s.log.delivered, m, MAX_SEEN_IDS) == s.log.delivered
        || Deliver(s.log.delivered, m, MAX_SEEN_IDS) == s.log.delivered + [m];
  }

  lemma DeduplicatedStep(s: State, step: Step)
    requires Deduplicated(s.log)
    ensures Deduplicated(Move(s, step).log)
  {
    hide DispatchOne, DriverStep, Deliver, Delivered, Arrived, Emitted;
    match step
    case MainStep(input) =>
      if s.main.Driving? {
        var pc := s.main.ws;
        DriverFrame(s, pc, input);
        if pc.Frame? && pc.queue != [] {
          DriverDispatches(s, pc, input);
          DeduplicatedDispatch(s, Socket, s.log.socketBatch, pc.queue[0]);
        }
      } else if s.main.FirstBatch? && s.main.queue != [] {
        DeduplicatedDispatch(s, Backlog, 0, s.main.queue[0]);
      } else if s.main.EmitConnect? {
        ArrivedSnoc(s.log.trace, Connect);
      } else if s.main.EmitDisconnect? {
        ArrivedSnoc(s.log.trace, Disconnect);
      }
    case PollStep(input) =>
      if s.poll.Batch? && s.poll.queue != [] {
        DeduplicatedDispatch(s, Poller, s.log.pollBatch, s.poll.queue[0]);
      }
    case _ =>
  }

  // ---------- The reconnect driver ----------

  /** How many sessions at the end of the history were handshake failures. */
  function TrailingFails(sessions: seq<WsResult>): (n: nat)
    ensures n <= |sessions|
  {
    if sessions == [] || sessions[|sessions| - 1] != HandshakeFailed then 0
    else TrailingFails(sessions[..|sessions| - 1]) + 1
  }

  lemma {:induction false} TrailingMeaning(sessions: seq<WsResult>)
    ensures var n := TrailingFails(sessions);
      && (forall i :: |sessions| - n <= i < |sessions| ==> sessions[i] == HandshakeFailed)
      && (n < |sessions| ==> sessions[|sessions| - n - 1] != HandshakeFailed)
  {
    if sessions != [] && sessions[|sessions| - 1] == HandshakeFailed { TrailingMeaning(sessions[..|sessions| - 1]); }
  }

  lemma TrailingSnoc(sessions: seq<WsResult>, r: WsResult)
    ensures TrailingFails(sessions + [r]) == if r == HandshakeFailed then TrailingFails(sessions) + 1 else 0
  {
    assert (sessions + [r])[..|sessions|] == sessions;
  }

  /** Some session of this run, or an earlier run, connected. */
  predicate Connected(before: bool, sessions: seq<WsResult>) {
    before || TrailingFails(sessions) < |sessions|
  }

  /** The two reasons to give the socket up: it never connected at all, or six handshakes failed in a row. */
  predicate GivenUp(before: bool, sessions: seq<WsResult>) {
    || (!before && sessions == [HandshakeFailed])
    || TrailingFails(sessions) >= MAX_HANDSHAKE_FAILS
  }

  predicate InSession(pc: WsPc) {
    pc.LoopRunning? || pc.LoopStop? || pc.LoopLive? || pc.LoopConnected? || pc.Receiving? || pc.Frame?
    || pc.CloseStop? || pc.CloseLive? || (pc.SessionOver? && pc.result != HandshakeFailed)
  }

  predicate BackoffOk(mode: Mode, b: nat) {
    b == 300 || (mode != Dual && b in {500, 1000, 1500, 2000, 2500})
  }

  predicate DriverOk(mode: Mode, main: MainPc, d: Driver) {
    && (forall i :: 0 <= i < |d.backoffs| ==> BackoffOk(mode, d.backoffs[i]))
    && (BeforeConnect(main) || main.FirstBatch? || main.Launch? ==>
          d.wsEver == d.wsBefore && d.fails == 0 && d.sessions == [] && d.verdict == None)
    && (main.Driving? ==> Underway(mode, main.ws, d))
    && (d.verdict.Some? ==> (d.verdict.value <==> mode == Dual || !GivenUp(d.wsBefore, d.sessions)))
  }

  predicate Underway(mode: Mode, pc: WsPc, d: Driver) {
    && d.verdict == None
    && (if InSession(pc) then d.wsEver else d.wsEver == Connected(d.wsBefore, d.sessions))
    && if mode == Dual then d.fails == 0
       else !GivenUp(d.wsBefore, d.sessions) && d.fails == TrailingFails(d.sessions) && (d.sessions != [] ==>
           Connected(d.wsBefore, d.sessions))
  }

  lemma HistoryGrows(before: bool, sessions: seq<WsResult>, r: WsResult)
    requires sessions != [] ==> Connected(before, sessions)
    ensures r != HandshakeFailed ==> !GivenUp(before, sessions + [r])
    ensures Connected(before, sessions + [r]) <==> r != HandshakeFailed || Connected(before, sessions)
    ensures r == HandshakeFailed && !Connected(before, sessions) ==> GivenUp(before, sessions + [r])
    ensures r == HandshakeFailed && Connected(before, sessions) ==>
      (GivenUp(before, sessions + [r]) <==> TrailingFails(sessions) + 1 >= MAX_HANDSHAKE_FAILS)
  {
    TrailingSnoc(sessions, r);
    if sessions == [] { assert sessions + [r] == [r]; }
  }

  lemma ConnectedGrows(before: bool, sessions: seq<WsResult>, r: WsResult)
    ensures Connected(before, sessions + [r]) <==> r != HandshakeFailed || Connected(before, sessions)
  {
    TrailingSnoc(sessions, r);
  }

  lemma DriverOkSession(s: State, r: WsResult)
    requires DriverOk(s.mode, s.main, s.driver) && s.main == Driving(SessionOver(r))
    ensures var t := AfterSession(s, r); DriverOk(s.mode, t.main, t.driver)
  {
    hide BackoffOk, GivenUp, Connected, TrailingFails;
    TrailingSnoc(s.driver.sessions, r);
    if s.mode == Dual {
      ConnectedGrows(s.driver.wsBefore, s.driver.sessions, r);
    } else {
      HistoryGrows(s.driver.wsBefore, s.driver.sessions, r);
    }
  }

  lemma DriverOkDriver(s: State, pc: WsPc, input: Input)
    requires s.main == Driving(pc) && DriverOk(s.mode, s.main, s.driver)
    ensures var t := DriverStep(s, pc, input); DriverOk(s.mode, t.main, t.driver)
  {
    hide DispatchOne, AfterSession, BackoffOk, Backoff, GivenUp, Connected, TrailingFails;
    if pc.SessionOver? {
      DriverOkSession(s, pc.result);
    } else if pc.BackingOff? {
      BackoffChoice(s.mode, s.driver);
    } else if pc.Frame? && pc.queue != [] {
      DispatchFrame(s, Socket, s.log.socketBatch, pc.queue[0]);
    }
  }

  lemma NoSessionYet(before: bool)
    ensures !GivenUp(before, []) && TrailingFails([]) == 0 && Connected(before, []) == before
  {
  }

  lemma BackoffChoice(mode: Mode, d: Driver)
    requires Underway(mode, BackingOff, d)
    ensures BackoffOk(mode, Backoff(d.fails))
  {
  }

  lemma DriverOkStep(s: State, step: Step)
    requires DriverOk(s.mode, s.main, s.driver)
    ensures var t := Move(s, step); t.mode == s.mode && DriverOk(t.mode, t.main, t.driver)
  {
    hide DispatchOne, DriverStep, BackoffOk, GivenUp, Connected, TrailingFails;
    NoSessionYet(s.driver.wsBefore);
    if step.MainStep? && s.main.Driving? {
      DriverFrame(s, s.main.ws, step.input);
      DriverOkDriver(s, s.main.ws, step.input);
    }
    if step.MainStep? && s.main.FirstBatch? && s.main.queue != [] { DispatchFrame(s, Backlog, 0, s.main.queue[0]); }
    if step.PollStep? && s.poll.Batch? && s.poll.queue != [] {
      DispatchFrame(s, Poller, s.log.pollBatch, s.poll.queue[0]);
    }
  }

  // ---------- Every run ----------

  ghost predicate Inv(s: State) {
    && Threads(s)
    && Shape(s.main, s.log.trace)
    && SocketLate(s.main, s.flags, s.log) && PollerLate(s.main, s.poll, s.flags, s.log) && BacklogLate(s.log)
    && Deduplicated(s.log)
    && DriverOk(s.mode, s.main, s.driver)
  }

  lemma InitInv(s: State)
    requires Init(s)
    ensures Inv(s)
  {
    NoLateYet(Socket, 0);
    NoLateYet(Poller, 0);
    NoLateYet(Backlog, 0);
  }

  lemma {:induction false} RunInv(s: State, steps: seq<Step>)
    requires Init(s)
    ensures Inv(Run(s, steps)) && Run(s, steps).mode == s.mode && Run(s, steps).driver.wsBefore == s.driver.wsBefore
  {
    hide Threads, Shape, SocketLate, PollerLate, BacklogLate, Deduplicated, DriverOk, Move, Init;
    if steps == [] {
      InitInv(s);
    } else {
      var front, step := steps[..|steps| - 1], steps[|steps| - 1];
      RunInv(s, front);
      var t := Run(s, front);
      ThreadsStep(t, step);
      ShapeStep(t, step);
      SocketLateStep(t, step);
      PollerLateStep(t, step);
      BacklogLateStep(t, step);
      DeduplicatedStep(t, step);
      DriverOkStep(t, step);
      BeforeStep(t, step);
    }
  }

  lemma BeforeStep(s: State, step: Step)
    ensures Move(s, step).driver.wsBefore == s.driver.wsBefore
  {
    hide DispatchOne, Backoff;
    if step.MainStep? && s.main.Driving? && s.main.ws.Frame? && s.main.ws.queue != [] {
      DispatchFrame(s, Socket, s.log.socketBatch, s.main.ws.queue[0]);
    }
    if step.MainStep? && s.main.FirstBatch? && s.main.queue != [] { DispatchFrame(s, Backlog, 0, s.main.queue[0]); }
    if step.PollStep? && s.poll.Batch? && s.poll.queue != [] {
      DispatchFrame(s, Poller, s.log.pollBatch, s.poll.queue[0]);
    }
  }

  lemma RunStep(s: State, steps: seq<Step>, t: State, step: Step)
    requires Run(s, steps) == t
    ensures Run(s, steps + [step]) == Move(t, step)
  {
    assert (steps + [step])[..|steps|] == steps;
  }

  /** Runs do return: here polling only, an empty backlog, and a stop before the first poll. */
  lemma SomeRunReturns() returns (s: State, steps: seq<Step>)
    ensures Init(s) && Run(s, steps).main.Returned?
  {
    hide Run, PollMove;
    s := State(PollOnly, StoreRunning, NotStarted, Flags(false, false, false), Driver(false, false, 0, [], [], None),
        Log([], [], 0, 0));
    steps := [];
    var t := s;
    NoSteps(s);
    while t.main !in {Joining, Returned}
      invariant Run(s, steps) == t && t.mode == PollOnly && t.poll == if t.main == Joining then HeadRunning else NotStarted
      invariant t.main in {StoreRunning, StoreStop, StoreLive, Setup, EmitConnect, Launch, Joining}
      decreases Distance(t.main)
    {
      RunStep(s, steps, t, MainStep(Nothing));
      steps, t := steps + [MainStep(Nothing)], Move(t, MainStep(Nothing));
    }
    RunStep(s, steps, t, RunningCleared);
    steps, t := steps + [RunningCleared], Move(t, RunningCleared);
    RunStep(s, steps, t, PollStep(Nothing));
    PollStops(t);
    steps, t := steps + [PollStep(Nothing)], Move(t, PollStep(Nothing));
    while t.main != Returned
      invariant Run(s, steps) == t && t.poll == Done && t.main in {Joining, Teardown, EmitDisconnect, Returned}
      decreases Distance(t.main)
    {
      RunStep(s, steps, t, MainStep(Nothing));
      steps, t := steps + [MainStep(Nothing)], Move(t, MainStep(Nothing));
    }
  }

  lemma NoSteps(s: State)
    ensures Run(s, []) == s
  {
  }

  lemma PollStops(t: State)
    requires t.poll == HeadRunning && !t.flags.running
    ensures PollMove(t, Nothing) == t.(poll := Done)
  {
  }

  /** Steps of the main thread up to the return, where nothing else is in the way. */
  function Distance(pc: MainPc): nat {
    match pc
    case StoreRunning => 9
    case StoreStop => 8
    case StoreLive => 7
    case Setup => 6
    case EmitConnect => 5
    case Launch => 4
    case Joining => 3
    case Teardown => 2
    case EmitDisconnect => 1
    case _ => 0
  }

  /**
   Whatever the interleaving: a run that returned emitted Connect first and Disconnect last,
   each once, with every message of both threads in between.
   */
  lemma ReturnedRun(s: State, steps: seq<Step>)
    requires Init(s) && Run(s, steps).main.Returned?
    ensures var trace := Run(s, steps).log.trace;
      && |trace| >= 2 && trace[0] == Connect && trace[|trace| - 1] == Disconnect
      && forall i :: 0 < i < |trace| - 1 ==> trace[i].Arrival?
  {
    RunInv(s, steps);
    var trace := Run(s, steps).log.trace;
    forall i | 0 < i < |trace| - 1 ensures trace[i].Arrival? {
      assert trace[..|trace| - 1][1..][i - 1] == trace[i];
    }
  }

  /** At every moment before the return: nothing before Connect, and no Disconnect yet. */
  lemma UnfinishedRun(s: State, steps: seq<Step>)
    requires Init(s) && !Run(s, steps).main.Returned?
    ensures var trace := Run(s, steps).log.trace;
      trace == [] || (trace[0] == Connect && forall i :: 0 < i < |trace| ==> trace[i].Arrival?)
  {
    RunInv(s, steps);
    var trace := Run(s, steps).log.trace;
    if trace != [] {
      forall i | 0 < i < |trace| ensures trace[i].Arrival? { assert trace[1..][i - 1] == trace[i]; }
    }
  }

  /** Once stop_requested or live_ended is set, or `running` cleared, each transport dispatches from one batch only. */
  lemma OneMoreBatch(s: State, steps: seq<Step>, e: Event, f: Event)
    requires Init(s)
    requires e in Run(s, steps).log.trace && f in Run(s, steps).log.trace
    requires e.Arrival? && f.Arrival? && e.from == f.from && e.late && f.late
    ensures e.batch == f.batch
  {
    RunInv(s, steps);
    assert IsLate(e, e.from) && IsLate(f, e.from);
  }

  /**
   The callbacks see exactly what the bounded memory lets through of the merged arrivals: an id
   repeats only after MAX_SEEN_IDS others, and with no more distinct ids than that, each is seen once.
   */
  lemma CallbacksSeeFirstOccurrences(s: State, steps: seq<Step>)
    requires Init(s)
    ensures var log := Run(s, steps).log;
      && Spaced(Ids(Emitted(log.trace)), MAX_SEEN_IDS)
      && (|IdSet(Arrived(log.trace))| <= MAX_SEEN_IDS ==> Emitted(log.trace) == FirstOccurrences(Arrived(log.trace)))
  {
    hide Spaced, Delivered, FirstOccurrences, IdSet;
    RunInv(s, steps);
    var arrivals := Arrived(Run(s, steps).log.trace);
    NothingSpaced();
    DeliveredSpaced([], arrivals, MAX_SEEN_IDS);
    if |IdSet(arrivals)| <= MAX_SEEN_IDS { BoundedIsExact(arrivals, MAX_SEEN_IDS); }
  }

  lemma NothingSpaced()
    ensures Spaced(Ids([]), MAX_SEEN_IDS)
  {
  }

  /**
   The reconnect driver answers false (poll instead) exactly if fallback is allowed and either no
   session ever connected or the last six sessions were handshake failures; in dual mode never.
   */
  lemma GivesUpExactly(s: State, steps: seq<Step>)
    requires Init(s) && !s.driver.wsBefore && Run(s, steps).driver.verdict.Some?
    ensures var d := Run(s, steps).driver;
      !d.verdict.value <==> s.mode != Dual && (d.sessions == [HandshakeFailed] || LastSixFailed(d.sessions))
  {
    RunInv(s, steps);
    TrailingMeaning(Run(s, steps).driver.sessions);
  }

  predicate LastSixFailed(sessions: seq<WsResult>) {
    |sessions| >= 6 && forall i :: |sessions| - 6 <= i < |sessions| ==> sessions[i] == HandshakeFailed
  }

  /** Every backoff is 300 ms, or 500k ms with k in 1..5, and in dual mode always 300 ms. */
  lemma BackoffChoices(s: State, steps: seq<Step>, i: nat)
    requires Init(s) && i < |Run(s, steps).driver.backoffs|
    ensures var b := Run(s, steps).driver.backoffs[i];
      b == 300 || (s.mode != Dual && exists k :: 1 <= k <= 5 && b == 500 * k)
  {
    hide Threads, Shape, SocketLate, PollerLate, BacklogLate, Deduplicated;
    RunInv(s, steps);
    var b := Run(s, steps).driver.backoffs[i];
    assert BackoffOk(s.mode, b);
    if b != 300 { assert 1 <= b / 500 <= 5 && b == 500 * (b / 500); }
  }
}

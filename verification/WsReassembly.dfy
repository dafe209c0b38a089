/**
 Reassembly of WebSocket messages by `recv_binary` of src/ws_client.cpp, against
 streams of messages cut into fragments and fragments cut into chunks
 (section 5.4 of RFC 6455).
 */
module WsReassembly {

  // ---------- What the transport hands out ----------

  datatype Flags = Flags(text: bool, binary: bool, cont: bool, close: bool)

  /** A frame's flags and how many of its bytes are still to come; there may be no such record. */
  datatype Meta = Missing | Meta(flags: Flags, bytesleft: nat)

  datatype Received = Again | Failed | Chunk(data: seq<int>, meta: Meta)

  datatype Status = MessageReady | TryAgain | Closed | Error

  // ---------- One call ----------

  datatype Link = Link(live: bool, partial: seq<int>)

  datatype Outcome = Outcome(link: Link, status: Status, out: seq<int>)

  predicate IsClose(next: Received) { next.Chunk? && next.meta.Meta? && next.meta.flags.close }

  predicate MoreToCome(m: Meta) { m.Meta? && (m.bytesleft > 0 || m.flags.cont) }

  predicate Surfaced(m: Meta) { m.Meta? && (m.flags.binary || m.flags.text) }

  /** The meaning of one call; `out` is the caller's buffer, returned as it was unless the buffers are swapped. */
  function Receive(link: Link, next: Received, out: seq<int>): Outcome {
    if !link.live then Outcome(link, Error, out)
    else if next.Again? then Outcome(link, TryAgain, out)
    else if next.Failed? then Outcome(link.(live := false), Error, out)
    else if IsClose(next) then Outcome(link.(live := false), Closed, out)
    else
      var all := link.partial + next.data;
      if MoreToCome(next.meta) then Outcome(Link(true, all), TryAgain, out)
      else if Surfaced(next.meta) then Outcome(Link(true, []), if all == [] then TryAgain else MessageReady, all)
      else Outcome(Link(true, []), TryAgain, out)
  }

  /** Which call comes to what: the other way round. */
  lemma StatusExactly(link: Link, next: Received, out: seq<int>)
    ensures var r := Receive(link, next, out);
      var whole := next.Chunk? && next.meta.Meta? && next.meta.bytesleft == 0 && !next.meta.flags.close && !next.meta.flags.cont
        && (next.meta.flags.text || next.meta.flags.binary);
      && (r.status == Error <==> !link.live || next.Failed?)
      && (r.status == Closed <==> link.live && next.Chunk? && next.meta.Meta? && next.meta.flags.close)
      && (r.status == MessageReady <==> link.live && whole && link.partial + next.data != [])
      && (r.link.live <==> link.live && r.status != Error && r.status != Closed)
      && (r.out != out ==> link.live && whole && r.out == link.partial + next.data)
      && (r.status == MessageReady ==> r.out == link.partial + next.data && r.link.partial == [])
      && (r.link.partial != link.partial && r.link.partial != [] ==> next.Chunk? && r.link.partial == link.partial + next.data)
  {
  }

  class WsClient {
    var handle: bool
    var connected: bool
    var partial: seq<int>

    constructor ()
      ensures !handle && !connected && partial == []
    {
      handle, connected, partial := false, false, [];
    }

    ghost function AsLink(): Link
      reads this
    {
      Link(connected && handle, partial)
    }

    /** Opening a link leaves the reassembly buffer as it is. */
    method Connect(established: bool) returns (thrown: bool)
      modifies this
      ensures thrown == !established && handle == established && partial == old(partial)
      ensures connected == (established || old(connected))
    {
      handle := established;
      if !established { return true; }
      connected := true;
      return false;
    }

    method RecvBinary(next: Received, buffer: seq<int>) returns (status: Status, out: seq<int>)
      modifies `connected, `partial
      ensures Outcome(AsLink(), status, out) == Receive(old(AsLink()), next, buffer)
    {
      out := buffer;
      if !connected || !handle { return Error, out; }
      if next.Again? { return TryAgain, out; }
      if next.Failed? {
        connected := false;
        return Error, out;
      }
      if next.meta.Meta? && next.meta.flags.close {
        connected := false;
        return Closed, out;
      }
      partial := partial + next.data;
      if next.meta.Meta? && next.meta.bytesleft > 0 { return TryAgain, out; }
      if next.meta.Meta? && next.meta.flags.cont { return TryAgain, out; }
      if next.meta.Meta? && (next.meta.flags.binary || next.meta.flags.text) {
        out := partial;
        partial := [];
        return if out == [] then TryAgain else MessageReady, out;
      }
      partial := [];
      return TryAgain, out;
    }

    /** Calling until the input is used up, with a fresh buffer each time. */
    method ReceiveAll(inputs: seq<Received>) returns (messages: seq<seq<int>>)
      modifies `connected, `partial
      ensures messages == Session(old(AsLink()), inputs)
      ensures AsLink() == After(old(AsLink()), inputs)
    {
      hide Receive, Session, After;
      messages := [];
      var i := 0;
      assert inputs[0..] == inputs;
      while i < |inputs|
        invariant 0 <= i <= |inputs|
        invariant messages + Session(AsLink(), inputs[i..]) == Session(old(AsLink()), inputs)
        invariant After(AsLink(), inputs[i..]) == After(old(AsLink()), inputs)
      {
        ghost var done := messages;
        assert inputs[i..] == [inputs[i]] + inputs[i + 1..];
        SessionStep(AsLink(), inputs[i], inputs[i + 1..]);
        var status, out := RecvBinary(inputs[i], []);
        if status == MessageReady { messages := messages + [out]; }
        i := i + 1;
        assert messages == done + Given(status, out);
        assert done + (Given(status, out) + Session(AsLink(), inputs[i..])) == messages + Session(AsLink(), inputs[i..]);
      }
      NothingReceived(AsLink());
    }
  }

  function Given(status: Status, out: seq<int>): seq<seq<int>> { if status == MessageReady then [out] else [] }

  /** The messages a run of calls returns. */
  function Session(link: Link, inputs: seq<Received>): seq<seq<int>>
    decreases |inputs|
  {
    if inputs == [] then []
    else
      var o := Receive(link, inputs[0], []);
      Given(o.status, o.out) + Session(o.link, inputs[1..])
  }

  function After(link: Link, inputs: seq<Received>): Link
    decreases |inputs|
  {
    if inputs == [] then link else After(Receive(link, inputs[0], []).link, inputs[1..])
  }

  lemma {:induction false} SessionAppend(link: Link, a: seq<Received>, b: seq<Received>)
    ensures Session(link, a + b) == Session(link, a) + Session(After(link, a), b)
    ensures After(link, a + b) == After(After(link, a), b)
    decreases |a|
  {
    hide Receive;
    if a == [] {
      assert a + b == b;
    } else {
      assert (a + b)[1..] == a[1..] + b;
      SessionAppend(Receive(link, a[0], []).link, a[1..], b);
    }
  }

  // ---------- Streams ----------

  /** A frame's payload arrives in chunks; inside a message control frames may stand between fragments. */
  datatype Part = Fragment(chunks: seq<seq<int>>) | Control(chunks: seq<seq<int>>)

  datatype Item =
    | Ping(chunks: seq<seq<int>>)
    | Message(text: bool, parts: seq<Part>, last: seq<seq<int>>)

  predicate IsStream(items: seq<Item>) {
    forall i :: 0 <= i < |items| ==>
      && (items[i].Ping? ==> items[i].chunks != [])
      && (items[i].Message? ==> items[i].last != [])
      && (items[i].Message? ==> AllChunked(items[i].parts))
  }

  /** A frame gives at least one chunk, an empty one if it has no payload. */
  predicate AllChunked(parts: seq<Part>) { forall j :: 0 <= j < |parts| ==> parts[j].chunks != [] }

  function Flat(chunks: seq<seq<int>>): seq<int> {
    if chunks == [] then [] else chunks[0] + Flat(chunks[1..])
  }

  /** The chunks of one frame, each with the number of bytes behind it. */
  function FrameWire(chunks: seq<seq<int>>, flags: Flags): seq<Received> {
    if chunks == [] then []
    else [Chunk(chunks[0], Meta(flags, |Flat(chunks[1..])|))] + FrameWire(chunks[1..], flags)
  }

  const CONTROL := Flags(false, false, false, false)

  function DataFlags(text: bool, final: bool): Flags { Flags(text, !text, !final, false) }

  function PartsWire(parts: seq<Part>, text: bool): seq<Received> {
    if parts == [] then []
    else FrameWire(parts[0].chunks, if parts[0].Control? then CONTROL else DataFlags(text, false)) + PartsWire(parts[1..], text)
  }

  function ItemWire(item: Item): seq<Received> {
    match item
    case Ping(chunks) => FrameWire(chunks, CONTROL)
    case Message(text, parts, last) => PartsWire(parts, text) + FrameWire(last, DataFlags(text, true))
  }

  function Wire(items: seq<Item>): seq<Received> {
    if items == [] then [] else ItemWire(items[0]) + Wire(items[1..])
  }

  // ---------- What a session delivers ----------

  /** What the buffer holds after the earlier parts of a message: only what follows the last control frame. */
  function Kept(held: seq<int>, parts: seq<Part>): seq<int>
    decreases |parts|
  {
    if parts == [] then held
    else Kept(if parts[0].Control? then [] else held + Flat(parts[0].chunks), parts[1..])
  }

  function Payload(parts: seq<Part>): seq<int> {
    if parts == [] then []
    else (if parts[0].Control? then [] else Flat(parts[0].chunks)) + Payload(parts[1..])
  }

  function Results(held: seq<int>, items: seq<Item>): seq<seq<int>>
    decreases |items|
  {
    if items == [] then []
    else if items[0].Ping? then Results([], items[1..])
    else [Kept(held, items[0].parts) + Flat(items[0].last)] + Results([], items[1..])
  }

  /** The messages that were sent, whole. */
  function Sent(items: seq<Item>): seq<seq<int>> {
    if items == [] then []
    else if items[0].Ping? then Sent(items[1..])
    else [Payload(items[0].parts) + Flat(items[0].last)] + Sent(items[1..])
  }

  function NonEmpty(s: seq<seq<int>>): seq<seq<int>> {
    if s == [] then [] else (if s[0] == [] then [] else [s[0]]) + NonEmpty(s[1..])
  }

  /** A frame that is not the last of its message only adds its payload to the buffer. */
  lemma {:induction false} FragmentRun(held: seq<int>, chunks: seq<seq<int>>, text: bool)
    ensures var wire := FrameWire(chunks, DataFlags(text, false));
            Session(Link(true, held), wire) == [] && After(Link(true, held), wire) == Link(true, held + Flat(chunks))
    decreases |chunks|
  {
    if chunks != [] {
      FragmentRun(held + chunks[0], chunks[1..], text);
      assert held + chunks[0] + Flat(chunks[1..]) == held + Flat(chunks);
    } else {
      assert held + Flat(chunks) == held;
    }
  }

  /** A control frame leaves an empty buffer, whatever was in it. */
  lemma {:induction false} ControlRun(held: seq<int>, chunks: seq<seq<int>>)
    requires chunks != [] || held == []
    ensures var wire := FrameWire(chunks, CONTROL);
            Session(Link(true, held), wire) == [] && After(Link(true, held), wire) == Link(true, [])
    decreases |chunks|
  {
    if chunks != [] {
      var rest := chunks[1..];
      var kept := if Flat(rest) == [] then [] else held + chunks[0];
      ControlRun(kept, rest);
    }
  }

  /** A chunk of the last fragment with bytes behind it is kept; the one with none behind it ends the message. */
  lemma LastChunk(held: seq<int>, data: seq<int>, text: bool, bytesleft: nat)
    ensures Receive(Link(true, held), Chunk(data, Meta(DataFlags(text, true), bytesleft)), []) ==
            if bytesleft > 0 then Outcome(Link(true, held + data), TryAgain, [])
            else Outcome(Link(true, []), if held + data == [] then TryAgain else MessageReady, held + data)
  {
  }

  lemma SessionStep(link: Link, next: Received, rest: seq<Received>)
    ensures Session(link, [next] + rest) ==
            Given(Receive(link, next, []).status, Receive(link, next, []).out) + Session(Receive(link, next, []).link, rest)
    ensures After(link, [next] + rest) == After(Receive(link, next, []).link, rest)
  {
    assert ([next] + rest)[1..] == rest;
  }

  lemma NothingReceived(link: Link)
    ensures Session(link, []) == [] && After(link, []) == link
  {
  }

  lemma WireFirst(chunks: seq<seq<int>>, flags: Flags)
    requires chunks != []
    ensures FrameWire(chunks, flags) == [Chunk(chunks[0], Meta(flags, |Flat(chunks[1..])|))] + FrameWire(chunks[1..], flags)
  {
  }

  lemma WireFacts(chunks: seq<seq<int>>, flags: Flags, x: seq<int>)
    ensures chunks == [] ==> FrameWire(chunks, flags) == [] && Flat(chunks) == []
    ensures chunks != [] ==> Flat(chunks) == chunks[0] + Flat(chunks[1..])
    ensures NonEmpty([x]) == if x == [] then [] else [x]
  {
    assert [x][1..] == [];
  }

  /** The last fragment hands over the buffer, and empty chunks behind it hand over nothing more. */
  lemma {:induction false} LastRun(held: seq<int>, chunks: seq<seq<int>>, text: bool)
    requires chunks != [] || held == []
    ensures var wire := FrameWire(chunks, DataFlags(text, true));
            && Session(Link(true, held), wire) == NonEmpty([held + Flat(chunks)])
            && After(Link(true, held), wire) == Link(true, [])
    decreases |chunks|
  {
    hide Receive, Session, After, FrameWire, Flat, NonEmpty;
    WireFacts(chunks, DataFlags(text, true), held + Flat(chunks));
    if chunks == [] {
      NothingReceived(Link(true, held));
    } else {
      var rest, all := chunks[1..], held + chunks[0];
      WireFirst(chunks, DataFlags(text, true));
      LastChunk(held, chunks[0], text, |Flat(rest)|);
      SessionStep(Link(true, held), Chunk(chunks[0], Meta(DataFlags(text, true), |Flat(rest)|)),
        FrameWire(rest, DataFlags(text, true)));
      assert all + Flat(rest) == held + Flat(chunks);
      WireFacts(rest, DataFlags(text, true), []);
      if Flat(rest) == [] {
        LastRun([], rest, text);
        assert [] + Flat(rest) == [] && all + Flat(rest) == all;
      } else {
        LastRun(all, rest, text);
      }
    }
  }

  lemma {:induction false} PartsRun(held: seq<int>, parts: seq<Part>, text: bool)
    requires AllChunked(parts)
    ensures Session(Link(true, held), PartsWire(parts, text)) == []
    ensures After(Link(true, held), PartsWire(parts, text)) == Link(true, Kept(held, parts))
    decreases |parts|
  {
    hide Receive, FrameWire, Session, After;
    NothingReceived(Link(true, held));
    if parts != [] {
      var p := parts[0];
      var flags := if p.Control? then CONTROL else DataFlags(text, false);
      var next := if p.Control? then [] else held + Flat(p.chunks);
      if p.Control? { ControlRun(held, p.chunks); } else { FragmentRun(held, p.chunks, text); }
      SessionAppend(Link(true, held), FrameWire(p.chunks, flags), PartsWire(parts[1..], text));
      PartsRun(next, parts[1..], text);
    }
  }

  lemma {:induction false} NonEmptyAppend(a: seq<seq<int>>, b: seq<seq<int>>)
    ensures NonEmpty(a + b) == NonEmpty(a) + NonEmpty(b)
  {
    if a == [] {
      assert a + b == b;
    } else {
      assert (a + b)[1..] == a[1..] + b;
      NonEmptyAppend(a[1..], b);
    }
  }

  lemma ItemRun(held: seq<int>, item: Item)
    requires IsStream([item])
    ensures Session(Link(true, held), ItemWire(item)) == NonEmpty(Results(held, [item]))
    ensures After(Link(true, held), ItemWire(item)) == Link(true, [])
  {
    hide Session, After, FrameWire, PartsWire, Receive, Kept, Flat, NonEmpty;
    assert [item][0] == item && [item][1..] == [];
    EmptyNonEmpty();
    match item {
      case Ping(chunks) => ControlRun(held, chunks);
      case Message(text, parts, last) =>
        PartsRun(held, parts, text);
        LastRun(Kept(held, parts), last, text);
        SessionAppend(Link(true, held), PartsWire(parts, text), FrameWire(last, DataFlags(text, true)));
        assert Results(held, [item]) == [Kept(held, parts) + Flat(last)];
    }
  }

  lemma EmptyNonEmpty()
    ensures NonEmpty([]) == []
  {
  }

  /** For every stream, whatever the buffer held at first, a session delivers exactly the non-empty results, in order. */
  lemma {:induction false} SessionDelivers(held: seq<int>, items: seq<Item>)
    requires IsStream(items)
    ensures Session(Link(true, held), Wire(items)) == NonEmpty(Results(held, items))
    ensures After(Link(true, held), Wire(items)) == Link(true, if items == [] then held else [])
    decreases |items|
  {
    hide Session, After, ItemWire, Receive, Kept, Flat, NonEmpty;
    NothingReceived(Link(true, held));
    EmptyNonEmpty();
    if items != [] {
      var first, rest := items[0], items[1..];
      assert IsStream([first]);
      ItemRun(held, first);
      SessionAppend(Link(true, held), ItemWire(first), Wire(rest));
      SessionDelivers([], rest);
      NonEmptyAppend(Results(held, [first]), Results([], rest));
      assert Results(held, items) == Results(held, [first]) + Results([], rest);
    }
  }

  /** Stalls of the transport between chunks change nothing. */
  function WithoutAgain(inputs: seq<Received>): seq<Received> {
    if inputs == [] then []
    else if inputs[0].Again? then WithoutAgain(inputs[1..])
    else [inputs[0]] + WithoutAgain(inputs[1..])
  }

  lemma {:induction false} StallsDoNotMatter(link: Link, inputs: seq<Received>)
    ensures Session(link, inputs) == Session(link, WithoutAgain(inputs))
    ensures After(link, inputs) == After(link, WithoutAgain(inputs))
    decreases |inputs|
  {
    hide Receive, Session, After;
    if inputs != [] {
      var first, rest := inputs[0], inputs[1..];
      assert inputs == [first] + rest;
      StallsDoNotMatter(Receive(link, first, []).link, rest);
      SessionStep(link, first, rest);
      if first.Again? {
        AgainChangesNothing(link);
        assert [] + Session(link, rest) == Session(link, rest);
      } else {
        SessionStep(link, first, WithoutAgain(rest));
      }
    }
  }

  lemma AgainChangesNothing(link: Link)
    ensures Receive(link, Again, []).link == link && Receive(link, Again, []).status != MessageReady
  {
  }

  /** After a close or a failure nothing is delivered any more. */
  lemma {:induction false} DeadLinkIsSilent(link: Link, inputs: seq<Received>)
    requires !link.live
    ensures Session(link, inputs) == [] && After(link, inputs) == link
  {
    if inputs != [] { DeadLinkIsSilent(link, inputs[1..]); }
  }

  // ---------- When messages arrive whole ----------

  /** Nothing but empty fragments comes before a control frame inside the message. */
  predicate LosesNothing(parts: seq<Part>) {
    forall i, j :: 0 <= i < j < |parts| && parts[i].Fragment? && parts[j].Control? ==> Flat(parts[i].chunks) == []
  }

  predicate AllWhole(items: seq<Item>) {
    forall i :: 0 <= i < |items| && items[i].Message? ==> LosesNothing(items[i].parts)
  }

  predicate HasControl(parts: seq<Part>) { exists j :: 0 <= j < |parts| && parts[j].Control? }

  lemma Assoc(a: seq<int>, b: seq<int>, c: seq<int>)
    ensures (a + b) + c == a + (b + c)
  {
  }

  lemma {:induction false} NoControlKeepsAll(held: seq<int>, parts: seq<Part>)
    requires !HasControl(parts)
    ensures Kept(held, parts) == held + Payload(parts)
    decreases |parts|
  {
    hide Flat, HasControl, LosesNothing;
    NoParts(held);
    if parts != [] {
      LosesStep(parts);
      Assoc(held, Flat(parts[0].chunks), Payload(parts[1..]));
      NoControlKeepsAll(held + Flat(parts[0].chunks), parts[1..]);
    }
  }

  lemma NoParts(held: seq<int>)
    ensures Kept(held, []) == held + Payload([])
  {
  }

  lemma KeptWithControl(held: seq<int>, parts: seq<Part>)
    requires HasControl(parts)
    ensures Kept(held, parts) == Kept([], parts)
    ensures |Kept([], parts)| <= |Payload(parts)|
    ensures |Kept([], parts)| == |Payload(parts)| <==> LosesNothing(parts)
    decreases |parts|
  {
    hide Flat;
    var rest := parts[1..];
    var first := if parts[0].Control? then [] else Flat(parts[0].chunks);
    LosesStep(parts);
    if HasControl(rest) {
      KeptWithControl(first, rest);
      KeptWithControl(held + first, rest);
      assert [] + first == first;
    } else {
      assert parts[0].Control?;
      NoControlKeepsAll([], rest);
      assert [] + Payload(rest) == Payload(rest);
    }
  }

  lemma LosesStep(parts: seq<Part>)
    requires parts != []
    ensures HasControl(parts) <==> parts[0].Control? || HasControl(parts[1..])
    ensures LosesNothing(parts) <==>
      LosesNothing(parts[1..]) && (parts[0].Fragment? && HasControl(parts[1..]) ==> Flat(parts[0].chunks) == [])
    ensures !HasControl(parts[1..]) ==> LosesNothing(parts[1..])
  {
    hide Flat;
    var rest := parts[1..];
    assert forall j :: 0 <= j < |rest| ==> rest[j] == parts[j + 1];
    assert forall j :: 1 <= j < |parts| ==> parts[j] == rest[j - 1];
  }

  /** The part that is kept is a tail of the payload, and all of it exactly if nothing stood before a control frame. */
  lemma KeptExactly(parts: seq<Part>)
    ensures |Kept([], parts)| <= |Payload(parts)|
    ensures |Kept([], parts)| == |Payload(parts)| <==> LosesNothing(parts)
    ensures LosesNothing(parts) ==> Kept([], parts) == Payload(parts)
  {
    if HasControl(parts) {
      KeptWithControl([], parts);
      if LosesNothing(parts) { KeptIsPayload(parts); }
    } else {
      NoControlKeepsAll([], parts);
      assert [] + Payload(parts) == Payload(parts);
    }
  }

  /** One part taken off: what the collector keeps, and what was sent. */
  lemma PartStep(parts: seq<Part>)
    requires parts != []
    ensures var first := if parts[0].Control? then [] else Flat(parts[0].chunks);
            Kept([], parts) == Kept(first, parts[1..]) && Payload(parts) == first + Payload(parts[1..])
  {
    hide Flat;
    var first := Flat(parts[0].chunks);
    assert [] + first == first;
  }

  lemma {:induction false} KeptIsPayload(parts: seq<Part>)
    requires LosesNothing(parts)
    ensures Kept([], parts) == Payload(parts)
  {
    hide Flat, LosesNothing, HasControl;
    if parts != [] {
      var first := if parts[0].Control? then [] else Flat(parts[0].chunks);
      LosesStep(parts);
      PartStep(parts);
      hide Kept, Payload;
      KeptIsPayload(parts[1..]);
      if first == [] {
        assert first + Payload(parts[1..]) == Payload(parts[1..]);
      } else {
        NoControlKeepsAll(first, parts[1..]);
      }
    }
  }

  function Size(s: seq<seq<int>>): nat { if s == [] then 0 else |s[0]| + Size(s[1..]) }

  lemma {:induction false} SizeNonEmpty(s: seq<seq<int>>)
    ensures Size(NonEmpty(s)) == Size(s)
  {
    if s != [] {
      SizeNonEmpty(s[1..]);
      if s[0] != [] {
        assert NonEmpty(s) == [s[0]] + NonEmpty(s[1..]);
        assert NonEmpty(s)[1..] == NonEmpty(s[1..]);
      } else {
        assert NonEmpty(s) == NonEmpty(s[1..]);
      }
    }
  }

  lemma {:induction false} ResultsSize(items: seq<Item>)
    ensures Size(Results([], items)) <= Size(Sent(items))
    ensures Size(Results([], items)) == Size(Sent(items)) <==> AllWhole(items)
    ensures AllWhole(items) ==> Results([], items) == Sent(items)
  {
    hide Kept, Payload, Flat, LosesNothing;
    if items != [] {
      var first, rest := items[0], items[1..];
      ResultsSize(rest);
      assert AllWhole(items) <==> AllWhole(rest) && (first.Message? ==> LosesNothing(first.parts)) by {
        assert forall i :: 0 <= i < |rest| ==> rest[i] == items[i + 1];
        assert forall i :: 1 <= i < |items| ==> items[i] == rest[i - 1];
      }
      if first.Message? {
        KeptExactly(first.parts);
        assert Results([], items)[1..] == Results([], rest) && Sent(items)[1..] == Sent(rest);
      }
    }
  }

  /**
   A session that starts with an empty buffer returns exactly the non-empty messages, whole and
   in order, if and only if no control frame inside a message has payload of that message before it.
   */
  lemma MessagesWholeExactly(items: seq<Item>, inputs: seq<Received>)
    requires IsStream(items) && WithoutAgain(inputs) == Wire(items)
    ensures Session(Link(true, []), inputs) == NonEmpty(Sent(items)) <==> AllWhole(items)
    ensures After(Link(true, []), inputs) == Link(true, [])
  {
    hide Session, After, Wire, Results, Sent, NonEmpty, AllWhole;
    StallsDoNotMatter(Link(true, []), inputs);
    SessionDelivers([], items);
    ResultsSize(items);
    SizeNonEmpty(Results([], items));
    SizeNonEmpty(Sent(items));
  }

  /** The caller's condition in plain form: no control frame inside a message. */
  lemma NoInnerControl(items: seq<Item>)
    requires forall i :: 0 <= i < |items| && items[i].Message? ==> !HasControl(items[i].parts)
    ensures AllWhole(items)
  {
    forall i | 0 <= i < |items| && items[i].Message? ensures LosesNothing(items[i].parts) {
      assert !HasControl(items[i].parts);
    }
  }
}

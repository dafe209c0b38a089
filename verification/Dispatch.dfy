/**
 The de-duplicating dispatcher of src/client.cpp: `remember_id`, `dispatch_message`
 and `process_fetch_result`.  Both transports call it under one mutex, so every
 interleaving of the two is one sequence of arrivals here.
 */
module Dispatch {

  const MAX_SEEN_IDS: nat := 500000

  datatype Message = Message(id: int, liveEnd: bool)

  // ---------- What is delivered, as a function of what was delivered before ----------

  /** The nonzero ids delivered, in order; id 0 is never remembered. */
  function Ids(delivered: seq<Message>): seq<int> {
    if delivered == [] then []
    else
      var m := delivered[|delivered| - 1];
      Ids(delivered[..|delivered| - 1]) + (if m.id == 0 then [] else [m.id])
  }

  /** The bounded memory: the last `cap` delivered ids. */
  function Window(ids: seq<int>, cap: nat): (w: seq<int>)
    ensures |w| <= cap
  {
    if |ids| <= cap then ids else ids[|ids| - cap..]
  }

  function Deliver(delivered: seq<Message>, m: Message, cap: nat): seq<Message> {
    if m.id != 0 && m.id in Window(Ids(delivered), cap) then delivered else delivered + [m]
  }

  function Delivered(before: seq<Message>, arrivals: seq<Message>, cap: nat): seq<Message> {
    if arrivals == [] then before
    else Deliver(Delivered(before, arrivals[..|arrivals| - 1], cap), arrivals[|arrivals| - 1], cap)
  }

  lemma IdsSnoc(delivered: seq<Message>, m: Message)
    ensures Ids(delivered + [m]) == if m.id == 0 then Ids(delivered) else Ids(delivered) + [m.id]
  {
    assert (delivered + [m])[..|delivered|] == delivered;
  }

  // ---------- The dispatcher ----------

  predicate Distinct(s: seq<int>) { forall i, j :: 0 <= i < j < |s| ==> s[i] != s[j] }

  function Elements(s: seq<int>): set<int> { set x | x in s }

  class Dispatcher {
    var seenIds: set<int>
    var seenOrder: seq<int>
    var liveEnded: bool
    ghost var delivered: seq<Message>   // every message emitted so far

    /** The set and the queue hold the same distinct ids: the last MAX_SEEN_IDS delivered. */
    ghost predicate Valid()
      reads this
    {
      && seenIds == Elements(seenOrder)
      && Distinct(seenOrder)
      && seenOrder == Window(Ids(delivered), MAX_SEEN_IDS)
    }

    constructor ()
      ensures Valid() && delivered == [] && !liveEnded
    {
      seenIds, seenOrder, liveEnded, delivered := {}, [], false, [];
    }

    method RememberId(id: int)
      requires seenIds == Elements(seenOrder) && Distinct(seenOrder) && id !in seenIds
      requires |seenOrder| <= MAX_SEEN_IDS
      modifies `seenIds, `seenOrder
      ensures seenIds == Elements(seenOrder) && Distinct(seenOrder)
      ensures seenOrder == Window(old(seenOrder) + [id], MAX_SEEN_IDS)
    {
      seenIds := seenIds + {id};
      seenOrder := seenOrder + [id];
      assert Distinct(seenOrder);
      ElementsSnoc(old(seenOrder), id);
      if |seenOrder| > MAX_SEEN_IDS {
        ElementsFront(seenOrder);
        seenIds := seenIds - {seenOrder[0]};
        seenOrder := seenOrder[1..];
      }
    }

    /** Emits the message unless its id is remembered; true if it ended the LIVE. */
    method DispatchMessage(msg: Message) returns (ended: bool)
      requires Valid()
      modifies this
      ensures Valid() && delivered == Deliver(old(delivered), msg, MAX_SEEN_IDS)
      ensures ended <==> delivered != old(delivered) && msg.liveEnd
      ensures liveEnded <==> old(liveEnded) || ended
    {
      hide Ids, Window, Distinct;
      if msg.id != 0 {
        if msg.id in seenIds { return false; }
        WindowSize(Ids(delivered), MAX_SEEN_IDS);
        RememberId(msg.id);
        WindowSnoc(Ids(delivered), msg.id, MAX_SEEN_IDS);
      }
      IdsSnoc(delivered, msg);
      delivered := delivered + [msg];
      assert |delivered| > |old(delivered)|;
      if msg.liveEnd {
        liveEnded := true;
        return true;
      }
      return false;
    }

    /** Dispatches a whole batch, also past a message that ends the LIVE. */
    method ProcessFetchResult(messages: seq<Message>) returns (ended: bool)
      requires Valid()
      modifies this
      ensures Valid() && delivered == Delivered(old(delivered), messages, MAX_SEEN_IDS)
      ensures liveEnded <==> old(liveEnded) || ended
    {
      ended := false;
      for i := 0 to |messages|
        invariant Valid() && delivered == Delivered(old(delivered), messages[..i], MAX_SEEN_IDS)
        invariant liveEnded <==> old(liveEnded) || ended
      {
        assert messages[..i + 1][..i] == messages[..i];
        var e := DispatchMessage(messages[i]);
        if e { ended := true; }
      }
      assert messages[..|messages|] == messages;
    }
  }

  lemma ElementsSnoc(s: seq<int>, x: int)
    ensures Elements(s + [x]) == Elements(s) + {x}
  {
  }

  lemma ElementsFront(s: seq<int>)
    requires s != [] && Distinct(s)
    ensures Elements(s[1..]) == Elements(s) - {s[0]}
  {
    forall x | x in Elements(s) - {s[0]} ensures x in s[1..] {
      var i :| 0 <= i < |s| && s[i] == x;
      assert s[1..][i - 1] == x;
    }
  }

  lemma WindowSize(ids: seq<int>, cap: nat)
    ensures |Window(ids, cap)| <= cap
  {
  }

  lemma WindowSnoc(ids: seq<int>, id: int, cap: nat)
    ensures Window(Window(ids, cap) + [id], cap) == Window(ids + [id], cap)
  {
  }

  // ---------- What the bounded memory guarantees ----------

  /** Any cap + 1 consecutive ids are pairwise distinct. */
  ghost predicate Spaced(ids: seq<int>, cap: nat) {
    forall i, j :: 0 <= i < j < |ids| && j - i <= cap ==> ids[i] != ids[j]
  }

  lemma {:induction false} DeliveredSpaced(before: seq<Message>, arrivals: seq<Message>, cap: nat)
    requires Spaced(Ids(before), cap)
    ensures Spaced(Ids(Delivered(before, arrivals, cap)), cap)
  {
    if arrivals != [] {
      var front, m := arrivals[..|arrivals| - 1], arrivals[|arrivals| - 1];
      DeliveredSpaced(before, front, cap);
      var d := Delivered(before, front, cap);
      IdsSnoc(d, m);
      if m.id != 0 && m.id !in Window(Ids(d), cap) { NotRecent(Ids(d), cap, m.id); }
    }
  }

  lemma NotRecent(ids: seq<int>, cap: nat, id: int)
    requires id !in Window(ids, cap) && Spaced(ids, cap)
    ensures Spaced(ids + [id], cap)
  {
    forall i | 0 <= i < |ids| && |ids| - i <= cap ensures ids[i] != id {
      assert Window(ids, cap)[i - (|ids| - |Window(ids, cap)|)] == ids[i];
    }
  }

  /**
   A nonzero id is delivered again only after at least `cap` other, pairwise distinct
   ids were delivered in between.
   */
  lemma RepeatAfterCapOthers(arrivals: seq<Message>, cap: nat, i: nat, j: nat)
    requires i < j < |Ids(Delivered([], arrivals, cap))|
    requires Ids(Delivered([], arrivals, cap))[i] == Ids(Delivered([], arrivals, cap))[j]
    ensures var ids := Ids(Delivered([], arrivals, cap));
      && j - i > cap
      && |Elements(ids[j - cap..j])| == cap && ids[j] !in ids[j - cap..j]
  {
    DeliveredSpaced([], arrivals, cap);
    var ids := Ids(Delivered([], arrivals, cap));
    var between := ids[j - cap..j];
    DistinctCardinality(between);
    assert forall k :: j - cap <= k < j ==> ids[k] != ids[j];
  }

  lemma {:induction false} DistinctCardinality(s: seq<int>)
    requires Distinct(s)
    ensures |Elements(s)| == |s|
  {
    if s != [] {
      DistinctCardinality(s[1..]);
      ElementsFront(s);
      assert s[0] in Elements(s);
    }
  }

  /** One of the last `cap` ids is this one. */
  predicate IsRecent(ids: seq<int>, cap: nat, id: int) { exists k :: 0 <= k < |ids| && |ids| - cap <= k && ids[k] == id }

  /** A message is held back exactly if it has an id that is among the last `cap` delivered. */
  lemma DroppedExactly(arrivals: seq<Message>, m: Message, cap: nat)
    ensures var before := Delivered([], arrivals, cap);
      Delivered([], arrivals + [m], cap) == if m.id != 0 && IsRecent(Ids(before), cap, m.id) then before else before + [m]
  {
    hide Ids, IsRecent, Window;
    assert (arrivals + [m])[..|arrivals|] == arrivals && (arrivals + [m])[|arrivals|] == m;
    WindowHolds(Ids(Delivered([], arrivals, cap)), cap, m.id);
  }

  lemma WindowHolds(ids: seq<int>, cap: nat, id: int)
    ensures id in Window(ids, cap) <==> IsRecent(ids, cap, id)
  {
    var from := if |ids| <= cap then 0 else |ids| - cap;
    if id in Window(ids, cap) {
      var i :| 0 <= i < |Window(ids, cap)| && Window(ids, cap)[i] == id;
      assert ids[from + i] == id;
    }
    if k :| 0 <= k < |ids| && |ids| - cap <= k && ids[k] == id { assert Window(ids, cap)[k - from] == id; }
  }

  // ---------- Agreement with the unbounded filter ----------

  /** The unbounded filter the memory stands in for: a nonzero id passes once, id 0 always. */
  function FirstOccurrences(arrivals: seq<Message>): seq<Message> {
    if arrivals == [] then []
    else
      var front, m := arrivals[..|arrivals| - 1], arrivals[|arrivals| - 1];
      FirstOccurrences(front) + (if m.id != 0 && m.id in IdSet(front) then [] else [m])
  }

  function IdSet(messages: seq<Message>): set<int> { set m | m in messages && m.id != 0 :: m.id }

  lemma {:induction false} FirstOccurrenceIds(arrivals: seq<Message>)
    ensures Distinct(Ids(FirstOccurrences(arrivals)))
    ensures Elements(Ids(FirstOccurrences(arrivals))) == IdSet(arrivals)
  {
    if arrivals != [] {
      hide IdSet, Ids, Distinct, Elements;
      var front, m := arrivals[..|arrivals| - 1], arrivals[|arrivals| - 1];
      FirstOccurrenceIds(front);
      assert arrivals == front + [m];
      IdSetSnoc(front, m);
      var kept := FirstOccurrences(front);
      if m.id == 0 || m.id !in IdSet(front) {
        assert FirstOccurrences(arrivals) == kept + [m];
        IdsSnoc(kept, m);
        ElementsSnoc(Ids(kept), m.id);
        DistinctSnoc(Ids(kept), m.id);
      } else {
        assert FirstOccurrences(arrivals) == kept;
      }
    }
  }

  lemma DistinctSnoc(s: seq<int>, x: int)
    requires Distinct(s)
    ensures x !in Elements(s) ==> Distinct(s + [x])
  {
    assert x in s <==> x in Elements(s);
  }

  lemma IdSetSnoc(front: seq<Message>, m: Message)
    ensures IdSet(front + [m]) == IdSet(front) + (if m.id == 0 then {} else {m.id})
  {
    var all := front + [m];
    forall x | x in IdSet(front) ensures x in IdSet(all) {
      var y :| y in front && y.id != 0 && y.id == x;
      assert y in all;
    }
    if m.id != 0 { assert m in all; }
  }

  /**
   With at most `cap` distinct ids the bounded memory is exact: the delivered messages
   are the first occurrences of the arrivals, in order.
   */
  lemma {:induction false} BoundedIsExact(arrivals: seq<Message>, cap: nat)
    requires |IdSet(arrivals)| <= cap
    ensures Delivered([], arrivals, cap) == FirstOccurrences(arrivals)
  {
    if arrivals != [] {
      var front, m := arrivals[..|arrivals| - 1], arrivals[|arrivals| - 1];
      assert arrivals == front + [m];
      IdSetSnoc(front, m);
      SubsetSize(IdSet(front), IdSet(arrivals));
      BoundedIsExact(front, cap);
      FirstOccurrenceIds(front);
      var ids := Ids(FirstOccurrences(front));
      DistinctCardinality(ids);
      assert Window(ids, cap) == ids;
      assert m.id in ids <==> m.id in Elements(ids);
    }
  }

  lemma SubsetSize(a: set<int>, b: set<int>)
    requires a <= b
    ensures |a| <= |b|
  {
    assert b == a + (b - a);
  }

  // ---------- Two transports ----------

  /** c is some interleaving of the arrivals of the two transports. */
  ghost predicate Interleaves(a: seq<Message>, b: seq<Message>, c: seq<Message>)
    decreases |c|
  {
    if c == [] then a == [] && b == []
    else
      var m, front := c[|c| - 1], c[..|c| - 1];
      || (a != [] && a[|a| - 1] == m && Interleaves(a[..|a| - 1], b, front))
      || (b != [] && b[|b| - 1] == m && Interleaves(a, b[..|b| - 1], front))
  }

  lemma {:induction false} InterleavedIds(a: seq<Message>, b: seq<Message>, c: seq<Message>)
    requires Interleaves(a, b, c)
    ensures IdSet(c) == IdSet(a) + IdSet(b)
    decreases |c|
  {
    if c != [] {
      var m, front := c[|c| - 1], c[..|c| - 1];
      assert c == front + [m];
      IdSetSnoc(front, m);
      if a != [] && a[|a| - 1] == m && Interleaves(a[..|a| - 1], b, front) {
        assert a == a[..|a| - 1] + [m];
        InterleavedIds(a[..|a| - 1], b, front);
        IdSetSnoc(a[..|a| - 1], m);
      } else {
        assert b == b[..|b| - 1] + [m];
        InterleavedIds(a, b[..|b| - 1], front);
        IdSetSnoc(b[..|b| - 1], m);
      }
    }
  }

  /** However the two transports interleave, every id either of them carries is delivered exactly once. */
  lemma EachIdOnce(poll: seq<Message>, socket: seq<Message>, arrivals: seq<Message>)
    requires Interleaves(poll, socket, arrivals)
    requires |IdSet(poll) + IdSet(socket)| <= 500000
    ensures var ids := Ids(Delivered([], arrivals, MAX_SEEN_IDS));
      Distinct(ids) && Elements(ids) == IdSet(poll) + IdSet(socket)
  {
    InterleavedIds(poll, socket, arrivals);
    BoundedIsExact(arrivals, MAX_SEEN_IDS);
    FirstOccurrenceIds(arrivals);
  }
}

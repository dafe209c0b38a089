/**
 The Promise engine of js/secsdk-lastest.umd.js as the source writes it: fields updated in place, reactions in
 linked queues.  Each operation, up to the next call of user code, is one move of the transition system of
 Promises, so what holds of all runs of the system holds of the engine.
 */
module PromiseRealm {
  import opened Wrappers
  import opened Promises
  import opened PromiseLaws
  import opened ReactionQueue

  /** The state record of a promise. */
  datatype Record = Record(facade: nat, done: bool, notified: bool, reactions: Queue<Reaction>, status: Status, value: Value)

  /** The record shows this state; what was registered and what has run is history. */
  ghost predicate Shows(r: Record, s: PromiseState)
    reads r.reactions
  {
    && s.facade == r.facade && s.done == r.done && s.notified == r.notified && s.status == r.status && s.value == r.value
    && s.reactions == r.reactions.contents
  }

  ghost function Queues(ps: seq<Record>): set<Queue<Reaction>> { set r | r in ps :: r.reactions }

  ghost function Entries(ps: seq<Record>): set<Entry<Reaction>>
    reads Queues(ps)
  {
    set r, e | r in ps && e in r.reactions.entries :: e
  }

  ghost predicate Linked(ps: seq<Record>, i: nat)
    requires i < |ps|
    reads Queues(ps), Entries(ps)
  {
    assert forall e :: e in ps[i].reactions.entries ==> ps[i] in ps && e in Entries(ps);
    ps[i].reactions.Valid()
  }

  /** Every record has its own queue, and no entry is in two of them. */
  ghost predicate Separate(ps: seq<Record>)
    reads Queues(ps), Entries(ps)
  {
    && (forall i :: 0 <= i < |ps| ==> Linked(ps, i))
    && (forall i, j :: 0 <= i < j < |ps| ==> ps[i].reactions != ps[j].reactions)
    && (forall i, j, e :: 0 <= i < j < |ps| && e in ps[i].reactions.entries ==> e !in ps[j].reactions.entries)
  }

  lemma SameQueues(ps: seq<Record>, qs: seq<Record>)
    requires Separate(ps) && |ps| == |qs| && forall i :: 0 <= i < |ps| ==> qs[i].reactions == ps[i].reactions
    ensures Separate(qs)
  {
    forall i | 0 <= i < |qs| ensures Linked(qs, i) { assert Linked(ps, i); }
  }

  lemma Added(ps: seq<Record>, qs: seq<Record>)
    requires Separate(ps) && |qs| == |ps| + 1 && qs[..|ps|] == ps
    requires var q := qs[|ps|].reactions; q.Valid() && q.entries == [] && q !in Queues(ps)
    ensures Separate(qs)
  {
    forall i | 0 <= i < |qs| ensures Linked(qs, i) {
      if i < |ps| { assert Linked(ps, i) && qs[i] == ps[i]; }
    }
    forall i, j | 0 <= i < j < |qs| ensures qs[i].reactions != qs[j].reactions {
      assert qs[i] == ps[i];
      if j < |ps| { assert qs[j] == ps[j]; } else { assert ps[i] in ps; }
    }
    forall i, j, e | 0 <= i < j < |qs| && e in qs[i].reactions.entries ensures e !in qs[j].reactions.entries {
      assert qs[i] == ps[i];
      if j < |ps| { assert qs[j] == ps[j]; }
    }
  }

  lemma Apart(ps: seq<Record>, p: nat)
    requires Separate(ps) && p < |ps|
    ensures ps[p].reactions.Valid()
    ensures forall i :: 0 <= i < |ps| && i != p ==> ps[i].reactions != ps[p].reactions
    ensures forall i, e :: 0 <= i < |ps| && i != p && e in ps[i].reactions.entries ==> e !in ps[p].reactions.entries
  {
    assert Linked(ps, p);
  }

  /** The queues are the same, and no entry has come to be in two of them. */
  lemma StillApart(ps: seq<Record>, was: seq<seq<Entry<Reaction>>>)
    requires |was| == |ps| && forall i :: 0 <= i < |ps| ==> ps[i].reactions.Valid()
    requires forall i, j :: 0 <= i < j < |ps| ==> ps[i].reactions != ps[j].reactions
    requires forall i, j, e :: 0 <= i < j < |ps| && e in was[i] ==> e !in was[j]
    requires forall i, e :: 0 <= i < |ps| && e in ps[i].reactions.entries ==> e in was[i]
    ensures Separate(ps)
  {
    forall i | 0 <= i < |ps| ensures Linked(ps, i) { }
  }

  /** A queue whose own fields and whose entries' fields are as they were. */
  twostate lemma Untouched(q: Queue<Reaction>)
    requires old(q.Valid()) && q.entries == old(q.entries) && q.contents == old(q.contents)
    requires q.head == old(q.head) && q.tail == old(q.tail)
    requires forall x: Entry<Reaction> :: x in old(q.entries) ==> x.next == old(x.next)
    ensures q.Valid()
  {
  }

  ghost function EntriesOf(ps: seq<Record>): (was: seq<seq<Entry<Reaction>>>)
    reads Queues(ps)
    ensures |was| == |ps| && forall i :: 0 <= i < |ps| ==> was[i] == ps[i].reactions.entries
  {
    if ps == [] then [] else EntriesOf(ps[..|ps| - 1]) + [ps[|ps| - 1].reactions.entries]
  }

  lemma Distinct(ps: seq<Record>, was: seq<seq<Entry<Reaction>>>)
    requires Separate(ps) && was == EntriesOf(ps)
    ensures forall i :: 0 <= i < |ps| ==> ps[i].reactions.Valid()
    ensures forall i, j :: 0 <= i < j < |ps| ==> ps[i].reactions != ps[j].reactions
    ensures forall i, j, e :: 0 <= i < |ps| && 0 <= j < |ps| && i != j && e in was[i] ==> e !in was[j]
  {
    forall i | 0 <= i < |ps| ensures ps[i].reactions.Valid() { assert Linked(ps, i); }
  }

  ghost predicate Reachable(m: Machine) { exists steps :: m == Run(steps) }

  lemma Reaches(m: Machine, step: Step)
    requires Reachable(m)
    ensures Inv(m) && InRange(m) && Reachable(Move(m, step))
  {
    hide Move, Balanced, Ordered;
    var steps :| m == Run(steps);
    var longer := steps + [step];
    assert longer[..|steps|] == steps;
    assert Run(longer) == Move(Run(steps), step);
  }

  /** What starting a microtask does besides taking it from the queue. */
  function Launched(m: Machine, t: Task): Machine
    requires TaskInRange(m, t)
  {
    match t
    case Notify(p) => Push(m, Drain(p))
    case React(p, r) => Begin(m, p, r)
    case Job(p, _) => Push(m.(wrappers := m.wrappers + [Wrapper(false, p)]), Thening(|m.wrappers|))
  }

  lemma StartMove(m: Machine)
    requires InRange(m) && Enabled(m, StartTask)
    ensures m.tasks != []
    ensures var rest := m.(tasks := m.tasks[1..]);
            TaskInRange(rest, m.tasks[0]) && Move(m, StartTask) == Launched(rest, m.tasks[0])
  {
    HeadInRange(m);
    hide InRange;
  }

  /** One turn of the loop over the reactions. */
  function Drained(m: Machine, p: nat): Machine
    requires m.stack != [] && p < |m.promises|
  {
    var ps := m.promises[p];
    if ps.reactions == [] then Pop(m.(promises := m.promises[p := ps.(notified := false)]))
    else Begin(m.(promises := m.promises[p := ps.(reactions := ps.reactions[1..])]), p, ps.reactions[0])
  }

  lemma DrainMove(m: Machine)
    requires InRange(m) && Enabled(m, DrainOne)
    ensures m.stack != [] && Top(m).Drain? && Top(m).p < |m.promises| && Move(m, DrainOne) == Drained(m, Top(m).p)
  {
    TopInRange(m);
    hide InRange;
  }

  lemma LookupMove(m: Machine, lookup: Lookup)
    requires InRange(m) && Enabled(m, FinishLookup(lookup))
    ensures m.stack != [] && Top(m).Resolving? && Top(m).p < |m.promises|
    ensures Move(m, FinishLookup(lookup)) == Resolved(Pop(m), Top(m).p, Top(m).v, lookup)
  {
    TopInRange(m);
    hide InRange, Resolved;
  }

  lemma ReturnMove(m: Machine)
    requires InRange(m) && Enabled(m, CallReturns)
    ensures m.stack != [] && Move(m, CallReturns) == Pop(m)
  {
    hide InRange;
  }

  lemma ThrowMove(m: Machine, e: Value)
    requires InRange(m) && Enabled(m, CallThrows(e))
    ensures m.stack != [] && (Top(m).Thening? || Top(m).CallingThen?)
    ensures var r := if Top(m).Thening? then Wrapped(Top(m).w) else Own(Top(m).d);
            ValidResolver(m, r) && Move(m, CallThrows(e)) == Reject(Pop(m), r, e)
  {
    TopInRange(m);
    hide InRange, Reject;
  }

  class Realm {
    var promises: seq<Record>
    var wrappers: seq<Wrapper>
    var tasks: seq<Task>
    var stack: seq<Frame>
    ghost var view: Machine

    /** The fields show the machine. */
    ghost predicate Shape()
      reads this, Queues(promises), Entries(promises)
    {
      && Separate(promises)
      && |promises| == |view.promises| && (forall i :: 0 <= i < |promises| ==> Shows(promises[i], view.promises[i]))
      && wrappers == view.wrappers && tasks == view.tasks && stack == view.stack
    }

    /** They show what some run of the system comes to. */
    ghost predicate Valid()
      reads this, Queues(promises), Entries(promises)
    {
      Shape() && Reachable(view)
    }

    /** The records have settled just as the step says, from what they were. */
    ghost predicate RecordsSettle(m: Machine, was: seq<Record>, step: Step)
      reads this
    {
      && |was| == |m.promises| <= |promises|
      && forall p :: 0 <= p < |was| ==>
           match Settlement(m, step, p)
           case None => promises[p].status == was[p].status && promises[p].value == was[p].value
           case Some(x) => promises[p].status == x.status && promises[p].value == x.value
    }

    twostate lemma RecordsSettled(step: Step)
      requires old(Shape()) && InRange(old(view)) && Shape() && view == Move(old(view), step)
      ensures RecordsSettle(old(view), old(promises), step)
    {
      hide Move, Settlement, InRange, Separate;
      StillThere(old(view), step);
      forall p | 0 <= p < |old(promises)|
        ensures match Settlement(old(view), step, p)
                case None => promises[p].status == old(promises)[p].status && promises[p].value == old(promises)[p].value
                case Some(x) => promises[p].status == x.status && promises[p].value == x.value
      {
        assert old(Shows(promises[p], view.promises[p])) && Shows(promises[p], view.promises[p]);
        MoveSettles(old(view), step, p);
      }
    }

    constructor ()
      ensures Valid() && view == EMPTY
    {
      promises, wrappers, tasks, stack := [], [], [], [];
      view := EMPTY;
      new;
      assert EMPTY == Run([]);
    }

    /** Assigns to fields of one record; its queue stays. */
    method Assign(p: nat, r: Record, ghost s: PromiseState)
      requires p < |promises| && Shape() && r.reactions == promises[p].reactions && Shows(r, s)
      modifies `promises, `view
      ensures Shape() && promises == old(promises[p := r])
      ensures view == old(view).(promises := old(view).promises[p := s])
    {
      ghost var before := promises;
      label L:
      promises := promises[p := r];
      view := view.(promises := view.promises[p := s]);
      assert Separate(before) by {
        assert unchanged@L(Queues(before)) && unchanged@L(old@L(Entries(before)));
      }
      SameQueues(before, promises);
      forall i | 0 <= i < |promises| ensures Shows(promises[i], view.promises[i]) {
        if i != p { assert view.promises[i] == old(view).promises[i] && promises[i] == before[i]; }
      }
    }

    /** The tasks, the stack and the wrappers are no part of the promises. */
    twostate lemma Still()
      requires old(Shape()) && promises == old(promises) && view.promises == old(view).promises
      requires unchanged(Queues(promises)) && unchanged(old(Entries(promises)))
      requires wrappers == view.wrappers && tasks == view.tasks && stack == view.stack
      ensures Shape()
    {
      assert Separate(promises);
      assert forall i :: 0 <= i < |promises| ==> old(Shows(promises[i], view.promises[i]));
    }

    /** A new microtask. */
    method Enqueue(t: Task)
      requires Shape()
      modifies `tasks, `view
      ensures Shape() && view == old(view).(tasks := old(view).tasks + [t])
    {
      label L:
      tasks := tasks + [t];
      view := view.(tasks := view.tasks + [t]);
      Still@L();
    }

    method TakeTask() returns (t: Task)
      requires Shape() && tasks != []
      modifies `tasks, `view
      ensures Shape() && t == old(view).tasks[0] && view == old(view).(tasks := old(view).tasks[1..])
    {
      label L:
      t := tasks[0];
      tasks := tasks[1..];
      view := view.(tasks := view.tasks[1..]);
      Still@L();
    }

    method Enter(f: Frame)
      requires Shape()
      modifies `stack, `view
      ensures Shape() && view == Push(old(view), f)
    {
      label L:
      stack := stack + [f];
      view := Push(view, f);
      Still@L();
    }

    method Leave() returns (f: Frame)
      requires Shape() && stack != []
      modifies `stack, `view
      ensures Shape() && f == Top(old(view)) && view == Pop(old(view))
    {
      label L:
      f := stack[|stack| - 1];
      stack := stack[..|stack| - 1];
      view := Pop(view);
      Still@L();
    }

    /** The record that guards one call of a thenable. */
    method NewWrapper(target: nat) returns (w: nat)
      requires Shape()
      modifies `wrappers, `view
      ensures Shape() && w == |old(view).wrappers|
      ensures view == old(view).(wrappers := old(view).wrappers + [Wrapper(false, target)])
    {
      label L:
      w := |wrappers|;
      wrappers := wrappers + [Wrapper(false, target)];
      view := view.(wrappers := view.wrappers + [Wrapper(false, target)]);
      Still@L();
    }

    method MarkWrapper(w: nat)
      requires Shape() && w < |wrappers|
      modifies `wrappers, `view
      ensures Shape() && view == old(view).(wrappers := old(view).wrappers[w := old(view).wrappers[w].(done := true)])
    {
      label L:
      wrappers := wrappers[w := wrappers[w].(done := true)];
      view := view.(wrappers := view.wrappers[w := view.wrappers[w].(done := true)]);
      Still@L();
    }

    /** A promise that is pending, with an empty queue. */
    method NewPromise() returns (p: nat)
      requires Shape()
      modifies `promises, `view
      ensures Shape() && p == |old(promises)| == |old(view).promises| && |promises| == p + 1 && promises[..p] == old(promises)
      ensures view == old(view).(promises := old(view).promises + [FreshState(p)])
    {
      label L:
      p := |promises|;
      var q := new Queue<Reaction>();
      ghost var before := promises;
      promises := promises + [Record(p, false, false, q, Pending, Undefined)];
      view := view.(promises := view.promises + [FreshState(p)]);
      assert Separate(before) by {
        assert unchanged@L(Queues(before)) && unchanged@L(old@L(Entries(before)));
      }
      Added(before, promises);
      forall i | 0 <= i < |promises| ensures Shows(promises[i], view.promises[i]) {
        if i < p { assert view.promises[i] == old(view).promises[i] && promises[i] == before[i]; }
      }
    }

    /** reactions.add: the other queues and their entries stay as they are. */
    method Link(p: nat, r: Reaction)
      requires Separate(promises) && p < |promises|
      modifies promises[p].reactions, promises[p].reactions.entries
      ensures Separate(promises) && promises[p].reactions.contents == old(promises[p].reactions.contents) + [r]
      ensures forall i :: 0 <= i < |promises| && i != p ==> promises[i].reactions.contents == old(promises[i].reactions.contents)
    {
      Apart(promises, p);
      ghost var was := EntriesOf(promises);
      Distinct(promises, was);
      label L:
      hide Separate, Queues, Entries, Linked, EntriesOf, Queue.Valid;
      promises[p].reactions.Add(r);
      ghost var e :| fresh@L(e) && promises[p].reactions.entries == was[p] + [e];
      forall i | 0 <= i < |promises| && i != p
        ensures promises[i].reactions.Valid() && promises[i].reactions.entries == was[i]
        ensures promises[i].reactions.contents == old@L(promises[i].reactions.contents)
      {
        var q := promises[i].reactions;
        assert old@L(q.Valid());
        assert q.entries == was[i] && q.contents == old@L(q.contents) && q.head == old@L(q.head) && q.tail == old@L(q.tail);
        forall x: Entry<Reaction> | x in was[i] ensures x.next == old@L(x.next) { assert x !in was[p]; }
        Untouched@L(q);
      }
      ghost var now := was[p := was[p] + [e]];
      forall i, j, x | 0 <= i < |now| && 0 <= j < |now| && i != j && x in now[i] ensures x !in now[j] { }
      StillApart(promises, now);
    }

    /** reactions.get */
    method Unlink(p: nat) returns (r: Option<Reaction>)
      requires Separate(promises) && p < |promises|
      modifies promises[p].reactions
      ensures Separate(promises)
      ensures var was := old(promises[p].reactions.contents);
              if was == [] then r == None && promises[p].reactions.contents == []
              else r == Some(was[0]) && promises[p].reactions.contents == was[1..]
      ensures forall i :: 0 <= i < |promises| && i != p ==> promises[i].reactions.contents == old(promises[i].reactions.contents)
    {
      Apart(promises, p);
      ghost var was := EntriesOf(promises);
      Distinct(promises, was);
      label L:
      hide Separate, Queues, Entries, Linked, EntriesOf;
      r := promises[p].reactions.Get();
      forall i | 0 <= i < |promises| && i != p
        ensures promises[i].reactions.Valid() && promises[i].reactions.entries == was[i]
        ensures promises[i].reactions.contents == old@L(promises[i].reactions.contents)
      {
        assert old@L(promises[i].reactions.Valid());
      }
      StillApart(promises, was);
    }

    /** The queue of p shows what the view now says of p; nothing else has changed. */
    twostate lemma Written(p: nat)
      requires old(Shape()) && promises == old(promises) && p < |promises| && Separate(promises)
      requires wrappers == view.wrappers && tasks == view.tasks && stack == view.stack && |view.promises| == |promises|
      requires forall i :: 0 <= i < |promises| && i != p ==>
        promises[i].reactions.contents == old(promises[i].reactions.contents) && view.promises[i] == old(view).promises[i]
      requires Shows(promises[p], view.promises[p])
      ensures Shape()
    {
      hide Separate;
      forall i | 0 <= i < |promises| ensures Shows(promises[i], view.promises[i]) {
        if i != p { assert old(Shows(promises[i], view.promises[i])); }
      }
    }

    ghost method Look(m: Machine)
      requires Separate(promises)
      modifies `view
      ensures Separate(promises) && view == m
    {
      label L:
      view := m;
      assert unchanged@L(Queues(promises)) && unchanged@L(old@L(Entries(promises)));
    }

    method AddReaction(p: nat, r: Reaction)
      requires Shape() && p < |promises|
      modifies `view, promises[p].reactions, promises[p].reactions.entries
      ensures Shape()
      ensures var ps := old(view).promises[p];
              view == old(view).(promises := old(view).promises[p := ps.(reactions := ps.reactions + [r])])
    {
      label L:
      hide Separate, Queues, Entries;
      ghost var ps := view.promises[p];
      assert Shows(promises[p], ps);
      Link(p, r);
      Look(view.(promises := view.promises[p := ps.(reactions := ps.reactions + [r])]));
      Written@L(p);
    }

    method TakeReaction(p: nat) returns (r: Option<Reaction>)
      requires Shape() && p < |promises|
      modifies `view, promises[p].reactions
      ensures Shape()
      ensures var ps := old(view).promises[p];
              if ps.reactions == [] then r == None && view == old(view)
              else && r == Some(ps.reactions[0])
                   && view == old(view).(promises := old(view).promises[p := ps.(reactions := ps.reactions[1..])])
    {
      label L:
      hide Separate, Queues, Entries;
      ghost var ps := view.promises[p];
      assert Shows(promises[p], ps);
      r := Unlink(p);
      if r.Some? { Look(view.(promises := view.promises[p := ps.(reactions := ps.reactions[1..])])); }
      Written@L(p);
    }

    // ---------- notify, internalReject and internalResolve ----------

    method NotifyReactions(p: nat)
      requires p < |promises| && Shape()
      modifies this
      ensures Shape() && view == Notified(old(view), p)
    {
      if promises[p].notified { return; }
      Assign(p, promises[p].(notified := true), view.promises[p].(notified := true));
      Enqueue(Task.Notify(p));
    }

    /** True if the resolver was still live; it no longer is. */
    method Claim(r: Resolver) returns (live: bool)
      requires Shape() && ValidResolver(view, r)
      modifies this
      ensures Shape() && live == !IsDone(old(view), r)
      ensures view == if live then MarkDone(old(view), r) else old(view)
    {
      match r {
        case Own(p) =>
          if promises[p].done { return false; }
          Assign(p, promises[p].(done := true), view.promises[p].(done := true));
        case Wrapped(w) =>
          if wrappers[w].done { return false; }
          MarkWrapper(w);
      }
      return true;
    }

    /** The promise a resolver settles. */
    method Unwrap(r: Resolver) returns (p: nat)
      requires Shape() && ValidResolver(view, r)
      ensures Shape() && p == Target(view, r) && p < |promises|
    {
      match r {
        case Own(q) => p := q;
        case Wrapped(w) => p := wrappers[w].target;
      }
    }

    method SettleAs(p: nat, status: Status, v: Value)
      requires p < |promises| && Shape()
      modifies this
      ensures Shape() && view == Settle(old(view), p, status, v)
    {
      hide Shape;
      Assigned(p);
      ghost var s := view.promises[p];
      Assign(p, promises[p].(value := v), s.(value := v));
      Assigned(p);
      Assign(p, promises[p].(status := status), s.(value := v, status := status));
      assert view == old(view).(promises := old(view).promises[p := s.(status := status, value := v)]);
      Assigned(p);
      NotifyReactions(p);
    }

    lemma Assigned(p: nat)
      requires Shape() && p < |promises|
      ensures Shows(promises[p], view.promises[p]) && |view.promises| == |promises|
    {
    }

    method InternalReject(r: Resolver, v: Value)
      requires Shape() && ValidResolver(view, r)
      modifies this
      ensures Shape() && view == Reject(old(view), r, v)
    {
      hide Shape, Settle;
      var live := Claim(r);
      if !live { return; }
      Marked(old(view), r);
      var p := Unwrap(r);
      SettleAs(p, Rejected, v);
    }

    lemma Marked(m: Machine, r: Resolver)
      requires ValidResolver(m, r)
      ensures ValidResolver(MarkDone(m, r), r) && Target(MarkDone(m, r), r) == Target(m, r)
    {
    }

    /** Up to the reading of `then`, which runs a getter: resolving a promise with itself rejects it. */
    method InternalResolve(r: Resolver, v: Value)
      requires Shape() && ValidResolver(view, r)
      modifies this
      ensures Shape() && view == Resolve(old(view), r, v)
    {
      hide Shape, Settle;
      var live := Claim(r);
      if !live { return; }
      Marked(old(view), r);
      var p := Unwrap(r);
      if v == PromiseValue(p) {
        SettleAs(p, Rejected, TypeErrorValue);
      } else {
        Enter(Resolving(p, v));
      }
    }

    /** The rest: a thenable is called by a microtask of its own. */
    method FinishResolve(p: nat, v: Value, lookup: Lookup)
      requires p < |promises| && Shape()
      modifies this
      ensures Shape() && view == Resolved(old(view), p, v, lookup)
    {
      hide Shape, Settle;
      match lookup {
        case NotThenable => SettleAs(p, Fulfilled, v);
        case Thenable => Enqueue(Job(p, v));
        case GetterThrows(e) => SettleAs(p, Rejected, e);
      }
    }

    // ---------- then and callReaction ----------

    method Then(p: nat, ok: bool, fail: bool) returns (derived: nat)
      requires p < |promises| && Shape()
      modifies this, promises[p].reactions, promises[p].reactions.entries
      ensures Shape() && derived == |old(view).promises| && view == Registered(old(view), p, ok, fail)
    {
      hide Shape;
      Assigned(p);
      ghost var q := promises[p].reactions;
      derived := NewPromise();
      assert promises[p] == promises[..derived][p] && promises[p].reactions == q;
      Assigned(p);
      Assigned(derived);
      var reaction := Reaction(derived, ok, fail);
      ghost var s := view.promises[p];
      Assign(p, promises[p], s.(registered := s.registered + [reaction]));
      Assigned(p);
      if promises[p].status == Pending {
        AddReaction(p, reaction);
      } else {
        Enqueue(React(p, reaction));
      }
    }

    /** callReaction, up to the call of the handler. */
    method CallReaction(p: nat, r: Reaction)
      requires p < |promises| && Shape()
      modifies this
      ensures Shape() && view == Begin(old(view), p, r)
    {
      hide Shape;
      Assigned(p);
      ghost var s := view.promises[p];
      Assign(p, promises[p], s.(ran := s.ran + [r]));
      Enter(Reacting(p, r));
    }

    /** callReaction once the handler has given `v`, or passed the value of the promise on. */
    method HandlerGave(d: nat, v: Value, lookup: Lookup)
      requires d < |promises| && Shape()
      modifies this
      ensures Shape() && view == AfterHandler(old(view), d, v, lookup)
    {
      hide Shape, Resolve, Reject;
      Assigned(d);
      if v == PromiseValue(d) {
        InternalReject(Own(d), TypeErrorValue);
      } else {
        match lookup {
          case NotThenable => InternalResolve(Own(d), v);
          case Thenable => Enter(CallingThen(d));
          case GetterThrows(e) => InternalReject(Own(d), e);
        }
      }
    }

    /** The rest of callReaction: a missing handler passes the value on, or the rejection. */
    method FinishCall(v: Value, lookup: Lookup)
      requires Shape() && InRange(view) && stack != [] && stack[|stack| - 1].Reacting?
      modifies this
      ensures Shape() && view == FinishReaction(old(view), v, lookup)
    {
      ghost var m := view;
      TopInRange(m);
      var f := Leave();
      Assigned(f.p);
      hide Shape, AfterHandler, Reject, InRange;
      var value := promises[f.p].value;
      if promises[f.p].status == Fulfilled {
        HandlerGave(f.r.derived, if f.r.ok then v else value, lookup);
      } else if f.r.fail {
        HandlerGave(f.r.derived, v, lookup);
      } else {
        InternalReject(Own(f.r.derived), value);
      }
    }

    /** An exception of a handler rejects the derived promise; a missing handler throws none. */
    method FailCall(e: Value)
      requires Shape() && InRange(view) && stack != [] && stack[|stack| - 1].Reacting?
      modifies this
      ensures Shape() && view == ThrowReaction(old(view), e)
    {
      var f := stack[|stack| - 1];
      TopInRange(view);
      Assigned(f.p);
      var ok := promises[f.p].status == Fulfilled;
      if (ok && f.r.ok) || (!ok && f.r.fail) {
        f := Leave();
        hide Shape, Reject, InRange;
        InternalReject(Own(f.r.derived), e);
      }
    }

    // ---------- Microtasks ----------

    method Launch(task: Task)
      requires Shape() && TaskInRange(view, task)
      modifies this
      ensures Shape() && view == Launched(old(view), task)
    {
      hide Shape;
      Sized();
      match task {
        case Notify(p) => Enter(Drain(p));
        case React(p, r) => CallReaction(p, r);
        case Job(p, _) =>
          var w := NewWrapper(p);
          Enter(Thening(w));
      }
    }

    /** The next microtask: a notification, a late reaction, or the call of a thenable under a wrapper of its own. */
    method StartMicrotask()
      requires Valid() && Enabled(view, StartTask)
      modifies this
      ensures Valid() && view == Move(old(view), StartTask)
      ensures RecordsSettle(old(view), old(promises), StartTask)
    {
      label L:
      hide Shape, Inv, Run, Reachable, Move, InRange, Launched, Enabled;
      Reaches(view, StartTask);
      StartMove(view);
      Sized();
      var task := TakeTask();
      Launch(task);
      RecordsSettled@L(StartTask);
    }

    lemma Sized()
      requires Shape()
      ensures |view.promises| == |promises| && view.stack == stack && view.tasks == tasks && view.wrappers == wrappers
    {
    }

    method NextReaction(p: nat)
      requires Shape() && p < |promises| && stack != []
      modifies this, promises[p].reactions
      ensures Shape() && view == Drained(old(view), p)
    {
      hide Shape;
      Sized();
      var r := TakeReaction(p);
      Sized();
      if r.Some? {
        CallReaction(p, r.value);
      } else {
        Assigned(p);
        Assign(p, promises[p].(notified := false), view.promises[p].(notified := false));
        Sized();
        var f := Leave();
      }
    }

    /** One turn of the loop of the notification: the next reaction, or the end. */
    method DrainTurn()
      requires Valid() && Enabled(view, DrainOne)
      modifies this, Queues(promises)
      ensures Valid() && view == Move(old(view), DrainOne)
      ensures RecordsSettle(old(view), old(promises), DrainOne)
    {
      label L:
      hide Shape, Inv, Run, Reachable, Queues, Move, InRange, Drained, Enabled;
      Reaches(view, DrainOne);
      DrainMove(view);
      Sized();
      var p := stack[|stack| - 1].p;
      Among(p);
      NextReaction(p);
      RecordsSettled@L(DrainOne);
    }

    lemma Among(p: nat)
      requires p < |promises|
      ensures promises[p].reactions in Queues(promises)
    {
    }

    // ---------- Calls by the program ----------

    method Create() returns (p: nat)
      requires Valid() && Enabled(view, Step.NewPromise)
      modifies this
      ensures Valid() && p == |old(view).promises| && view == Move(old(view), Step.NewPromise)
      ensures RecordsSettle(old(view), old(promises), Step.NewPromise)
    {
      label L:
      Reaches(view, Step.NewPromise);
      hide Shape, Inv, Run, Reachable;
      p := NewPromise();
      RecordsSettled@L(Step.NewPromise);
    }

    method ResolveWith(r: Resolver, v: Value)
      requires Valid() && Enabled(view, CallResolve(r, v))
      modifies this
      ensures Valid() && view == Move(old(view), CallResolve(r, v))
      ensures RecordsSettle(old(view), old(promises), CallResolve(r, v))
    {
      label L:
      Reaches(view, CallResolve(r, v));
      hide Shape, Inv, Run, Reachable;
      InternalResolve(r, v);
      RecordsSettled@L(CallResolve(r, v));
    }

    method RejectWith(r: Resolver, v: Value)
      requires Valid() && Enabled(view, CallReject(r, v))
      modifies this
      ensures Valid() && view == Move(old(view), CallReject(r, v))
      ensures RecordsSettle(old(view), old(promises), CallReject(r, v))
    {
      label L:
      Reaches(view, CallReject(r, v));
      hide Shape, Inv, Run, Reachable;
      InternalReject(r, v);
      RecordsSettled@L(CallReject(r, v));
    }

    method Subscribe(p: nat, ok: bool, fail: bool) returns (derived: nat)
      requires Valid() && Enabled(view, CallThen(p, ok, fail))
      modifies this, Queues(promises), Entries(promises)
      ensures Valid() && derived == |old(view).promises| && view == Move(old(view), CallThen(p, ok, fail))
      ensures RecordsSettle(old(view), old(promises), CallThen(p, ok, fail))
    {
      label L:
      Reaches(view, CallThen(p, ok, fail));
      Among(p);
      Holding(p);
      hide Shape, Inv, Run, Reachable, Queues, Entries;
      Sized();
      derived := Then(p, ok, fail);
      RecordsSettled@L(CallThen(p, ok, fail));
    }

    lemma Holding(p: nat)
      requires Shape() && p < |view.promises|
      ensures p < |promises| && forall e :: e in promises[p].reactions.entries ==> e in Entries(promises)
    {
      assert promises[p] in promises;
    }

    // ---------- Returns of user code ----------

    /** The `then` getter has answered. */
    method LookupAnswered(lookup: Lookup)
      requires Valid() && Enabled(view, FinishLookup(lookup))
      modifies this
      ensures Valid() && view == Move(old(view), FinishLookup(lookup))
      ensures RecordsSettle(old(view), old(promises), FinishLookup(lookup))
    {
      label L:
      hide Shape, Inv, Run, Reachable, Move, InRange, Enabled, Resolved;
      Reaches(view, FinishLookup(lookup));
      LookupMove(view, lookup);
      Sized();
      var f := Leave();
      Sized();
      FinishResolve(f.p, f.v, lookup);
      RecordsSettled@L(FinishLookup(lookup));
    }

    method HandlerReturned(v: Value, lookup: Lookup)
      requires Valid() && Enabled(view, HandlerReturns(v, lookup))
      modifies this
      ensures Valid() && view == Move(old(view), HandlerReturns(v, lookup))
      ensures RecordsSettle(old(view), old(promises), HandlerReturns(v, lookup))
    {
      label L:
      Reaches(view, HandlerReturns(v, lookup));
      FinishCall(v, lookup);
      RecordsSettled@L(HandlerReturns(v, lookup));
    }

    method HandlerThrew(e: Value)
      requires Valid() && Enabled(view, HandlerThrows(e))
      modifies this
      ensures Valid() && view == Move(old(view), HandlerThrows(e))
      ensures RecordsSettle(old(view), old(promises), HandlerThrows(e))
    {
      label L:
      Reaches(view, HandlerThrows(e));
      FailCall(e);
      RecordsSettled@L(HandlerThrows(e));
    }

    /** The `then` of a thenable has returned; its resolving functions may still be called. */
    method CallReturned()
      requires Valid() && Enabled(view, CallReturns)
      modifies this
      ensures Valid() && view == Move(old(view), CallReturns)
      ensures RecordsSettle(old(view), old(promises), CallReturns)
    {
      label L:
      hide Shape, Inv, Run, Reachable, Move, InRange, Enabled;
      Reaches(view, CallReturns);
      ReturnMove(view);
      Sized();
      var f := Leave();
      RecordsSettled@L(CallReturns);
    }

    /** Its exception rejects, unless a resolving function was called before. */
    method CallThrew(e: Value)
      requires Valid() && Enabled(view, CallThrows(e))
      modifies this
      ensures Valid() && view == Move(old(view), CallThrows(e))
      ensures RecordsSettle(old(view), old(promises), CallThrows(e))
    {
      label L:
      hide Shape, Inv, Run, Reachable, Reject, Move, InRange, Enabled;
      Reaches(view, CallThrows(e));
      ThrowMove(view, e);
      Sized();
      var f := Leave();
      match f {
        case Thening(w) => InternalReject(Wrapped(w), e);
        case CallingThen(d) => InternalReject(Own(d), e);
      }
      RecordsSettled@L(CallThrows(e));
    }

    // ---------- The laws of all runs, of the engine ----------

    /**
     At every moment a record that is pending can be settled in exactly one way and a settled one in none; its
     reactions have run in the order of registration, and all of them once no microtask is left.
     */
    lemma EngineLaws(p: nat)
      requires Valid() && p < |promises|
      ensures p < |view.promises| && Rights(view)[p] == if promises[p].status == Pending then 1 else 0
      ensures view.promises[p].ran <= view.promises[p].registered
      ensures promises[p].status == Pending ==> view.promises[p].ran == []
      ensures promises[p].status != Pending && stack == [] && tasks == [] ==> view.promises[p].ran == view.promises[p].registered
    {
      Assigned(p);
      Sized();
      hide Shape, Run, Rights;
      var steps :| view == Run(steps);
      OneRightEach(steps, p);
      ReactionsInOrder(steps, p);
      if promises[p].status != Pending && stack == [] && tasks == [] { AllReactionsRun(steps, p); }
    }
  }
}

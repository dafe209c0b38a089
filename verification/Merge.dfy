/**
 The recursive merge that an intersection schema applies to the two sides' results
 (`se` in js/dw-index.js), as a partial join of trees.
 */
module Merge {
  import opened Wrappers

  /**
   A value as the merge sees it.  Atoms are everything compared by identity only: strings,
   numbers, booleans, null, functions and the like.  NaN is the number that differs from
   itself; an invalid date has no time.
   */
  datatype Value =
    | NaN
    | Atom(id: int)
    | Date(time: Option<int>)
    | Object(fields: map<string, Value>)
    | Array(items: seq<Value>)

  // ---------- The order of information ----------

  /** big has everything small has: the same shape and leaves, with more fields in its objects. */
  ghost predicate Extends(small: Value, big: Value)
    decreases small
  {
    match (small, big)
    case (Object(f), Object(g)) => f.Keys <= g.Keys && forall k :: k in f ==> Extends(f[k], g[k])
    case (Array(a), Array(b)) => |a| == |b| && forall i :: 0 <= i < |a| ==> Extends(a[i], b[i])
    case _ => small == big && !small.Object? && !small.Array?
  }

  lemma {:induction false} ExtendsRefl(t: Value)
    ensures Extends(t, t)
  {
    match t {
      case Object(f) => { forall k | k in f ensures Extends(f[k], f[k]) { ExtendsRefl(f[k]); } }
      case Array(a) => { forall i | 0 <= i < |a| ensures Extends(a[i], a[i]) { ExtendsRefl(a[i]); } }
      case _ =>
    }
  }

  lemma {:induction false} ExtendsTrans(t: Value, u: Value, v: Value)
    requires Extends(t, u) && Extends(u, v)
    ensures Extends(t, v)
  {
    match t {
      case Object(f) => {
        forall k | k in f ensures k in v.fields && Extends(f[k], v.fields[k]) {
          ExtendsTrans(f[k], u.fields[k], v.fields[k]);
        }
      }
      case Array(a) => {
        forall i | 0 <= i < |a| ensures Extends(a[i], v.items[i]) { ExtendsTrans(a[i], u.items[i], v.items[i]); }
      }
      case _ =>
    }
  }

  lemma {:induction false} ExtendsAntisym(t: Value, u: Value)
    requires Extends(t, u) && Extends(u, t)
    ensures t == u
  {
    match t {
      case Object(f) => {
        forall k | k in f ensures f[k] == u.fields[k] { ExtendsAntisym(f[k], u.fields[k]); }
        assert f == u.fields;
      }
      case Array(a) => {
        forall i | 0 <= i < |a| ensures a[i] == u.items[i] { ExtendsAntisym(a[i], u.items[i]); }
        assert a == u.items;
      }
      case _ =>
    }
  }

  /** A leaf that is not equal to itself. */
  predicate Unequal(t: Value) { t.NaN? || (t.Date? && t.time.None?) }

  /** At some place both trees hold a leaf that is not equal to itself. */
  ghost predicate Meets(t: Value, r: Value)
    decreases t
  {
    match (t, r)
    case (Object(f), Object(g)) => exists k :: k in f && k in g && Meets(f[k], g[k])
    case (Array(a), Array(b)) => |a| == |b| && exists i :: 0 <= i < |a| && Meets(a[i], b[i])
    case _ => t == r && Unequal(t)
  }

  // ---------- The merge ----------

  /** The value of the merge, if it is valid. */
  ghost function Join(t: Value, r: Value): Option<Value>
    decreases t
  {
    match (t, r)
    case (Object(f), Object(g)) =>
      if forall k :: k in f && k in g ==> Join(f[k], g[k]).Some? then
        Some(Object(map k | k in f.Keys + g.Keys ::
          if k !in f then g[k] else if k !in g then f[k] else Join(f[k], g[k]).value))
      else None
    case (Array(a), Array(b)) =>
      if |a| == |b| && forall i :: 0 <= i < |a| ==> Join(a[i], b[i]).Some? then
        Some(Array(seq(|a|, i requires 0 <= i < |a| && Join(a[i], b[i]).Some? => Join(a[i], b[i]).value)))
      else None
    case _ => if t == r && !Unequal(t) then Some(t) else None
  }

  // ---------- The code ----------

  /** Objects and arrays that are not one and the same; the fields in any order. */
  method MergeValues(t: Value, r: Value) returns (o: Option<Value>)
    ensures o == Join(t, r)
    decreases t
  {
    if t.Atom? && t == r { return Some(t); }
    if t.Object? && r.Object? {
      var shared := t.fields.Keys * r.fields.Keys;
      var merged := t.fields + r.fields;
      while shared != {}
        invariant shared <= t.fields.Keys * r.fields.Keys
        invariant merged.Keys == t.fields.Keys + r.fields.Keys
        invariant forall k :: k in t.fields && k !in r.fields ==> merged[k] == t.fields[k]
        invariant forall k :: k in r.fields && k !in t.fields ==> merged[k] == r.fields[k]
        invariant forall k :: k in t.fields && k in r.fields && k !in shared ==>
          Join(t.fields[k], r.fields[k]) == Some(merged[k])
        decreases shared
      {
        var k :| k in shared;
        var i := MergeValues(t.fields[k], r.fields[k]);
        if i.None? { return None; }
        merged := merged[k := i.value];
        shared := shared - {k};
      }
      MergedFields(t.fields, r.fields, merged);
      return Some(Object(merged));
    }
    if t.Array? && r.Array? {
      if |t.items| != |r.items| { return None; }
      var e := [];
      for i := 0 to |t.items|
        invariant |e| == i
        invariant forall j :: 0 <= j < i ==> Join(t.items[j], r.items[j]) == Some(e[j])
      {
        var n := MergeValues(t.items[i], r.items[i]);
        if n.None? { return None; }
        e := e + [n.value];
      }
      MergedItems(t.items, r.items, e);
      return Some(Array(e));
    }
    return if t.Date? && r.Date? && t.time.Some? && t.time == r.time then Some(t) else None;
  }

  lemma MergedFields(f: map<string, Value>, g: map<string, Value>, m: map<string, Value>)
    requires m.Keys == f.Keys + g.Keys
    requires forall k :: k in f && k !in g ==> m[k] == f[k]
    requires forall k :: k in g && k !in f ==> m[k] == g[k]
    requires forall k :: k in f && k in g ==> Join(f[k], g[k]) == Some(m[k])
    ensures Join(Object(f), Object(g)) == Some(Object(m))
  {
    var j := Join(Object(f), Object(g)).value.fields;
    forall k | k in m ensures j[k] == m[k] {
      assert k in f.Keys + g.Keys;
    }
    assert j == m;
  }

  lemma MergedItems(a: seq<Value>, b: seq<Value>, e: seq<Value>)
    requires |a| == |b| == |e|
    requires forall i :: 0 <= i < |a| ==> Join(a[i], b[i]) == Some(e[i])
    ensures Join(Array(a), Array(b)) == Some(Array(e))
  {
    assert Join(Array(a), Array(b)).value.items == e;
  }

  // ---------- The laws ----------

  /** A valid merge extends both sides. */
  lemma {:induction false} JoinExtendsBoth(t: Value, r: Value)
    requires Join(t, r).Some?
    ensures Extends(t, Join(t, r).value) && Extends(r, Join(t, r).value)
  {
    match t {
      case Object(f) => {
        var g, j := r.fields, Join(t, r).value.fields;
        forall k | k in f ensures Extends(f[k], j[k]) {
          if k in g { JoinExtendsBoth(f[k], g[k]); } else { ExtendsRefl(f[k]); }
        }
        forall k | k in g ensures Extends(g[k], j[k]) {
          if k in f { JoinExtendsBoth(f[k], g[k]); } else { ExtendsRefl(g[k]); }
        }
      }
      case Array(a) => {
        forall i | 0 <= i < |a|
          ensures Extends(a[i], Join(t, r).value.items[i]) && Extends(r.items[i], Join(t, r).value.items[i])
        {
          JoinExtendsBoth(a[i], r.items[i]);
        }
      }
      case _ =>
    }
  }

  /** Nothing smaller does: every tree that extends both sides extends their merge. */
  lemma {:induction false} JoinLeast(t: Value, r: Value, u: Value)
    requires Join(t, r).Some? && Extends(t, u) && Extends(r, u)
    ensures Extends(Join(t, r).value, u)
  {
    match t {
      case Object(f) => {
        var g, j := r.fields, Join(t, r).value.fields;
        forall k | k in j ensures k in u.fields && Extends(j[k], u.fields[k]) {
          if k in f && k in g { JoinLeast(f[k], g[k], u.fields[k]); }
        }
      }
      case Array(a) => {
        forall i | 0 <= i < |a| ensures Extends(Join(t, r).value.items[i], u.items[i]) {
          JoinLeast(a[i], r.items[i], u.items[i]);
        }
      }
      case _ =>
    }
  }

  /** Trees with a common extension merge, unless leaves that are not equal to themselves meet. */
  lemma {:induction false} BoundedJoins(t: Value, r: Value, u: Value)
    requires Extends(t, u) && Extends(r, u)
    ensures Join(t, r).Some? <==> !Meets(t, r)
  {
    match t {
      case Object(f) => {
        var g := r.fields;
        forall k | k in f && k in g ensures Join(f[k], g[k]).Some? <==> !Meets(f[k], g[k]) {
          BoundedJoins(f[k], g[k], u.fields[k]);
        }
      }
      case Array(a) => {
        forall i | 0 <= i < |a| ensures Join(a[i], r.items[i]).Some? <==> !Meets(a[i], r.items[i]) {
          BoundedJoins(a[i], r.items[i], u.items[i]);
        }
      }
      case _ =>
    }
  }

  ghost predicate ExtendsBoth(t: Value, r: Value, u: Value) { Extends(t, u) && Extends(r, u) }

  /** The merge of two trees is valid exactly if some tree extends both and no two self-unequal leaves meet. */
  lemma JoinValidExactly(t: Value, r: Value)
    ensures Join(t, r).Some? <==> (exists u :: ExtendsBoth(t, r, u)) && !Meets(t, r)
  {
    hide Join, Extends, Meets;
    if Join(t, r).Some? {
      JoinExtendsBoth(t, r);
      assert ExtendsBoth(t, r, Join(t, r).value);
      BoundedJoins(t, r, Join(t, r).value);
    } else if u :| ExtendsBoth(t, r, u) {
      BoundedJoins(t, r, u);
    }
  }

  lemma {:induction false} JoinCommutes(t: Value, r: Value)
    ensures Join(t, r) == Join(r, t)
  {
    match (t, r) {
      case (Object(f), Object(g)) => {
        forall k | k in f && k in g ensures Join(f[k], g[k]) == Join(g[k], f[k]) { JoinCommutes(f[k], g[k]); }
        if Join(t, r).Some? { assert Join(t, r).value.fields == Join(r, t).value.fields; }
      }
      case (Array(a), Array(b)) => {
        forall i | 0 <= i < |a| && i < |b| ensures Join(a[i], b[i]) == Join(b[i], a[i]) { JoinCommutes(a[i], b[i]); }
        if Join(t, r).Some? { assert Join(t, r).value.items == Join(r, t).value.items; }
      }
      case _ =>
    }
  }

  ghost predicate HasUnequal(t: Value) {
    match t
    case Object(f) => exists k :: k in f && HasUnequal(f[k])
    case Array(a) => exists i :: 0 <= i < |a| && HasUnequal(a[i])
    case _ => Unequal(t)
  }

  lemma {:induction false} MeetsItself(t: Value)
    ensures Meets(t, t) <==> HasUnequal(t)
  {
    match t {
      case Object(f) => { forall k | k in f ensures Meets(f[k], f[k]) <==> HasUnequal(f[k]) { MeetsItself(f[k]); } }
      case Array(a) => { forall i | 0 <= i < |a| ensures Meets(a[i], a[i]) <==> HasUnequal(a[i]) { MeetsItself(a[i]); } }
      case _ =>
    }
  }

  /** Merging a tree with a copy of itself gives it back, exactly if it holds no self-unequal leaf. */
  lemma JoinIdempotent(t: Value)
    ensures Join(t, t) == if HasUnequal(t) then None else Some(t)
  {
    ExtendsRefl(t);
    BoundedJoins(t, t, t);
    MeetsItself(t);
    if !HasUnequal(t) {
      JoinExtendsBoth(t, t);
      JoinLeast(t, t, t);
      ExtendsAntisym(t, Join(t, t).value);
    }
  }

  /** What meets a merge meets one of its sides. */
  lemma {:induction false} MeetsJoin(t: Value, r: Value, c: Value)
    requires Join(t, r).Some?
    ensures Meets(Join(t, r).value, c) <==> Meets(t, c) || Meets(r, c)
  {
    var j := Join(t, r).value;
    match (t, c) {
      case (Object(f), Object(h)) => {
        var g := r.fields;
        forall k | k in j.fields && k in h
          ensures Meets(j.fields[k], h[k]) <==> (k in f && Meets(f[k], h[k])) || (k in g && Meets(g[k], h[k]))
        {
          if k in f && k in g { MeetsJoin(f[k], g[k], h[k]); }
        }
      }
      case (Array(a), Array(d)) => {
        var b := r.items;
        forall i | 0 <= i < |a| && i < |d|
          ensures Meets(j.items[i], d[i]) <==> Meets(a[i], d[i]) || Meets(b[i], d[i])
        {
          MeetsJoin(a[i], b[i], d[i]);
        }
      }
      case _ =>
    }
  }

  ghost function JoinThen(o: Option<Value>, c: Value): Option<Value> {
    match o
    case None => None
    case Some(v) => Join(v, c)
  }

  ghost function ThenJoin(a: Value, o: Option<Value>): Option<Value> {
    match o
    case None => None
    case Some(v) => Join(a, v)
  }

  ghost predicate Extends3(a: Value, b: Value, c: Value, u: Value) { Extends(a, u) && Extends(b, u) && Extends(c, u) }

  /** Both groupings of three trees, by what the trees are and not by how they are merged. */
  lemma GroupingExactly(a: Value, b: Value, c: Value)
    ensures var o := JoinThen(Join(a, b), c);
            && (o.Some? <==> (exists u :: Extends3(a, b, c, u)) && !Meets(a, b) && !Meets(a, c) && !Meets(b, c))
            && (o.Some? ==> Extends3(a, b, c, o.value) && forall u :: Extends3(a, b, c, u) ==> Extends(o.value, u))
  {
    var o := JoinThen(Join(a, b), c);
    if u :| Extends3(a, b, c, u) {
      BoundedJoins(a, b, u);
      if Join(a, b).Some? {
        JoinLeast(a, b, u);
        BoundedJoins(Join(a, b).value, c, u);
        MeetsJoin(a, b, c);
      }
    }
    if o.Some? {
      var j := Join(a, b).value;
      JoinExtendsBoth(a, b);
      JoinExtendsBoth(j, c);
      ExtendsTrans(a, j, o.value);
      ExtendsTrans(b, j, o.value);
      assert Extends3(a, b, c, o.value);
      forall u | Extends3(a, b, c, u) ensures Extends(o.value, u) {
        JoinLeast(a, b, u);
        JoinLeast(j, c, u);
      }
    }
  }

  /** Both groupings of three trees are valid together and equal. */
  lemma JoinAssociates(a: Value, b: Value, c: Value)
    ensures JoinThen(Join(a, b), c) == ThenJoin(a, Join(b, c))
  {
    if Join(b, c).Some? { JoinCommutes(Join(b, c).value, a); }
    hide Join, Extends, Meets;
    GroupingExactly(a, b, c);
    GroupingExactly(b, c, a);
    MeetsCommutes(a, b);
    MeetsCommutes(a, c);
    var o, p := JoinThen(Join(a, b), c), JoinThen(Join(b, c), a);
    assert forall u :: Extends3(a, b, c, u) <==> Extends3(b, c, a, u);
    if o.Some? && p.Some? { ExtendsAntisym(o.value, p.value); }
  }

  lemma {:induction false} MeetsCommutes(t: Value, r: Value)
    ensures Meets(t, r) <==> Meets(r, t)
  {
    match (t, r) {
      case (Object(f), Object(g)) => {
        forall k | k in f && k in g ensures Meets(f[k], g[k]) <==> Meets(g[k], f[k]) { MeetsCommutes(f[k], g[k]); }
      }
      case (Array(a), Array(b)) => {
        forall i | 0 <= i < |a| && i < |b| ensures Meets(a[i], b[i]) <==> Meets(b[i], a[i]) { MeetsCommutes(a[i], b[i]); }
      }
      case _ =>
    }
  }
}

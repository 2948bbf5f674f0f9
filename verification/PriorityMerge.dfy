/**
 `Config.Merge`: the leaves of the low-priority tree are offered one by one, in whatever
 order Go's map iteration yields them.  The result is proved to be one recursive merge.
 */
module PriorityMerge {
  import opened ConfigTree

  datatype Leaf = Leaf(path: Path, value: Value)

  /** What `forEachMap` hands to its callback: anything but nil and non-empty maps. */
  predicate LeafValue(v: Value) {
    !v.Null? && (v.Map? ==> v.entries == map[])
  }

  predicate IsLeaf(v: Value, l: Leaf) {
    LeafValue(l.value) && l.value == At(v, l.path)
  }

  /** Any order in which the leaves of `v` may be visited. */
  ghost predicate Enumerates(order: seq<Leaf>, v: Value) {
    forall l :: l in order <==> IsLeaf(v, l)
  }

  predicate HasLeaf(v: Value)
    decreases v
  {
    match v
    case Null => false
    case Map(m) => m == map[] || exists k :: k in m && HasLeaf(m[k])
    case _ => true
  }

  /** The recursive priority merge.  Entries of `low` without any leaf do not count. */
  function Merge(high: Value, low: Value): Value
    decreases low
  {
    if !HasLeaf(low) || !Opens(high) then high
    else if !low.Map? then
      if high.Null? then low else high
    else
      Map(map k | k in Entries(high).Keys + low.entries.Keys
                  && (k in Entries(high) || HasLeaf(low.entries[k])) ::
        if k in low.entries then Merge(Child(high, k), low.entries[k]) else Entries(high)[k])
  }

  /** How merging two maps acts on one key. */
  lemma MergeAtKey(high: Value, low: Value, k: string)
    requires Opens(high) && low.Map? && HasLeaf(low)
    ensures Merge(high, low).Map?
    ensures k in Merge(high, low).entries <==> k in Entries(high) || HasLeaf(Child(low, k))
    ensures Child(Merge(high, low), k) == Merge(Child(high, k), Child(low, k))
  {
  }

  /** One callback of `Config.Merge`: set the leaf unless a read already finds something. */
  function Absorb(high: Value, l: Leaf): Value {
    if Fetch(high, l.path).Found? then high
    else match Write(high, l.path, l.value)
      case Tree(t) => t
      case Blocked(_) => high
  }

  function AbsorbAll(high: Value, order: seq<Leaf>): Value {
    if order == [] then high
    else Absorb(AbsorbAll(high, order[..|order| - 1]), order[|order| - 1])
  }

  /** The leaves of `order` that lie below key `k`, relative to it. */
  function Below(order: seq<Leaf>, k: string): seq<Leaf> {
    if order == [] then []
    else
      var init := Below(order[..|order| - 1], k);
      var l := order[|order| - 1];
      if l.path != [] && l.path[0] == k then init + [Leaf(l.path[1..], l.value)] else init
  }

  // ---- one step ----

  lemma AbsorbClosed(high: Value, l: Leaf)
    requires !Opens(high)
    ensures Absorb(high, l) == high
  {
    if l.path != [] { AtClosed(high, l.path); }
  }

  /** A step below key `k` touches the entry `k` alone. */
  lemma AbsorbNested(high: Value, l: Leaf)
    requires Opens(high) && l.path != [] && !l.value.Null?
    ensures Absorb(high, l) ==
            Map(Entries(high)[l.path[0] := Absorb(Child(high, l.path[0]), Leaf(l.path[1..], l.value))])
  {
    var k, t := l.path[0], l.path[1..];
    var c := Child(high, k);
    var sub := Leaf(t, l.value);
    assert Fetch(high, l.path).Found? == Fetch(c, t).Found?;
    if c.Null? {
      AtClosed(c, t);
      WriteIntoNull(t, l.value);
    } else {
      assert Entries(high)[k := c] == Entries(high);
    }
  }

  lemma WriteIntoNull(p: Path, x: Value)
    ensures Write(Null, p, x).Tree?
    decreases p
  {
  }

  // ---- a whole visit ----

  lemma {:induction false} AbsorbAllClosed(high: Value, order: seq<Leaf>)
    requires !Opens(high)
    ensures AbsorbAll(high, order) == high
  {
    if order != [] {
      AbsorbAllClosed(high, order[..|order| - 1]);
      AbsorbClosed(high, order[|order| - 1]);
    }
  }

  lemma {:induction false} AbsorbAllRoot(high: Value, order: seq<Leaf>, x: Value)
    requires LeafValue(x)
    requires forall l :: l in order ==> l == Leaf([], x)
    ensures AbsorbAll(high, order) == if high.Null? && order != [] then x else high
  {
    if order != [] {
      var init := order[..|order| - 1];
      assert forall l :: l in init ==> l in order;
      AbsorbAllRoot(high, init, x);
      assert order[|order| - 1] in order;
    }
  }

  lemma AbsorbAllStep(high: Value, init: seq<Leaf>, l: Leaf)
    ensures AbsorbAll(high, init + [l]) == Absorb(AbsorbAll(high, init), l)
  {
    assert (init + [l])[..|init|] == init;
  }

  lemma BelowStep(init: seq<Leaf>, l: Leaf, k: string)
    ensures Below(init + [l], k) ==
            Below(init, k) + if l.path != [] && l.path[0] == k then [Leaf(l.path[1..], l.value)] else []
  {
    assert (init + [l])[..|init|] == init;
  }

  /** A visit of leaves that all lie below the root. */
  predicate Nested(order: seq<Leaf>) {
    forall i :: 0 <= i < |order| ==> order[i].path != [] && !order[i].value.Null?
  }

  lemma {:induction false} AbsorbAllOpens(high: Value, order: seq<Leaf>)
    requires Opens(high) && Nested(order)
    ensures Opens(AbsorbAll(high, order)) && (AbsorbAll(high, order).Null? ==> order == [])
  {
    hide Absorb;
    if order != [] {
      AbsorbAllOpens(high, order[..|order| - 1]);
      AbsorbNested(AbsorbAll(high, order[..|order| - 1]), order[|order| - 1]);
    }
  }

  /** Under key `k` the tree `r` holds what a visit of that entry alone gives. */
  ghost predicate ByKey(high: Value, order: seq<Leaf>, r: Value, k: string) {
    && (k in Entries(r) <==> k in Entries(high) || Below(order, k) != [])
    && (k in Entries(r) ==> Entries(r)[k] == AbsorbAll(Child(high, k), Below(order, k)))
  }

  lemma {:induction false} AbsorbAllAtKey(high: Value, order: seq<Leaf>, k: string)
    requires Opens(high) && Nested(order)
    ensures ByKey(high, order, AbsorbAll(high, order), k)
  {
    if order != [] {
      hide Absorb, AbsorbAll, Below;
      var init, l := order[..|order| - 1], order[|order| - 1];
      assert order == init + [l];
      AbsorbAllAtKey(high, init, k);
      AbsorbAllOpens(high, init);
      AbsorbAllStep(high, init, l);
      BelowStep(init, l, k);
      AbsorbNested(AbsorbAll(high, init), l);
      AbsorbAllStep(Child(high, k), Below(init, k), Leaf(l.path[1..], l.value));
      NothingBelow(high, init, k);
    }
  }

  lemma NothingBelow(high: Value, order: seq<Leaf>, k: string)
    ensures k !in Entries(high) && Below(order, k) == [] ==> AbsorbAll(Child(high, k), Below(order, k)) == Null
  {
  }

  /** A visit below the root decomposes into independent visits of the entries. */
  lemma AbsorbAllByKey(high: Value, order: seq<Leaf>)
    requires Opens(high) && Nested(order)
    ensures
      var r := AbsorbAll(high, order);
      && Opens(r) && (r.Null? ==> order == [])
      && (forall k :: k in Entries(r) <==> k in Entries(high) || Below(order, k) != [])
      && (forall k :: k in Entries(r) ==> Entries(r)[k] == AbsorbAll(Child(high, k), Below(order, k)))
  {
    hide AbsorbAll, Below;
    AbsorbAllOpens(high, order);
    var r := AbsorbAll(high, order);
    forall k: string
      ensures k in Entries(r) <==> k in Entries(high) || Below(order, k) != []
      ensures k in Entries(r) ==> Entries(r)[k] == AbsorbAll(Child(high, k), Below(order, k))
    {
      AbsorbAllAtKey(high, order, k);
    }
  }

  lemma {:induction false} BelowMembers(order: seq<Leaf>, k: string, t: Path, x: Value)
    ensures Leaf(t, x) in Below(order, k) <==> Leaf([k] + t, x) in order
  {
    if order != [] {
      var init, l := order[..|order| - 1], order[|order| - 1];
      BelowMembers(init, k, t, x);
      assert order == init + [l];
      assert l.path != [] ==> l.path == [l.path[0]] + l.path[1..];
    }
  }

  lemma {:induction false} LeafExists(v: Value) returns (l: Leaf)
    requires HasLeaf(v)
    ensures IsLeaf(v, l)
    decreases v
  {
    if v.Map? && v.entries != map[] {
      var k :| k in v.entries && HasLeaf(v.entries[k]);
      var sub := LeafExists(v.entries[k]);
      l := Leaf([k] + sub.path, sub.value);
      assert l.path[1..] == sub.path;
    } else {
      l := Leaf([], v);
    }
  }

  lemma {:induction false} LeafImplies(v: Value, l: Leaf)
    requires IsLeaf(v, l)
    ensures HasLeaf(v)
    decreases l.path
  {
    if l.path == [] {
    } else if !v.Map? {
      AtClosed(v, l.path);
    } else if l.path[0] !in v.entries {
      AtClosed(Null, l.path[1..]);
    } else {
      LeafImplies(v.entries[l.path[0]], Leaf(l.path[1..], l.value));
    }
  }

  lemma EnumeratesBelow(order: seq<Leaf>, v: Value, k: string)
    requires Enumerates(order, v) && v.Map? && v.entries != map[]
    ensures Enumerates(Below(order, k), Child(v, k))
  {
    forall l: Leaf ensures l in Below(order, k) <==> IsLeaf(Child(v, k), l) {
      BelowMembers(order, k, l.path, l.value);
      assert ([k] + l.path)[1..] == l.path;
      assert IsLeaf(v, Leaf([k] + l.path, l.value)) <==> IsLeaf(Child(v, k), l);
    }
  }

  /** Refinement: whatever the visiting order, the guarded writes compute the recursive merge. */
  lemma {:induction false} MergeRefines(high: Value, low: Value, order: seq<Leaf>)
    requires Enumerates(order, low)
    ensures AbsorbAll(high, order) == Merge(high, low)
    decreases low, 3
  {
    if !HasLeaf(low) {
      if order != [] { assert IsLeaf(low, order[0]) by { assert order[0] in order; } LeafImplies(low, order[0]); }
    } else if !Opens(high) {
      AbsorbAllClosed(high, order);
    } else if !low.Map? || low.entries == map[] {
      forall l | l in order ensures l == Leaf([], low) {
        if l.path != [] { AtClosed(Child(low, l.path[0]), l.path[1..]); }
      }
      assert IsLeaf(low, Leaf([], low));
      AbsorbAllRoot(high, order, low);
      if low.Map? && high.Map? { assert Merge(high, low).entries == high.entries; }
    } else {
      MergeMaps(high, low, order);
    }
  }

  /** One entry of the visit, under the induction hypothesis. */
  lemma {:induction false} MergeEntry(high: Value, low: Value, order: seq<Leaf>, k: string)
    requires Enumerates(order, low) && low.Map? && low.entries != map[]
    ensures k in low.entries ==>
      AbsorbAll(Child(high, k), Below(order, k)) == Merge(Child(high, k), low.entries[k])
    ensures Below(order, k) != [] <==> k in low.entries && HasLeaf(low.entries[k])
    decreases low, 0
  {
    EnumeratesBelow(order, low, k);
    var c := Child(low, k);
    if HasLeaf(c) {
      var l := LeafExists(c);
      assert l in Below(order, k);
    } else if Below(order, k) != [] {
      assert Below(order, k)[0] in Below(order, k);
      LeafImplies(c, Below(order, k)[0]);
    }
    if k in low.entries {
      MergeRefines(Child(high, k), c, Below(order, k));
    }
  }

  lemma {:induction false} MergeMapsAt(high: Value, low: Value, order: seq<Leaf>, k: string)
    requires Enumerates(order, low) && HasLeaf(low) && Opens(high) && low.Map? && low.entries != map[]
    ensures
      var r, m := AbsorbAll(high, order), Merge(high, low);
      r.Map? && m.Map? && (k in r.entries <==> k in m.entries) && Child(r, k) == Child(m, k)
    decreases low, 1
  {
    VisitShape(low, order);
    AbsorbAllByKey(high, order);
    MergeEntry(high, low, order, k);
    MergeAtKey(high, low, k);
  }

  lemma {:induction false} MergeMaps(high: Value, low: Value, order: seq<Leaf>)
    requires Enumerates(order, low) && HasLeaf(low) && Opens(high) && low.Map? && low.entries != map[]
    ensures AbsorbAll(high, order) == Merge(high, low)
    decreases low, 2
  {
    var r, m := AbsorbAll(high, order), Merge(high, low);
    forall k: string ensures r.Map? && m.Map? && (k in r.entries <==> k in m.entries) && Child(r, k) == Child(m, k) {
      MergeMapsAt(high, low, order, k);
    }
    SameChildren(r, m);
  }

  lemma SameChildren(a: Value, b: Value)
    requires a.Map? && b.Map?
    requires forall k :: k in a.entries <==> k in b.entries
    requires forall k :: Child(a, k) == Child(b, k)
    ensures a == b
  {
    forall k | k in a.entries ensures a.entries[k] == b.entries[k] {
      assert Child(a, k) == Child(b, k);
    }
    assert a.entries == b.entries;
  }

  lemma VisitShape(low: Value, order: seq<Leaf>)
    requires Enumerates(order, low) && HasLeaf(low) && low.Map? && low.entries != map[]
    ensures order != []
    ensures forall l :: l in order ==> l.path != [] && !l.value.Null?
  {
    var leaf := LeafExists(low);
    assert leaf in order;
    forall l | l in order ensures l.path != [] && !l.value.Null? {
      assert IsLeaf(low, l);
    }
  }

  /** Confluence: the result does not depend on the order in which leaves are visited. */
  lemma MergeConfluent(high: Value, low: Value, one: seq<Leaf>, other: seq<Leaf>)
    requires Enumerates(one, low) && Enumerates(other, low)
    ensures AbsorbAll(high, one) == AbsorbAll(high, other)
  {
    MergeRefines(high, low, one);
    MergeRefines(high, low, other);
  }
}

/**
 Laws of the priority merge: what it puts at every path, when it is associative,
 and which of several sources decides a setting.
 */
module MergeLaws {
  import opened ConfigTree
  import opened PriorityMerge

  /** Nothing on the way to `p` stops a write. */
  ghost predicate Unblocked(v: Value, p: Path) {
    forall i :: 0 <= i < |p| ==> Opens(At(v, p[..i]))
  }

  lemma UnblockedStep(v: Value, p: Path)
    requires p != []
    ensures Unblocked(v, p) <==> Opens(v) && Unblocked(Child(v, p[0]), p[1..])
  {
    forall i | 0 < i <= |p| ensures At(v, p[..i]) == At(Child(v, p[0]), p[1..][..i - 1]) {
      assert p[..i][1..] == p[1..][..i - 1];
    }
    assert At(v, p[..0]) == v;
    if Unblocked(v, p) {
      forall i | 0 <= i < |p[1..]| ensures Opens(At(Child(v, p[0]), p[1..][..i])) {
        assert At(v, p[..i + 1]) == At(Child(v, p[0]), p[1..][..i]);
      }
    }
  }

  lemma NoLeafChild(v: Value, k: string)
    requires !HasLeaf(v)
    ensures !HasLeaf(Child(v, k))
  {
  }

  lemma MergeChild(high: Value, low: Value, k: string)
    requires Opens(high)
    ensures Child(Merge(high, low), k) == Merge(Child(high, k), Child(low, k))
  {
    if HasLeaf(low) && low.Map? {
      MergeAtKey(high, low, k);
    } else if !HasLeaf(low) {
      NoLeafChild(low, k);
    }
  }

  /** Pointwise meaning of `Merge`, for all trees: along an unblocked path merging commutes
      with looking up; behind a block nothing of the low tree is visible. */
  lemma {:induction false} MergeAtPath(high: Value, low: Value, p: Path)
    ensures Unblocked(high, p) ==> At(Merge(high, low), p) == Merge(At(high, p), At(low, p))
    ensures !Unblocked(high, p) ==> At(Merge(high, low), p) == At(high, p) == Null
    decreases p
  {
    if p != [] {
      UnblockedStep(high, p);
      if Opens(high) {
        MergeChild(high, low, p[0]);
        MergeAtPath(Child(high, p[0]), Child(low, p[0]), p[1..]);
      } else {
        AtClosed(high, p);
      }
    }
  }

  /** Every non-null value of the high tree survives. */
  lemma MergeKeepsHigh(high: Value, low: Value, p: Path)
    requires At(high, p) != Null
    ensures !At(high, p).Map? ==> At(Merge(high, low), p) == At(high, p)
    ensures At(high, p).Map? ==> At(Merge(high, low), p).Map?
  {
    MergeAtPath(high, low, p);
  }

  /** A low leaf reaches the result exactly when the high tree has nothing there and does not
      block the way, or already holds the same value. */
  lemma MergeTakesLow(high: Value, low: Value, l: Leaf)
    requires IsLeaf(low, l)
    ensures At(Merge(high, low), l.path) == l.value <==>
            (At(high, l.path) == Null && Unblocked(high, l.path))
            || (At(high, l.path) == l.value && !l.value.Map?)
            || (l.value.Map? && At(high, l.path) == Map(map[]))
  {
    MergeAtPath(high, low, l.path);
  }

  /** Nothing else appears: a new node is a low leaf, or a map above one that was taken over. */
  lemma MergeAddsNothingElse(high: Value, low: Value, p: Path) returns (l: Leaf)
    requires At(high, p) == Null && At(Merge(high, low), p) != Null
    ensures IsLeaf(low, l) && p <= l.path
    ensures At(high, l.path) == Null && Unblocked(high, l.path)
    ensures At(Merge(high, low), l.path) == l.value
    ensures p != l.path ==> At(Merge(high, low), p).Map?
  {
    MergeAtPath(high, low, p);
    var sub := LeafExists(At(low, p));
    l := Leaf(p + sub.path, sub.value);
    AtConcat(low, p, sub.path);
    AtConcat(high, p, sub.path);
    AtClosed(Null, sub.path);
    forall i | 0 <= i < |l.path| ensures Opens(At(high, l.path[..i])) {
      if i < |p| {
        assert l.path[..i] == p[..i];
      } else {
        assert l.path[..i] == p + sub.path[..i - |p|];
        AtConcat(high, p, sub.path[..i - |p|]);
        AtClosed(Null, sub.path[..i - |p|]);
      }
    }
    MergeAtPath(high, low, l.path);
    if sub.path != [] && !At(low, p).Map? {
      AtClosed(At(low, p), sub.path);
    }
  }

  // ---- null-free trees ----

  predicate NullFree(v: Value)
    decreases v
  {
    v.Map? ==> forall k :: k in v.entries ==> !v.entries[k].Null? && NullFree(v.entries[k])
  }

  lemma NullFreeHasLeaf(v: Value)
    requires NullFree(v)
    ensures HasLeaf(v) <==> !v.Null?
    decreases v
  {
    if v.Map? && v.entries != map[] {
      var k :| k in v.entries;
      NullFreeHasLeaf(v.entries[k]);
    }
  }

  lemma NullFreeChild(v: Value, k: string)
    requires NullFree(v)
    ensures NullFree(Child(v, k))
    ensures v.Map? ==> (k in v.entries <==> Child(v, k) != Null)
  {
  }

  lemma {:induction false} NullFreeAt(v: Value, p: Path)
    requires NullFree(v)
    ensures NullFree(At(v, p))
    decreases p
  {
    if p != [] {
      NullFreeAt(Child(v, p[0]), p[1..]);
    }
  }

  /** Null-free maps are determined by what they hold under each key. */
  lemma NullFreeSame(a: Value, b: Value)
    requires NullFree(a) && NullFree(b) && a.Map? && b.Map?
    requires forall k :: Child(a, k) == Child(b, k)
    ensures a == b
  {
    forall k: string ensures k in a.entries <==> k in b.entries {
      assert Child(a, k) == Child(b, k);
    }
    SameChildren(a, b);
  }

  /** Merging never brings a null into a null-free tree, whatever the low tree holds. */
  lemma {:induction false} MergeStaysNullFree(high: Value, low: Value)
    requires NullFree(high)
    ensures NullFree(Merge(high, low))
    ensures HasLeaf(low) ==> Merge(high, low) != Null
    decreases low
  {
    if Opens(high) && low.Map? && HasLeaf(low) {
      var m := Merge(high, low);
      forall k | k in m.entries ensures !m.entries[k].Null? && NullFree(m.entries[k]) {
        MergeAtKey(high, low, k);
        if k in low.entries { MergeStaysNullFree(Child(high, k), low.entries[k]); }
      }
    }
  }

  lemma {:induction false} NullFreeMerge(high: Value, low: Value)
    requires NullFree(high) && NullFree(low)
    ensures NullFree(Merge(high, low))
    ensures high.Null? ==> Merge(high, low) == low
    ensures Merge(high, low).Null? <==> high.Null? && low.Null?
    ensures Merge(high, low).Map? <==> high.Map? || (high.Null? && low.Map?)
    decreases low
  {
    NullFreeHasLeaf(low);
    if Opens(high) && low.Map? {
      var m := Merge(high, low);
      forall k: string
        ensures k in m.entries ==> !m.entries[k].Null? && NullFree(m.entries[k])
        ensures high.Null? ==> Child(m, k) == Child(low, k)
      {
        MergeAtKey(high, low, k);
        if k in low.entries { NullFreeMerge(Child(high, k), low.entries[k]); }
      }
      if high.Null? { NullFreeSame(m, low); }
    }
  }

  // ---- shapes ----

  /** No path holds a map in one tree and a non-map in the other. */
  predicate Compatible(a: Value, b: Value)
    decreases a
  {
    !a.Null? && !b.Null? ==>
      && (a.Map? <==> b.Map?)
      && (a.Map? ==> forall k :: k in a.entries && k in b.entries ==> Compatible(a.entries[k], b.entries[k]))
  }

  lemma {:induction false} CompatibleAt(a: Value, b: Value, p: Path)
    requires Compatible(a, b)
    ensures Compatible(At(a, p), At(b, p))
    decreases p
  {
    if p != [] {
      assert Compatible(Child(a, p[0]), Child(b, p[0]));
      CompatibleAt(Child(a, p[0]), Child(b, p[0]), p[1..]);
    }
  }

  lemma {:induction false} CompatibleMerge(a: Value, b: Value, c: Value)
    requires NullFree(a) && NullFree(b)
    requires Compatible(a, b) && Compatible(a, c) && Compatible(b, c)
    ensures Compatible(Merge(a, b), c)
    decreases b
  {
    NullFreeMerge(a, b);
    var m := Merge(a, b);
    if Opens(a) && b.Map? && c.Map? {
      forall k | k in m.entries && k in c.entries ensures Compatible(m.entries[k], c.entries[k]) {
        NullFreeHasLeaf(b);
        MergeAtKey(a, b, k);
        if k in b.entries {
          CompatibleMerge(Child(a, k), b.entries[k], c.entries[k]);
        }
      }
    }
  }

  /** Between compatible null-free trees a path is decided by the first one that has it. */
  lemma MergeFirst(a: Value, b: Value, p: Path)
    requires NullFree(a) && NullFree(b) && Compatible(a, b)
    ensures At(a, p) == Null ==> At(Merge(a, b), p) == At(b, p)
    ensures At(a, p) != Null ==> At(Merge(a, b), p) == Merge(At(a, p), At(b, p))
  {
    MergeAtPath(a, b, p);
    NullFreeAt(a, p);
    NullFreeAt(b, p);
    NullFreeMerge(At(a, p), At(b, p));
    if !Unblocked(a, p) && At(b, p) != Null {
      var i :| 0 <= i < |p| && !Opens(At(a, p[..i]));
      PrefixesExist(b, p, i);
      CompatibleAt(a, b, p[..i]);
      assert false;
    }
  }

  // ---- associativity ----

  /** `c` holds a leaf that merging it under `a` would add. */
  ghost predicate Adds(a: Value, c: Value) {
    exists l :: IsLeaf(c, l) && At(a, l.path) == Null && Unblocked(a, l.path)
  }

  lemma {:induction false} MergeUnchanged(a: Value, c: Value)
    requires NullFree(a) && NullFree(c)
    ensures Merge(a, c) == a <==> !Adds(a, c)
  {
    if Adds(a, c) {
      var l :| IsLeaf(c, l) && At(a, l.path) == Null && Unblocked(a, l.path);
      MergeAtPath(a, c, l.path);
    } else {
      NothingAdded(a, c);
    }
  }

  lemma AddsToNull(c: Value)
    requires HasLeaf(c)
    ensures Adds(Null, c)
  {
    var l := LeafExists(c);
    AtClosed(Null, l.path);
    forall i | 0 <= i < |l.path| ensures Opens(At(Null, l.path[..i])) { AtClosed(Null, l.path[..i]); }
  }

  lemma AddsBelow(a: Value, c: Value, k: string)
    requires a.Map? && c.Map?
    ensures Adds(Child(a, k), Child(c, k)) ==> Adds(a, c)
  {
    if l :| IsLeaf(Child(c, k), l) && At(Child(a, k), l.path) == Null && Unblocked(Child(a, k), l.path) {
      var up := Leaf([k] + l.path, l.value);
      assert up.path[1..] == l.path;
      UnblockedStep(a, up.path);
      assert IsLeaf(c, up) && At(a, up.path) == Null;
    }
  }

  lemma {:induction false} NothingAdded(a: Value, c: Value)
    requires NullFree(a) && NullFree(c) && !Adds(a, c)
    ensures Merge(a, c) == a
    decreases c
  {
    NullFreeHasLeaf(c);
    NullFreeMerge(a, c);
    if a.Null? && !c.Null? {
      AddsToNull(c);
    } else if a.Map? && c.Map? {
      forall k: string ensures Child(Merge(a, c), k) == Child(a, k) {
        MergeChild(a, c, k);
        AddsBelow(a, c, k);
        if k in c.entries { NothingAdded(Child(a, k), Child(c, k)); }
      }
      NullFreeSame(Merge(a, c), a);
    }
  }

  /** Somewhere `b` holds a non-map where `a` holds a map to which `c` still adds a leaf. */
  ghost predicate Masks(a: Value, b: Value, c: Value) {
    exists p :: At(a, p).Map? && !Opens(At(b, p)) && Adds(At(a, p), At(c, p))
  }

  lemma {:induction false} MergeAssociative(a: Value, b: Value, c: Value)
    requires NullFree(a) && NullFree(b) && NullFree(c)
    ensures Merge(Merge(a, b), c) == Merge(a, Merge(b, c)) <==> !Masks(a, b, c)
    decreases c
  {
    NullFreeMerge(a, b);
    NullFreeMerge(b, c);
    NullFreeMerge(Merge(a, b), c);
    NullFreeMerge(a, Merge(b, c));
    if !a.Map? || b.Null? {
      MasksNeedsMaps(a, b, c);
    } else if !b.Map? {
      MasksAtRoot(a, b, c);
      MergeUnchanged(a, c);
    } else if !c.Map? {
      MasksNeedsMaps(a, b, c);
    } else {
      AssociativeMaps(a, b, c);
    }
  }

  lemma MasksNeedsMaps(a: Value, b: Value, c: Value)
    requires !a.Map? || b.Null? || (b.Map? && !c.Map?)
    ensures !Masks(a, b, c)
  {
    forall p | At(a, p).Map? && !Opens(At(b, p)) ensures !Adds(At(a, p), At(c, p)) {
      if p != [] && !a.Map? { AtClosed(a, p); }
      if b.Null? { AtClosed(b, p); }
      if !c.Map? {
        AtClosed(c, p);
        forall l | IsLeaf(Null, l) ensures false { LeafImplies(Null, l); }
      }
    }
  }

  lemma MasksAtRoot(a: Value, b: Value, c: Value)
    requires a.Map? && !Opens(b)
    ensures Masks(a, b, c) <==> Adds(a, c)
  {
    assert At(a, []) == a && At(b, []) == b && At(c, []) == c;
    if Masks(a, b, c) {
      var p :| At(a, p).Map? && !Opens(At(b, p)) && Adds(At(a, p), At(c, p));
      if p != [] { AtClosed(b, p); }
    }
  }

  lemma MasksByKey(a: Value, b: Value, c: Value)
    requires a.Map? && b.Map? && c.Map?
    ensures Masks(a, b, c) <==> exists k :: k in c.entries && Masks(Child(a, k), Child(b, k), Child(c, k))
  {
    if Masks(a, b, c) {
      var p :| At(a, p).Map? && !Opens(At(b, p)) && Adds(At(a, p), At(c, p));
      assert p != [];
      var x, y, z := Child(a, p[0]), Child(b, p[0]), Child(c, p[0]);
      assert At(x, p[1..]).Map? && !Opens(At(y, p[1..])) && Adds(At(x, p[1..]), At(z, p[1..]));
      assert Masks(x, y, z);
      if p[0] !in c.entries {
        AtClosed(Null, p[1..]);
        forall l | IsLeaf(Null, l) ensures false { LeafImplies(Null, l); }
      }
    }
    if k :| k in c.entries && Masks(Child(a, k), Child(b, k), Child(c, k)) {
      var p :| At(Child(a, k), p).Map? && !Opens(At(Child(b, k), p)) && Adds(At(Child(a, k), p), At(Child(c, k), p));
      assert ([k] + p)[1..] == p;
      assert At(a, [k] + p).Map? && !Opens(At(b, [k] + p)) && Adds(At(a, [k] + p), At(c, [k] + p));
    }
  }

  lemma {:induction false} AssociativeMaps(a: Value, b: Value, c: Value)
    requires NullFree(a) && NullFree(b) && NullFree(c) && a.Map? && b.Map? && c.Map?
    ensures Merge(Merge(a, b), c) == Merge(a, Merge(b, c)) <==> !Masks(a, b, c)
    decreases c, 0
  {
    NullFreeMerge(a, b);
    NullFreeMerge(b, c);
    NullFreeMerge(Merge(a, b), c);
    NullFreeMerge(a, Merge(b, c));
    var left, right := Merge(Merge(a, b), c), Merge(a, Merge(b, c));
    MasksByKey(a, b, c);
    forall k: string
      ensures k in c.entries ==> (Child(left, k) == Child(right, k) <==> !Masks(Child(a, k), Child(b, k), Child(c, k)))
      ensures k !in c.entries ==> Child(left, k) == Child(right, k)
    {
      MergeChild(Merge(a, b), c, k);
      MergeChild(a, b, k);
      MergeChild(b, c, k);
      MergeChild(a, Merge(b, c), k);
      if k in c.entries { MergeAssociative(Child(a, k), Child(b, k), Child(c, k)); }
    }
    if forall k :: Child(left, k) == Child(right, k) { NullFreeSame(left, right); }
  }

  lemma CompatibleAssociates(a: Value, b: Value, c: Value)
    requires NullFree(a) && NullFree(b) && NullFree(c) && Compatible(a, b)
    ensures Merge(Merge(a, b), c) == Merge(a, Merge(b, c))
  {
    forall p ensures !(At(a, p).Map? && !Opens(At(b, p))) { CompatibleAt(a, b, p); }
    MergeAssociative(a, b, c);
  }

  /** Associativity fails without compatible shapes. */
  lemma AssociativityNeedsShapes()
    ensures
      var a, b, c := Map(map[]), Atom(Num(5)), Map(map["x" := Atom(Num(1))]);
      Merge(Merge(a, b), c) != Merge(a, Merge(b, c))
  {
    var a, b, c := Map(map[]), Atom(Num(5)), Map(map["x" := Atom(Num(1))]);
    assert c.entries["x"] == Atom(Num(1)) && HasLeaf(c.entries["x"]);
    MergeAtKey(a, c, "x");
    assert Merge(a, b) == a && Merge(b, c) == b;
  }

  // ---- several sources ----

  /** Sources merged one after another into an empty configuration, the first one strongest. */
  function MergeAll(sources: seq<Value>): Value {
    if sources == [] then Null
    else Merge(MergeAll(sources[..|sources| - 1]), sources[|sources| - 1])
  }

  lemma MergeAllNext(sources: seq<Value>, n: nat)
    requires n < |sources|
    ensures MergeAll(sources[..n + 1]) == Merge(MergeAll(sources[..n]), sources[n])
  {
    assert sources[..n + 1][..n] == sources[..n];
  }

  lemma {:induction false} MergeAllNullFree(sources: seq<Value>)
    ensures NullFree(MergeAll(sources))
  {
    if sources != [] {
      MergeAllNullFree(sources[..|sources| - 1]);
      MergeStaysNullFree(MergeAll(sources[..|sources| - 1]), sources[|sources| - 1]);
    }
  }

  ghost predicate Harmonious(sources: seq<Value>) {
    && (forall i :: 0 <= i < |sources| ==> NullFree(sources[i]))
    && (forall i, j :: 0 <= i < j < |sources| ==> Compatible(sources[i], sources[j]))
  }

  lemma {:induction false} MergeAllHarmonious(sources: seq<Value>, c: Value)
    requires Harmonious(sources)
    ensures NullFree(MergeAll(sources))
    ensures (forall i :: 0 <= i < |sources| ==> Compatible(sources[i], c)) ==> Compatible(MergeAll(sources), c)
  {
    if sources != [] {
      var init, last := sources[..|sources| - 1], sources[|sources| - 1];
      MergeAllHarmonious(init, last);
      NullFreeMerge(MergeAll(init), last);
      if forall i :: 0 <= i < |sources| ==> Compatible(sources[i], c) {
        MergeAllHarmonious(init, c);
        CompatibleMerge(MergeAll(init), last, c);
      }
    }
  }

  /** What the first source that has anything at `p` has there. */
  function FirstAt(sources: seq<Value>, p: Path): Value {
    if sources == [] then Null
    else if At(sources[0], p) != Null then At(sources[0], p)
    else FirstAt(sources[1..], p)
  }

  /** A value agrees with the deciding one: equal to it, or a map like it. */
  predicate Agrees(v: Value, decisive: Value) {
    if decisive.Map? then v.Map? else v == decisive
  }

  lemma {:induction false} FirstAtLast(init: seq<Value>, last: Value, p: Path)
    ensures FirstAt(init + [last], p) == if FirstAt(init, p) != Null then FirstAt(init, p) else At(last, p)
  {
    if init == [] {
      assert init + [last] == [last];
    } else {
      assert (init + [last])[1..] == init[1..] + [last];
      FirstAtLast(init[1..], last, p);
    }
  }

  /** Precedence: each path takes the value of the first source that defines it. */
  lemma {:induction false} FirstSourceWins(sources: seq<Value>, p: Path)
    requires Harmonious(sources)
    ensures Agrees(At(MergeAll(sources), p), FirstAt(sources, p))
  {
    if sources == [] {
      AtClosed(Null, p);
    } else {
      var init, last := sources[..|sources| - 1], sources[|sources| - 1];
      assert sources == init + [last];
      FirstSourceWins(init, p);
      FirstAtLast(init, last, p);
      MergeAllHarmonious(init, last);
      MergeFirst(MergeAll(init), last, p);
      NullFreeAt(MergeAll(init), p);
      NullFreeAt(last, p);
      NullFreeMerge(At(MergeAll(init), p), At(last, p));
    }
  }

  lemma {:induction false} NoLeafBefore(sources: seq<Value>, p: Path, n: nat)
    requires n <= |sources| && forall i :: 0 <= i < n ==> !HasLeaf(At(sources[i], p))
    ensures At(MergeAll(sources[..n]), p) == Null
  {
    if n == 0 {
      AtClosed(Null, p);
    } else {
      NoLeafBefore(sources, p, n - 1);
      assert sources[..n][..n - 1] == sources[..n - 1];
      MergeAtPath(MergeAll(sources[..n - 1]), sources[n - 1], p);
    }
  }

  lemma BlockedStays(high: Value, low: Value, p: Path)
    requires !Unblocked(high, p)
    ensures !Unblocked(Merge(high, low), p)
  {
    var i :| 0 <= i < |p| && !Opens(At(high, p[..i]));
    MergeKeepsHigh(high, low, p[..i]);
  }

  /** Source `k` is the first that brings anything at `p`: its value is there once it is merged,
      unless an earlier source blocks the way, and no later source changes that. */
  lemma {:induction false} DecidedFrom(sources: seq<Value>, p: Path, k: nat, n: nat)
    requires k < n <= |sources| && HasLeaf(At(sources[k], p)) && forall i :: 0 <= i < k ==> !HasLeaf(At(sources[i], p))
    ensures Unblocked(MergeAll(sources[..k]), p) ==> Agrees(At(MergeAll(sources[..n]), p), At(sources[k], p))
    ensures !Unblocked(MergeAll(sources[..k]), p) ==> !Unblocked(MergeAll(sources[..n]), p)
  {
    var before, last := MergeAll(sources[..n - 1]), sources[n - 1];
    assert sources[..n][..n - 1] == sources[..n - 1];
    if n == k + 1 {
      NoLeafBefore(sources, p, k);
      MergeAtPath(before, last, p);
    } else {
      DecidedFrom(sources, p, k, n - 1);
      if Unblocked(MergeAll(sources[..k]), p) { MergeKeepsHigh(before, last, p); }
    }
    if !Unblocked(before, p) { BlockedStays(before, last, p); }
  }

  /** Precedence, path by path: the first source that brings anything at `p` decides it exactly
      when no scalar or list of an earlier source stands in the way. */
  lemma FirstSourceDecides(sources: seq<Value>, p: Path, k: nat)
    requires k < |sources| && HasLeaf(At(sources[k], p)) && forall i :: 0 <= i < k ==> !HasLeaf(At(sources[i], p))
    ensures Agrees(At(MergeAll(sources), p), At(sources[k], p)) <==> Unblocked(MergeAll(sources[..k]), p)
  {
    DecidedFrom(sources, p, k, |sources|);
    assert sources[..|sources|] == sources;
    if !Unblocked(MergeAll(sources), p) { MergeAtPath(MergeAll(sources), Null, p); }
  }

  /** Any way of bracketing a list of merges. */
  datatype Grouping = One(v: Value) | Both(left: Grouping, right: Grouping)

  function Flatten(g: Grouping): seq<Value> {
    match g
    case One(v) => [v]
    case Both(l, r) => Flatten(l) + Flatten(r)
  }

  function MergeGrouped(g: Grouping): Value {
    match g
    case One(v) => v
    case Both(l, r) => Merge(MergeGrouped(l), MergeGrouped(r))
  }

  lemma {:induction false} MergeAllConcat(xs: seq<Value>, ys: seq<Value>)
    requires Harmonious(xs + ys)
    ensures MergeAll(xs + ys) == Merge(MergeAll(xs), MergeAll(ys))
    decreases ys
  {
    HarmoniousParts(xs, ys);
    if ys == [] {
      assert xs + ys == xs;
    } else {
      var init, last := ys[..|ys| - 1], ys[|ys| - 1];
      assert (xs + ys)[..|xs + ys| - 1] == xs + init;
      assert Harmonious(xs + init) by {
        forall i | 0 <= i < |xs + init| ensures (xs + init)[i] == (xs + ys)[i] { }
      }
      HarmoniousParts(xs, init);
      MergeAllConcat(xs, init);
      MergeAllApart(xs, init);
      MergeAllHarmonious(xs, last);
      MergeAllHarmonious(init, last);
      CompatibleAssociates(MergeAll(xs), MergeAll(init), last);
    }
  }

  lemma HarmoniousParts(xs: seq<Value>, ys: seq<Value>)
    requires Harmonious(xs + ys)
    ensures Harmonious(xs) && Harmonious(ys)
    ensures forall i, j :: 0 <= i < |xs| && 0 <= j < |ys| ==> Compatible(xs[i], ys[j])
  {
    forall i | 0 <= i < |xs| ensures (xs + ys)[i] == xs[i] { }
    forall j | 0 <= j < |ys| ensures (xs + ys)[|xs| + j] == ys[j] { }
  }

  lemma CompatibleSymmetric(a: Value, b: Value)
    requires Compatible(a, b)
    ensures Compatible(b, a)
    decreases a
  {
  }

  lemma MergeAllApart(xs: seq<Value>, ys: seq<Value>)
    requires Harmonious(xs + ys)
    ensures Compatible(MergeAll(xs), MergeAll(ys))
  {
    HarmoniousParts(xs, ys);
    forall j | 0 <= j < |ys| ensures Compatible(ys[j], MergeAll(xs)) {
      MergeAllHarmonious(xs, ys[j]);
      CompatibleSymmetric(MergeAll(xs), ys[j]);
    }
    MergeAllHarmonious(ys, MergeAll(xs));
    CompatibleSymmetric(MergeAll(ys), MergeAll(xs));
  }

  /** However the merges are grouped, the result is the left-to-right one. */
  lemma {:induction false} GroupingIrrelevant(g: Grouping)
    requires Harmonious(Flatten(g))
    ensures MergeGrouped(g) == MergeAll(Flatten(g))
    decreases g
  {
    match g
    case One(v) =>
      assert [v][..0] == [];
      assert Flatten(g)[0] == v;
      NullFreeMerge(Null, v);
    case Both(l, r) =>
      HarmoniousParts(Flatten(l), Flatten(r));
      GroupingIrrelevant(l);
      GroupingIrrelevant(r);
      MergeAllConcat(Flatten(l), Flatten(r));
  }
}

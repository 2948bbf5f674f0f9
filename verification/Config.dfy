/**
 The `Config` container: its methods walk and update the tree step by step, and are
 proved against the functions of `ConfigTree` and `PriorityMerge`.
 */
module ConfigContainer {
  import opened ConfigTree
  import opened PriorityMerge

  /** The store `prev[prevKey] = x` of `createMaps`, seen from the root. */
  function Replace(v: Value, p: Path, x: Value): Value
    decreases p
  {
    if p == [] then x else Map(Entries(v)[p[0] := Replace(Child(v, p[0]), p[1..], x)])
  }

  /** Every strict prefix of `p` is a map. */
  predicate Walked(v: Value, p: Path)
    decreases p
  {
    p == [] || (v.Map? && Walked(Child(v, p[0]), p[1..]))
  }

  lemma {:induction false} ReplaceNested(v: Value, p: Path, k: string, x: Value)
    ensures Replace(v, p + [k], x) == Replace(v, p, Map(Entries(At(v, p))[k := x]))
    decreases p
  {
    if p == [] {
      assert p + [k] == [k];
      assert [k][1..] == [];
    } else {
      assert (p + [k])[1..] == p[1..] + [k];
      ReplaceNested(Child(v, p[0]), p[1..], k, x);
    }
  }

  lemma {:induction false} ReplaceTwice(v: Value, p: Path, x: Value, y: Value)
    ensures Replace(Replace(v, p, x), p, y) == Replace(v, p, y)
    ensures At(Replace(v, p, x), p) == x
    decreases p
  {
    if p != [] {
      ReplaceTwice(Child(v, p[0]), p[1..], x, y);
      var c := Child(v, p[0]);
      assert Entries(v)[p[0] := Replace(c, p[1..], x)][p[0] := Replace(c, p[1..], y)]
          == Entries(v)[p[0] := Replace(c, p[1..], y)];
    }
  }

  lemma {:induction false} ReplaceSame(v: Value, p: Path)
    requires Walked(v, p) && At(v, p) != Null
    ensures Replace(v, p, At(v, p)) == v
    decreases p
  {
    if p != [] {
      ReplaceSame(Child(v, p[0]), p[1..]);
      assert v.entries[p[0] := v.entries[p[0]]] == v.entries;
    }
  }

  lemma {:induction false} WalkedOn(v: Value, p: Path, k: string)
    requires Walked(v, p) && At(v, p).Map?
    ensures Walked(v, p + [k])
    ensures At(v, p + [k]) == Child(At(v, p), k)
    decreases p
  {
    if p == [] {
      assert p + [k] == [k];
      assert [k][1..] == [];
    } else {
      assert (p + [k])[1..] == p[1..] + [k];
      WalkedOn(Child(v, p[0]), p[1..], k);
    }
  }

  lemma {:induction false} WalkedReplace(v: Value, p: Path, x: Value)
    requires Walked(v, p)
    ensures Walked(Replace(v, p, x), p)
    decreases p
  {
    if p != [] { WalkedReplace(Child(v, p[0]), p[1..], x); }
  }

  /** Writing below the last key is making the maps above it and storing one entry. */
  lemma {:induction false} WriteViaEnsure(v: Value, p: Path, k: string, x: Value)
    ensures match Ensure(v, p)
      case Blocked(d) => Write(v, p + [k], x) == Blocked(d)
      case Tree(t) => Write(v, p + [k], x) == Tree(Replace(t, p + [k], x))
    decreases p
  {
    if p == [] {
      assert p + [k] == [k];
      assert [k][1..] == [];
    } else {
      assert (p + [k])[1..] == p[1..] + [k];
      WriteViaEnsure(Child(v, p[0]), p[1..], k, x);
      if Ensure(v, p).Tree? {
        var below := Ensure(Child(v, p[0]), p[1..]).tree;
        var done := Replace(below, p[1..] + [k], x);
        assert Entries(v)[p[0] := below][p[0] := done] == Entries(v)[p[0] := done];
      }
    }
  }

  /** The state of `createMaps` in the middle of its walk: `rest` is what is left to do. */
  ghost predicate Midway(start: Value, path: Path, i: nat, now: Value, cur: Value) {
    && i <= |path|
    && Walked(now, path[..i]) && At(now, path[..i]) == cur
    && match Ensure(cur, path[i..])
       case Tree(c) => Ensure(start, path) == Tree(Replace(now, path[..i], c))
       case Blocked(d) => Ensure(start, path) == Blocked(i + d) && now == start
  }

  lemma MidwayStep(start: Value, path: Path, i: nat, now: Value, cur: Value)
    requires Midway(start, path, i, now, cur) && Opens(cur) && i < |path|
    ensures
      var m := Map(Entries(cur));
      Midway(start, path, i + 1, Replace(now, path[..i], m), Child(m, path[i]))
  {
    var m := Map(Entries(cur));
    var next := Replace(now, path[..i], m);
    var c := Child(m, path[i]);
    assert path[i..][1..] == path[i + 1..] && path[i..][0] == path[i];
    assert path[..i + 1] == path[..i] + [path[i]];
    ReplaceTwice(now, path[..i], m, Null);
    WalkedReplace(now, path[..i], m);
    WalkedOn(next, path[..i], path[i]);
    match Ensure(c, path[i + 1..]) {
      case Tree(t) =>
        ReplaceNested(next, path[..i], path[i], t);
        ReplaceTwice(now, path[..i], m, Map(Entries(m)[path[i] := t]));
      case Blocked(d) =>
        BlockedIsMap(c, path[i + 1..]);
        ReplaceSame(now, path[..i]);
    }
  }

  lemma BlockedIsMap(v: Value, p: Path)
    requires Ensure(v, p).Blocked?
    ensures !v.Null?
    decreases p
  {
    if v.Null? && p != [] { BlockedIsMap(Null, p[1..]); }
  }

  class Config {
    var paths: Value

    /** `NewConfig` */
    constructor ()
      ensures paths == Null
    {
      paths := Null;
    }

    /** `createMaps`: a failing call changes nothing. */
    method CreateMaps(path: Path) returns (r: Written)
      modifies this
      ensures r == Ensure(old(paths), path)
      ensures paths == if r.Tree? then r.tree else old(paths)
    {
      var cur := paths;
      var i := 0;
      assert path[..0] == [] && path[0..] == path;
      while i < |path|
        invariant Midway(old(paths), path, i, paths, cur)
      {
        if !Opens(cur) { return Blocked(i); }
        MidwayStep(old(paths), path, i, paths, cur);
        if cur.Null? { cur := Map(map[]); }
        paths := Replace(paths, path[..i], cur);
        cur := Child(cur, path[i]);
        i := i + 1;
      }
      if !Opens(cur) { return Blocked(i); }
      if cur.Null? { cur := Map(map[]); }
      assert path[i..] == [];
      paths := Replace(paths, path[..i], cur);
      r := Tree(paths);
    }

    /** `Set` */
    method Set(path: Path, value: Value) returns (r: Written)
      modifies this
      ensures r == Write(old(paths), path, value)
      ensures paths == if r.Tree? then r.tree else old(paths)
    {
      if path == [] {
        paths := value;
        return Tree(value);
      }
      var last := |path| - 1;
      assert path == path[..last] + [path[last]];
      WriteViaEnsure(paths, path[..last], path[last], value);
      r := CreateMaps(path[..last]);
      if r.Tree? {
        paths := Replace(paths, path, value);
        r := Tree(paths);
      }
    }

    /** `Get`, with the walk of `getMap` inside. */
    method Get(path: Path) returns (r: Lookup)
      ensures r == Fetch(paths, path)
    {
      var cur := paths;
      var i := 0;
      while i < |path|
        invariant 0 <= i <= |path|
        invariant Fetch(paths, path) == ShiftBy(Fetch(cur, path[i..]), i)
      {
        if !cur.Map? { return NotMap(i); }
        assert path[i..][1..] == path[i + 1..];
        if path[i] !in cur.entries { return Missing(i + 1); }
        cur := cur.entries[path[i]];
        i := i + 1;
      }
      if cur.Null? { return Missing(|path|); }
      r := Found(cur);
    }

    /** `Merge`, visiting the leaves of `low` in an arbitrary order. */
    method MergeLow(low: Config)
      modifies this
      ensures paths == Merge(old(paths), old(low.paths))
    {
      var order := ForEach(low.paths, []);
      ghost var start := paths;
      MergeRefines(start, low.paths, order);
      var i := 0;
      while i < |order|
        invariant 0 <= i <= |order|
        invariant paths == AbsorbAll(start, order[..i])
      {
        var got := Get(order[i].path);
        if !got.Found? {
          var _ := Set(order[i].path, order[i].value);
        }
        assert order[..i + 1][..i] == order[..i];
        i := i + 1;
      }
      assert order[..i] == order;
    }
  }

  function ShiftBy(l: Lookup, n: nat): Lookup {
    match l
    case Found(_) => l
    case Missing(d) => Missing(d + n)
    case NotMap(d) => NotMap(d + n)
  }

  /** `getMap`: the map at the path; both kinds of error are `Null`. */
  method GetMap(v: Value, path: Path) returns (m: Value)
    ensures m == if At(v, path).Map? then At(v, path) else Null
  {
    var cur := v;
    var i := 0;
    while i < |path|
      invariant 0 <= i <= |path| && At(v, path) == At(cur, path[i..])
    {
      assert path[i..][1..] == path[i + 1..];
      if !cur.Map? || path[i] !in cur.entries {
        AtClosed(Child(cur, path[i]), path[i + 1..]);
        return Null;
      }
      cur := cur.entries[path[i]];
      i := i + 1;
    }
    m := if cur.Map? then cur else Null;
  }

  /** `ForEach`: below a path every leaf of the subtree there; a value that is not a map, even a
      null or a missing one, is handed over itself; nothing when no map holds the last key. */
  method ForEach(v: Value, path: Path) returns (order: seq<Leaf>)
    ensures path == [] ==> Enumerates(order, v)
    ensures path != [] ==>
      var target := At(v, path);
      if !At(v, path[..|path| - 1]).Map? then order == []
      else if target.Map? then forall l :: l in order <==> IsLeafUnder(path, target, l)
      else order == [Leaf(path, target)]
  {
    if path == [] {
      order := ForEachRoot(v);
      return;
    }
    var last := |path| - 1;
    var m := GetMap(v, path[..last]);
    if !m.Map? { return []; }
    var target := Child(m, path[last]);
    assert path == path[..last] + [path[last]] && [path[last]][1..] == [];
    AtConcat(v, path[..last], [path[last]]);
    if target.Map? { order := ForEachMap(path, target); } else { order := [Leaf(path, target)]; }
  }

  /** `ForEach` with an empty path. */
  method ForEachRoot(v: Value) returns (order: seq<Leaf>)
    ensures Enumerates(order, v)
  {
    if v.Map? {
      order := ForEachMap([], v);
      forall l: Leaf ensures l in order <==> IsLeaf(v, l) { assert l.path[0..] == l.path; }
    } else if v.Null? {
      order := [];
      forall l: Leaf ensures !IsLeaf(v, l) { AtClosed(v, l.path); }
    } else {
      order := [Leaf([], v)];
      forall l: Leaf ensures IsLeaf(v, l) ==> l == Leaf([], v) { if l.path != [] { AtClosed(v, l.path); } }
    }
  }

  /** `l` is a leaf of the subtree `v` that hangs at `path`. */
  predicate IsLeafUnder(path: Path, v: Value, l: Leaf) {
    path <= l.path && IsLeaf(v, Leaf(l.path[|path|..], l.value))
  }

  lemma LeafUnderKey(v: Value, path: Path, l: Leaf)
    requires v.Map? && v.entries != map[]
    ensures IsLeafUnder(path, v, l) <==>
            exists k :: k in v.entries && IsLeafUnder(path + [k], v.entries[k], l)
  {
    if IsLeafUnder(path, v, l) {
      var rest := l.path[|path|..];
      assert rest != [];
      if rest[0] !in v.entries { AtClosed(Null, rest[1..]); }
      assert l.path[|path + [rest[0]]|..] == rest[1..];
      assert path + [rest[0]] <= l.path;
      assert IsLeafUnder(path + [rest[0]], v.entries[rest[0]], l);
    }
    if k :| k in v.entries && IsLeafUnder(path + [k], v.entries[k], l) {
      assert l.path[|path|..][1..] == l.path[|path + [k]|..];
      assert l.path[|path|] == (path + [k])[|path|] == k;
      assert path <= l.path;
    }
  }

  /** `forEachMap`: keys come in any order, nil entries are skipped, an empty map is a leaf. */
  method ForEachMap(path: Path, v: Value) returns (order: seq<Leaf>)
    requires v.Map?
    ensures forall l :: l in order <==> IsLeafUnder(path, v, l)
    decreases v
  {
    if |v.entries| == 0 {
      forall l: Leaf ensures IsLeafUnder(path, v, l) ==> l == Leaf(path, v) {
        if IsLeafUnder(path, v, l) && l.path != path {
          AtClosed(Child(v, l.path[|path|..][0]), l.path[|path|..][1..]);
        }
      }
      assert path[|path|..] == [];
      return [Leaf(path, v)];
    }
    order := [];
    var todo := v.entries.Keys;
    while todo != {}
      invariant todo <= v.entries.Keys
      invariant forall l :: l in order <==>
        exists k :: k in v.entries.Keys - todo && IsLeafUnder(path + [k], v.entries[k], l)
      decreases todo
    {
      var k :| k in todo;
      var sub: seq<Leaf> := VisitEntry(path + [k], v, k);
      ghost var before := order;
      order := order + sub;
      ghost var rest := todo - {k};
      forall l: Leaf
        ensures l in order <==> exists j :: j in v.entries.Keys - rest && IsLeafUnder(path + [j], v.entries[j], l)
      {
        if j :| j in v.entries.Keys - rest && IsLeafUnder(path + [j], v.entries[j], l) {
          assert j == k || j in v.entries.Keys - todo;
        }
      }
      todo := todo - {k};
    }
    forall l: Leaf ensures l in order <==> IsLeafUnder(path, v, l) {
      LeafUnderKey(v, path, l);
    }
  }

  method VisitEntry(path: Path, parent: Value, k: string) returns (order: seq<Leaf>)
    requires parent.Map? && k in parent.entries
    ensures forall l :: l in order <==> IsLeafUnder(path, parent.entries[k], l)
    decreases parent, 0
  {
    var v := parent.entries[k];
    if v.Map? {
      order := ForEachMap(path, v);
    } else if !v.Null? {
      order := [Leaf(path, v)];
      assert path[|path|..] == [];
      forall l: Leaf ensures IsLeafUnder(path, v, l) ==> l == Leaf(path, v) {
        if IsLeafUnder(path, v, l) && l.path != path { AtClosed(v, l.path[|path|..]); }
      }
    } else {
      order := [];
      forall l: Leaf ensures !IsLeafUnder(path, v, l) {
        if IsLeafUnder(path, v, l) { AtClosed(v, l.path[|path|..]); }
      }
    }
  }
}

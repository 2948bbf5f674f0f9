/**
 The configuration tree behind `Config.paths`: decoded YAML values, reads and writes
 along a path, and the laws that relate the two.
 */
module ConfigTree {

  datatype Scalar = Str(s: string) | Num(n: int) | Flag(b: bool)

  /** A decoded YAML value.  `Null` stands for both a nil interface and a YAML null. */
  datatype Value =
    | Null
    | Atom(a: Scalar)
    | List(items: seq<Value>)
    | Map(entries: map<string, Value>)

  type Path = seq<string>

  /** What a read answers: the value, or how long a prefix of the path the error names. */
  datatype Lookup = Found(value: Value) | Missing(depth: nat) | NotMap(depth: nat) {
    function Deeper(): Lookup {
      match this
      case Found(_) => this
      case Missing(d) => Missing(d + 1)
      case NotMap(d) => NotMap(d + 1)
    }
  }

  /** What a write answers: the new tree, or the length of the prefix that is not a map. */
  datatype Written = Tree(tree: Value) | Blocked(depth: nat)

  /** Only nil and maps can be descended into by a write. */
  predicate Opens(v: Value) {
    v.Null? || v.Map?
  }

  function Entries(v: Value): map<string, Value> {
    if v.Map? then v.entries else map[]
  }

  function Child(v: Value, k: string): Value {
    if v.Map? && k in v.entries then v.entries[k] else Null
  }

  /** The value at a path, `Null` where nothing is there. */
  function At(v: Value, p: Path): Value
    decreases p
  {
    if p == [] then v else At(Child(v, p[0]), p[1..])
  }

  /** `Config.Get`. */
  function Fetch(v: Value, p: Path): (r: Lookup)
    ensures r.Found? <==> At(v, p) != Null
    ensures r.Found? ==> r.value == At(v, p)
    ensures !r.Found? ==> r.depth <= |p|
    decreases p
  {
    if p == [] then
      if v.Null? then Missing(0) else Found(v)
    else if !v.Map? then AtClosed(v, p); NotMap(0)
    else if p[0] !in v.entries then AtClosed(Null, p[1..]); Missing(1)
    else Fetch(v.entries[p[0]], p[1..]).Deeper()
  }

  lemma AtClosed(v: Value, p: Path)
    requires !v.Map?
    requires v.Null? || p != []
    ensures At(v, p) == Null
    decreases p
  {
  }

  function NestInto(v: Value, k: string, w: Written): Written {
    match w
    case Tree(c) => Tree(Map(Entries(v)[k := c]))
    case Blocked(d) => Blocked(d + 1)
  }

  /** `Config.Set`: writes `x` at `p`, creating maps where nil stands in the way. */
  function Write(v: Value, p: Path, x: Value): Written
    decreases p
  {
    if p == [] then Tree(x)
    else if !Opens(v) then Blocked(0)
    else NestInto(v, p[0], Write(Child(v, p[0]), p[1..], x))
  }

  /** `Config.createMaps`: makes every node down to `p` a map. */
  function Ensure(v: Value, p: Path): Written
    decreases p
  {
    if !Opens(v) then Blocked(0)
    else if p == [] then Tree(Map(Entries(v)))
    else NestInto(v, p[0], Ensure(Child(v, p[0]), p[1..]))
  }

  predicate Comparable(p: Path, q: Path) {
    p <= q || q <= p
  }

  lemma AtConcat(v: Value, p: Path, q: Path)
    ensures At(v, p + q) == At(At(v, p), q)
    decreases p
  {
    if p == [] {
      assert p + q == q;
    } else {
      assert (p + q)[1..] == p[1..] + q;
    }
  }

  /** A path that exists has all its prefixes: existing prefixes are downward closed. */
  lemma PrefixesExist(v: Value, p: Path, i: nat)
    requires i <= |p|
    requires At(v, p) != Null
    ensures At(v, p[..i]) != Null
    ensures i < |p| ==> At(v, p[..i]).Map?
  {
    assert p == p[..i] + p[i..];
    AtConcat(v, p[..i], p[i..]);
    if i < |p| && !At(v, p[..i]).Map? {
      AtClosed(At(v, p[..i]), p[i..]);
    }
  }

  /** A write succeeds exactly when no strict prefix holds something other than nil or a map. */
  lemma {:induction false} WriteSucceeds(v: Value, p: Path, x: Value)
    ensures Write(v, p, x).Tree? <==> forall i :: 0 <= i < |p| ==> Opens(At(v, p[..i]))
    ensures Write(v, p, x).Blocked? ==>
      var d := Write(v, p, x).depth; d < |p| && !Opens(At(v, p[..d]))
    decreases p
  {
    if p != [] {
      assert At(v, p[..0]) == v;
      WriteSucceeds(Child(v, p[0]), p[1..], x);
      forall i | 0 < i <= |p| ensures At(v, p[..i]) == At(Child(v, p[0]), p[1..][..i - 1]) {
        assert p[..i][1..] == p[1..][..i - 1];
      }
      if Opens(v) && forall i :: 0 <= i < |p| ==> Opens(At(v, p[..i])) {
        forall i | 0 <= i < |p[1..]| ensures Opens(At(Child(v, p[0]), p[1..][..i])) {
          assert At(v, p[..i + 1]) == At(Child(v, p[0]), p[1..][..i]);
        }
      }
    }
  }

  /** The frame of a write: the written path holds the value, its strict prefixes are maps,
      and every path that is not prefix-comparable keeps value and presence. */
  lemma {:induction false} WriteFrame(v: Value, p: Path, x: Value, q: Path)
    requires Write(v, p, x).Tree?
    ensures At(Write(v, p, x).tree, p) == x
    ensures p <= q ==> At(Write(v, p, x).tree, q) == At(x, q[|p|..])
    ensures q < p ==> At(Write(v, p, x).tree, q).Map?
    ensures !Comparable(p, q) ==> At(Write(v, p, x).tree, q) == At(v, q)
    decreases p
  {
    if p != [] {
      var c := Child(v, p[0]);
      if q == [] || q[0] != p[0] {
        WriteFrame(c, p[1..], x, p[1..]);
      } else {
        WriteFrame(c, p[1..], x, q[1..]);
        assert !Comparable(p, q) ==> !Comparable(p[1..], q[1..]);
        assert p <= q ==> q[|p|..] == q[1..][|p[1..]|..];
      }
      if p <= q { assert q[0] == p[0] && p[1..] <= q[1..]; }
    }
  }

}

/**
 The cluster configuration: groups, replicasets and instances inside one tree, the
 effective configuration of an instance, and the replacement of an instance scope.
 */
module Cluster {
  import opened ConfigTree
  import opened PriorityMerge
  import opened MergeLaws
  import opened ConfigContainer

  const GROUPS := "groups"
  const REPLICASETS := "replicasets"
  const INSTANCES := "instances"

  function Groups(raw: Value): map<string, Value> { Entries(Child(raw, GROUPS)) }
  function Replicasets(group: Value): map<string, Value> { Entries(Child(group, REPLICASETS)) }
  function Instances(replicaset: Value): map<string, Value> { Entries(Child(replicaset, INSTANCES)) }

  function GroupOf(raw: Value, g: string): Value { Child(Child(raw, GROUPS), g) }
  function ReplicasetOf(raw: Value, g: string, r: string): Value { Child(Child(GroupOf(raw, g), REPLICASETS), r) }
  function InstanceOf(raw: Value, g: string, r: string, i: string): Value {
    Child(Child(ReplicasetOf(raw, g, r), INSTANCES), i)
  }

  /** `MakeClusterConfig` accepts the tree: every scope and every list of scopes is a map or nil. */
  predicate Parses(raw: Value) {
    && Opens(raw) && Opens(Child(raw, GROUPS))
    && forall g :: g in Groups(raw) ==> ParsesGroup(Groups(raw)[g])
  }

  predicate ParsesGroup(group: Value) {
    && Opens(group) && Opens(Child(group, REPLICASETS))
    && forall r :: r in Replicasets(group) ==> ParsesReplicaset(Replicasets(group)[r])
  }

  predicate ParsesReplicaset(replicaset: Value) {
    && Opens(replicaset) && Opens(Child(replicaset, INSTANCES))
    && forall i :: i in Instances(replicaset) ==> Opens(Instances(replicaset)[i])
  }

  predicate Lives(raw: Value, g: string, r: string, i: string) {
    g in Groups(raw) && r in Replicasets(GroupOf(raw, g)) && i in Instances(ReplicasetOf(raw, g, r))
  }

  ghost predicate UniqueNames(raw: Value) {
    forall g, r, g', r', i :: Lives(raw, g, r, i) && Lives(raw, g', r', i) ==> g == g' && r == r'
  }

  function InstancePath(g: string, r: string, i: string): Path {
    [GROUPS, g, REPLICASETS, r, INSTANCES, i]
  }

  lemma InstanceAtPath(raw: Value, g: string, r: string, i: string)
    ensures At(raw, InstancePath(g, r, i)) == InstanceOf(raw, g, r, i)
    ensures At(raw, [GROUPS, g, REPLICASETS, r]) == ReplicasetOf(raw, g, r)
    ensures At(raw, [GROUPS, g]) == GroupOf(raw, g)
  {
    AtTwo(raw, GROUPS, g, [REPLICASETS, r, INSTANCES, i]);
    AtTwo(GroupOf(raw, g), REPLICASETS, r, [INSTANCES, i]);
    AtTwo(ReplicasetOf(raw, g, r), INSTANCES, i, []);
    AtTwo(raw, GROUPS, g, [REPLICASETS, r]);
    AtTwo(GroupOf(raw, g), REPLICASETS, r, []);
    AtTwo(raw, GROUPS, g, []);
    assert [GROUPS, g] + [REPLICASETS, r, INSTANCES, i] == InstancePath(g, r, i);
    assert [REPLICASETS, r] + [INSTANCES, i] == [REPLICASETS, r, INSTANCES, i];
    assert [GROUPS, g] + [REPLICASETS, r] == [GROUPS, g, REPLICASETS, r];
  }

  lemma AtTwo(v: Value, j: string, k: string, t: Path)
    ensures At(v, [j, k] + t) == At(Child(Child(v, j), k), t)
    ensures At(v, [j, k]) == Child(Child(v, j), k)
  {
    assert ([j, k] + t)[1..] == [k] + t;
    assert ([k] + t)[1..] == t;
    assert [j, k][1..] == [k] && [k][1..] == [];
    assert At(Child(v, j), [k]) == At(Child(Child(v, j), k), []);
  }

  lemma ScopesParse(raw: Value, g: string, r: string)
    requires Parses(raw)
    ensures ParsesGroup(GroupOf(raw, g)) && ParsesReplicaset(ReplicasetOf(raw, g, r))
  {
    assert g in Groups(raw) ==> ParsesGroup(Groups(raw)[g]);
    var group := GroupOf(raw, g);
    assert ParsesGroup(group);
    assert r in Replicasets(group) ==> ParsesReplicaset(Replicasets(group)[r]);
  }

  // ---- scope inheritance ----

  /** The copy `mergeExclude` makes of a scope, with one label set to nil. */
  function Hide(low: Value, key: string): Value {
    var copy := Merge(Null, low);
    match Write(copy, [key], Null)
    case Tree(t) => t
    case Blocked(_) => copy
  }

  /** What a scope hands down: everything but one label, nothing when that is all. */
  function Handed(low: Value, key: string): Value {
    if low.Map? then
      if low.entries - {key} == map[] then Null else Map(low.entries - {key})
    else low
  }

  lemma HandedAt(low: Value, key: string, p: Path)
    requires NullFree(low) && p != []
    ensures NullFree(Handed(low, key))
    ensures At(Handed(low, key), p) == if p[0] == key then Null else At(low, p)
  {
    AtClosed(Null, p[1..]);
    if low.Map? && p[0] != key && p[0] in low.entries {
      assert p[0] in low.entries - {key};
    }
  }

  lemma HideIs(low: Value, key: string)
    requires NullFree(low) && Opens(low)
    ensures Hide(low, key) == Map(Entries(low)[key := Null])
  {
    NullFreeMerge(Null, low);
    WriteStep(low, key, [], Null);
    assert [key] + [] == [key];
  }

  lemma HideHands(high: Value, low: Value, key: string)
    requires NullFree(low)
    ensures Merge(high, Hide(low, key)) == Merge(high, Handed(low, key))
  {
    var hidden, handed := Hide(low, key), Handed(low, key);
    if !Opens(low) {
      NullFreeMerge(Null, low);
      assert handed == low == hidden;
    } else {
      HideIs(low, key);
      HideLeaves(low, key);
      if Opens(high) && HasLeaf(handed) {
        forall j: string
          ensures j in Merge(high, hidden).entries <==> j in Merge(high, handed).entries
          ensures Child(Merge(high, hidden), j) == Child(Merge(high, handed), j)
        {
          HideLeaves(low, key);
          MergeAtKey(high, hidden, j);
          MergeAtKey(high, handed, j);
          HiddenChild(low, key, j);
        }
        SameChildren(Merge(high, hidden), Merge(high, handed));
      }
    }
  }

  lemma HiddenChild(low: Value, key: string, j: string)
    requires NullFree(low) && Opens(low)
    ensures Child(Hide(low, key), j) == Child(Handed(low, key), j)
  {
    HideIs(low, key);
    if low.Map? && j in low.entries && j != key {
      assert j in low.entries - {key};
    }
  }

  lemma HideLeaves(low: Value, key: string)
    requires NullFree(low) && Opens(low)
    ensures HasLeaf(Hide(low, key)) <==> HasLeaf(Handed(low, key))
    ensures HasLeaf(Handed(low, key)) ==> Handed(low, key).Map?
  {
    HideIs(low, key);
    var hidden, handed := Hide(low, key), Handed(low, key);
    assert key in hidden.entries;
    if HasLeaf(hidden) {
      var j :| j in hidden.entries && HasLeaf(hidden.entries[j]);
      HiddenChild(low, key, j);
      assert handed.Map? && HasLeaf(handed.entries[j]);
    } else if HasLeaf(handed) {
      var j :| j in handed.entries && HasLeaf(handed.entries[j]);
      HiddenChild(low, key, j);
    }
  }

  /** The configuration `findInstance` builds for an instance. */
  function Effective(raw: Value, g: string, r: string, i: string): Value {
    var own := Merge(Null, InstanceOf(raw, g, r, i));
    var withReplicaset := Merge(own, Hide(ReplicasetOf(raw, g, r), INSTANCES));
    var withGroup := Merge(withReplicaset, Hide(GroupOf(raw, g), REPLICASETS));
    Merge(withGroup, Hide(raw, GROUPS))
  }

  /** The global scope, for a name that is not in the cluster. */
  function GlobalScope(raw: Value): Value {
    Merge(Null, Hide(raw, GROUPS))
  }

  /** The four scopes of an instance, innermost first. */
  function Scopes(raw: Value, g: string, r: string, i: string): (s: seq<Value>)
    ensures |s| == 4
  {
    [InstanceOf(raw, g, r, i), Handed(ReplicasetOf(raw, g, r), INSTANCES),
     Handed(GroupOf(raw, g), REPLICASETS), Handed(raw, GROUPS)]
  }

  lemma ScopesNullFree(raw: Value, g: string, r: string, i: string)
    requires NullFree(raw)
    ensures NullFree(GroupOf(raw, g)) && NullFree(ReplicasetOf(raw, g, r)) && NullFree(InstanceOf(raw, g, r, i))
  {
    InstanceAtPath(raw, g, r, i);
    NullFreeAt(raw, [GROUPS, g]);
    NullFreeAt(raw, [GROUPS, g, REPLICASETS, r]);
    NullFreeAt(raw, InstancePath(g, r, i));
  }

  lemma EffectiveMerges(raw: Value, g: string, r: string, i: string)
    requires NullFree(raw)
    ensures Effective(raw, g, r, i) == MergeAll(Scopes(raw, g, r, i))
  {
    ScopesNullFree(raw, g, r, i);
    var a, b, c := InstanceOf(raw, g, r, i), ReplicasetOf(raw, g, r), GroupOf(raw, g);
    var own := Merge(Null, a);
    HideHands(own, b, INSTANCES);
    var two := Merge(own, Handed(b, INSTANCES));
    HideHands(two, c, REPLICASETS);
    HideHands(Merge(two, Handed(c, REPLICASETS)), raw, GROUPS);
    MergeFour(a, Handed(b, INSTANCES), Handed(c, REPLICASETS), Handed(raw, GROUPS));
  }

  lemma MergeFour(a: Value, b: Value, c: Value, d: Value)
    ensures MergeAll([a, b, c, d]) == Merge(Merge(Merge(Merge(Null, a), b), c), d)
  {
    assert [a, b, c, d][..3] == [a, b, c];
    assert [a, b, c][..2] == [a, b];
    assert [a, b][..1] == [a];
    assert [a][..0] == [];
    assert MergeAll([a]) == Merge(MergeAll([]), a);
    assert MergeAll([a, b]) == Merge(MergeAll([a]), b);
    assert MergeAll([a, b, c]) == Merge(MergeAll([a, b]), c);
  }

  lemma FirstAtFour(a: Value, b: Value, c: Value, d: Value, p: Path)
    ensures FirstAt([a, b, c, d], p) ==
            if At(a, p) != Null then At(a, p) else if At(b, p) != Null then At(b, p)
            else if At(c, p) != Null then At(c, p) else At(d, p)
  {
    assert [a, b, c, d][1..] == [b, c, d];
    assert [b, c, d][1..] == [c, d];
    assert [c, d][1..] == [d];
    assert [d][1..] == [];
    assert FirstAt([d], p) == At(d, p);
    assert FirstAt([c, d], p) == if At(c, p) != Null then At(c, p) else FirstAt([d], p);
    assert FirstAt([b, c, d], p) == if At(b, p) != Null then At(b, p) else FirstAt([c, d], p);
  }

  /** Inheritance: outside the structural labels, a setting is the one of the innermost scope
      that defines it. */
  lemma InnermostScopeWins(raw: Value, g: string, r: string, i: string, p: Path)
    requires NullFree(raw) && Harmonious(Scopes(raw, g, r, i))
    requires p != [] && p[0] !in {"groups", "replicasets", "instances"}
    ensures
      var own := At(raw, ["groups", g, "replicasets", r, "instances", i] + p);
      var replicaset := At(raw, ["groups", g, "replicasets", r] + p);
      var group, global := At(raw, ["groups", g] + p), At(raw, p);
      Agrees(At(Effective(raw, g, r, i), p),
             if own != Null then own else if replicaset != Null then replicaset
             else if group != Null then group else global)
  {
    InstanceAtPath(raw, g, r, i);
    AtConcat(raw, ["groups", g, "replicasets", r, "instances", i], p);
    AtConcat(raw, ["groups", g, "replicasets", r], p);
    AtConcat(raw, ["groups", g], p);
    InnermostOfFour(raw, g, r, i, p);
  }

  /** The same, by the scopes themselves. */
  lemma InnermostOfFour(raw: Value, g: string, r: string, i: string, p: Path)
    requires NullFree(raw) && Harmonious(Scopes(raw, g, r, i))
    requires p != [] && p[0] !in {GROUPS, REPLICASETS, INSTANCES}
    ensures
      var a, b, c := InstanceOf(raw, g, r, i), ReplicasetOf(raw, g, r), GroupOf(raw, g);
      Agrees(At(Effective(raw, g, r, i), p),
             if At(a, p) != Null then At(a, p) else if At(b, p) != Null then At(b, p)
             else if At(c, p) != Null then At(c, p) else At(raw, p))
  {
    EffectiveMerges(raw, g, r, i);
    ScopesNullFree(raw, g, r, i);
    var a, b, c := InstanceOf(raw, g, r, i), ReplicasetOf(raw, g, r), GroupOf(raw, g);
    HandedAt(b, INSTANCES, p);
    HandedAt(c, REPLICASETS, p);
    HandedAt(raw, GROUPS, p);
    FirstSourceWins(Scopes(raw, g, r, i), p);
    FirstAtFour(a, b, c, raw, p);
    FirstAtFour(a, Handed(b, INSTANCES), Handed(c, REPLICASETS), Handed(raw, GROUPS), p);
  }

  /** Inheritance, path by path: the innermost scope that has the setting decides it exactly when
      no scalar or list of a scope further in stands in the way. */
  lemma ScopeDecides(raw: Value, g: string, r: string, i: string, p: Path, k: nat)
    requires NullFree(raw) && k < 4
    requires var s := Scopes(raw, g, r, i); At(s[k], p) != Null && forall j :: 0 <= j < k ==> At(s[j], p) == Null
    ensures
      var s := Scopes(raw, g, r, i);
      Agrees(At(Effective(raw, g, r, i), p), At(s[k], p)) <==> Unblocked(MergeAll(s[..k]), p)
  {
    hide Scopes, Effective, MergeAll, Agrees, Unblocked, NullFree;
    var s := Scopes(raw, g, r, i);
    EffectiveMerges(raw, g, r, i);
    HandedScopes(raw, g, r, i);
    NullFreeAt(s[k], p);
    NullFreeHasLeaf(At(s[k], p));
    assert !HasLeaf(Null);
    FirstSourceDecides(s, p, k);
  }

  lemma HandedScopes(raw: Value, g: string, r: string, i: string)
    requires NullFree(raw)
    ensures forall k :: 0 <= k < 4 ==> NullFree(Scopes(raw, g, r, i)[k])
  {
    ScopesNullFree(raw, g, r, i);
    HandedAt(ReplicasetOf(raw, g, r), INSTANCES, [""]);
    HandedAt(GroupOf(raw, g), REPLICASETS, [""]);
    HandedAt(raw, GROUPS, [""]);
  }

  /** What an unknown instance gets: the global settings, without the groups. */
  lemma GlobalScopeAt(raw: Value, p: Path)
    requires NullFree(raw) && p != []
    ensures At(GlobalScope(raw), p) == if p[0] == "groups" then Null else At(raw, p)
  {
    HideHands(Null, raw, GROUPS);
    HandedAt(raw, GROUPS, p);
    NullFreeMerge(Null, Handed(raw, GROUPS));
  }

  // ---- writing an instance scope ----

  /** The tree `SetInstanceConfig` builds before it is parsed again. */
  function WithInstance(raw: Value, g: string, r: string, i: string, conf: Value): Written {
    Write(Merge(Null, raw), InstancePath(g, r, i), conf)
  }

  function PutEntry(v: Value, k: string, x: Value): Value { Map(Entries(v)[k := x]) }

  function PutInstances(replicaset: Value, i: string, conf: Value): Value {
    PutEntry(replicaset, INSTANCES, PutEntry(Child(replicaset, INSTANCES), i, conf))
  }

  function PutReplicasets(group: Value, r: string, replicaset: Value): Value {
    PutEntry(group, REPLICASETS, PutEntry(Child(group, REPLICASETS), r, replicaset))
  }

  function PutGroups(raw: Value, g: string, group: Value): Value {
    PutEntry(raw, GROUPS, PutEntry(Child(raw, GROUPS), g, group))
  }

  /** On a parsed cluster the write never fails, and rebuilds exactly the scopes on its path. */
  lemma WithInstanceShape(raw: Value, g: string, r: string, i: string, conf: Value)
    requires NullFree(raw) && Parses(raw)
    ensures WithInstance(raw, g, r, i, conf) == Tree(Rebuilt(raw, g, r, i, conf))
  {
    NullFreeMerge(Null, raw);
    ScopesParse(raw, g, r);
    var inst := Child(ReplicasetOf(raw, g, r), INSTANCES);
    WriteStep(inst, i, [], conf);
    WriteStep(ReplicasetOf(raw, g, r), INSTANCES, [i], conf);
    WriteStep(Child(GroupOf(raw, g), REPLICASETS), r, [INSTANCES, i], conf);
    WriteStep(GroupOf(raw, g), REPLICASETS, [r, INSTANCES, i], conf);
    WriteStep(Child(raw, GROUPS), g, [REPLICASETS, r, INSTANCES, i], conf);
    WriteStep(raw, GROUPS, [g, REPLICASETS, r, INSTANCES, i], conf);
    assert [i] + [] == [i];
    assert [INSTANCES] + [i] == [INSTANCES, i];
    assert [r] + [INSTANCES, i] == [r, INSTANCES, i];
    assert [REPLICASETS] + [r, INSTANCES, i] == [REPLICASETS, r, INSTANCES, i];
    assert [g] + [REPLICASETS, r, INSTANCES, i] == [g, REPLICASETS, r, INSTANCES, i];
    assert [GROUPS] + [g, REPLICASETS, r, INSTANCES, i] == InstancePath(g, r, i);
  }

  lemma WriteStep(v: Value, k: string, t: Path, x: Value)
    requires Opens(v)
    ensures Write(v, [k] + t, x) == NestInto(v, k, Write(Child(v, k), t, x))
  {
    assert ([k] + t)[1..] == t;
  }

  /** Changing the entry under the hidden label is invisible to the scopes below. */
  lemma HideIgnores(v: Value, key: string, x: Value)
    requires Opens(v) && NullFree(v) && NullFree(x) && !x.Null?
    ensures NullFree(PutEntry(v, key, x))
    ensures Hide(PutEntry(v, key, x), key) == Hide(v, key)
  {
    HideIs(v, key);
    HideIs(PutEntry(v, key, x), key);
    assert Entries(v)[key := x][key := Null] == Entries(v)[key := Null];
  }

  /** Replacing an instance scope: the scope is the given one, the other instances are the
      same ones, and their effective configurations do not move. */
  lemma WithInstanceFrame(raw: Value, g: string, r: string, i: string, conf: Value,
                          g': string, r': string, i': string)
    requires NullFree(raw) && Parses(raw) && NullFree(conf) && !conf.Null?
    ensures WithInstance(raw, g, r, i, conf).Tree?
    ensures
      var after := WithInstance(raw, g, r, i, conf).tree;
      && NullFree(after)
      && InstanceOf(after, g, r, i) == conf
      && (Lives(after, g', r', i') <==> Lives(raw, g', r', i') || (g', r', i') == (g, r, i))
      && (Lives(raw, g', r', i') && (g', r', i') != (g, r, i) ==>
            Effective(after, g', r', i') == Effective(raw, g', r', i'))
      && GlobalScope(after) == GlobalScope(raw)
  {
    WithInstanceShape(raw, g, r, i, conf);
    RebuiltHides(raw, g, r, i, conf);
    LivesAfter(raw, g, r, i, conf, g', r', i');
    InstanceAfter(raw, g, r, i, conf);
    if Lives(raw, g', r', i') && (g', r', i') != (g, r, i) {
      OtherInstance(raw, g, r, i, conf, g', r', i');
    }
  }

  function NewReplicaset(raw: Value, g: string, r: string, i: string, conf: Value): Value {
    PutInstances(ReplicasetOf(raw, g, r), i, conf)
  }

  function NewGroup(raw: Value, g: string, r: string, i: string, conf: Value): Value {
    PutReplicasets(GroupOf(raw, g), r, NewReplicaset(raw, g, r, i, conf))
  }

  function Rebuilt(raw: Value, g: string, r: string, i: string, conf: Value): Value {
    PutGroups(raw, g, NewGroup(raw, g, r, i, conf))
  }

  lemma PutNullFree(v: Value, k: string, x: Value)
    requires NullFree(v) && NullFree(x) && !x.Null?
    ensures NullFree(PutEntry(v, k, x))
  {
  }

  /** None of the rebuilt scopes hands down anything new. */
  lemma RebuiltHides(raw: Value, g: string, r: string, i: string, conf: Value)
    requires NullFree(raw) && Parses(raw) && NullFree(conf) && !conf.Null?
    ensures NullFree(Rebuilt(raw, g, r, i, conf))
    ensures Hide(Rebuilt(raw, g, r, i, conf), GROUPS) == Hide(raw, GROUPS)
    ensures Hide(NewGroup(raw, g, r, i, conf), REPLICASETS) == Hide(GroupOf(raw, g), REPLICASETS)
    ensures Hide(NewReplicaset(raw, g, r, i, conf), INSTANCES) == Hide(ReplicasetOf(raw, g, r), INSTANCES)
  {
    ScopesNullFree(raw, g, r, i);
    ScopesParse(raw, g, r);
    var group, replicaset := GroupOf(raw, g), ReplicasetOf(raw, g, r);
    var newReplicaset, newGroup := NewReplicaset(raw, g, r, i, conf), NewGroup(raw, g, r, i, conf);
    PutNullFree(Child(replicaset, INSTANCES), i, conf);
    HideIgnores(replicaset, INSTANCES, PutEntry(Child(replicaset, INSTANCES), i, conf));
    PutNullFree(Child(group, REPLICASETS), r, newReplicaset);
    HideIgnores(group, REPLICASETS, PutEntry(Child(group, REPLICASETS), r, newReplicaset));
    PutNullFree(Child(raw, GROUPS), g, newGroup);
    HideIgnores(raw, GROUPS, PutEntry(Child(raw, GROUPS), g, newGroup));
  }

  lemma InstanceAfter(raw: Value, g: string, r: string, i: string, conf: Value)
    ensures InstanceOf(Rebuilt(raw, g, r, i, conf), g, r, i) == conf
  {
  }

  lemma LivesAfter(raw: Value, g: string, r: string, i: string, conf: Value, g': string, r': string, i': string)
    requires Parses(raw)
    ensures
      var after := Rebuilt(raw, g, r, i, conf);
      Lives(after, g', r', i') <==> Lives(raw, g', r', i') || (g', r', i') == (g, r, i)
  {
  }

  lemma OtherInstance(raw: Value, g: string, r: string, i: string, conf: Value, g': string, r': string, i': string)
    requires Parses(raw) && Lives(raw, g', r', i') && (g', r', i') != (g, r, i)
    ensures
      var after := Rebuilt(raw, g, r, i, conf);
      && GroupOf(after, g') == (if g' == g then NewGroup(raw, g, r, i, conf) else GroupOf(raw, g'))
      && ReplicasetOf(after, g', r') ==
         (if g' == g && r' == r then NewReplicaset(raw, g, r, i, conf) else ReplicasetOf(raw, g', r'))
      && InstanceOf(after, g', r', i') == InstanceOf(raw, g', r', i')
  {
  }

  /** The re-parse accepts the new tree exactly when the given scope is a map. */
  lemma WithInstanceParses(raw: Value, g: string, r: string, i: string, conf: Value)
    requires NullFree(raw) && Parses(raw) && NullFree(conf) && !conf.Null?
    ensures WithInstance(raw, g, r, i, conf).Tree?
    ensures Parses(WithInstance(raw, g, r, i, conf).tree) <==> conf.Map?
  {
    WithInstanceShape(raw, g, r, i, conf);
    ScopesParse(raw, g, r);
    var newReplicaset, newGroup := NewReplicaset(raw, g, r, i, conf), NewGroup(raw, g, r, i, conf);
    ParsesPutInstance(ReplicasetOf(raw, g, r), i, conf);
    ParsesPutReplicaset(GroupOf(raw, g), r, newReplicaset);
    ParsesPutGroup(raw, g, newGroup);
  }

  lemma ParsesPutInstance(replicaset: Value, i: string, conf: Value)
    requires ParsesReplicaset(replicaset)
    ensures ParsesReplicaset(PutInstances(replicaset, i, conf)) <==> Opens(conf)
  {
    var after := PutInstances(replicaset, i, conf);
    assert Instances(after) == Instances(replicaset)[i := conf];
    assert i in Instances(after);
  }

  lemma ParsesPutReplicaset(group: Value, r: string, replicaset: Value)
    requires ParsesGroup(group)
    ensures ParsesGroup(PutReplicasets(group, r, replicaset)) <==> ParsesReplicaset(replicaset)
  {
    var after := PutReplicasets(group, r, replicaset);
    assert Replicasets(after) == Replicasets(group)[r := replicaset];
    assert r in Replicasets(after);
  }

  lemma ParsesPutGroup(raw: Value, g: string, group: Value)
    requires Parses(raw)
    ensures Parses(PutGroups(raw, g, group)) <==> ParsesGroup(group)
  {
    var after := PutGroups(raw, g, group);
    assert Groups(after) == Groups(raw)[g := group];
    assert g in Groups(after);
  }

  // ---- the operations ----

  datatype Location = Nowhere | Somewhere(group: string, replicaset: string)

  ghost predicate Located(raw: Value, name: string, at: Location) {
    match at
    case Nowhere => forall g, r :: !Lives(raw, g, r, name)
    case Somewhere(g, r) => Lives(raw, g, r, name)
  }

  /** `FindInstance`; `findInstance`, `ReplaceInstanceConfig` and `getCConfigInstance` search
      the same way.  Maps are visited in any order; with unique names that does not matter. */
  method FindInstance(raw: Value, name: string) returns (at: Location)
    ensures Located(raw, name, at)
    ensures UniqueNames(raw) ==>
      forall g, r :: Lives(raw, g, r, name) ==> at == Somewhere(g, r)
  {
    var gs := Groups(raw).Keys;
    while gs != {}
      invariant gs <= Groups(raw).Keys
      invariant forall g, r :: Lives(raw, g, r, name) ==> g in gs
      decreases gs
    {
      var g :| g in gs;
      var group := Groups(raw)[g];
      var rs := Replicasets(group).Keys;
      while rs != {}
        invariant rs <= Replicasets(group).Keys
        invariant forall r :: Lives(raw, g, r, name) ==> r in rs
        decreases rs
      {
        var r :| r in rs;
        if name in Instances(Replicasets(group)[r]) {
          assert Lives(raw, g, r, name);
          return Somewhere(g, r);
        }
        rs := rs - {r};
      }
      gs := gs - {g};
    }
    at := Nowhere;
  }

  /** `mergeExclude` */
  method MergeExclude(high: Config, low: Value, key: string)
    modifies high
    ensures high.paths == Merge(old(high.paths), Hide(low, key))
  {
    var source := new Config();
    source.paths := low;
    var copy := new Config();
    copy.MergeLow(source);
    var _ := copy.Set([key], Null);
    high.MergeLow(copy);
  }

  /** `Instantiate` */
  method Instantiate(raw: Value, name: string) returns (config: Config, ghost at: Location)
    ensures fresh(config)
    ensures Located(raw, name, at)
    ensures config.paths ==
      match at
      case Nowhere => GlobalScope(raw)
      case Somewhere(g, r) => Effective(raw, g, r, name)
  {
    var where := FindInstance(raw, name);
    at := where;
    config := new Config();
    match where {
      case Nowhere =>
        MergeExclude(config, raw, GROUPS);
      case Somewhere(g, r) =>
        var own := new Config();
        own.paths := InstanceOf(raw, g, r, name);
        config.MergeLow(own);
        MergeExclude(config, ReplicasetOf(raw, g, r), INSTANCES);
        MergeExclude(config, GroupOf(raw, g), REPLICASETS);
        MergeExclude(config, raw, GROUPS);
    }
  }

  datatype Replaced = Done(raw: Value) | SetFailed(depth: nat) | ParseFailed | NoInstance

  /** What both replacing operations answer for a location. */
  ghost predicate ReplacedAt(raw: Value, g: string, r: string, i: string, conf: Value, res: Replaced) {
    match res
    case Done(after) => WithInstance(raw, g, r, i, conf) == Tree(after) && Parses(after)
    case SetFailed(d) => WithInstance(raw, g, r, i, conf) == Blocked(d)
    case ParseFailed => WithInstance(raw, g, r, i, conf).Tree? && !Parses(WithInstance(raw, g, r, i, conf).tree)
    case NoInstance => false
  }

  /** `SetInstanceConfig` */
  method SetInstanceConfig(raw: Value, g: string, r: string, i: string, conf: Value) returns (res: Replaced)
    ensures ReplacedAt(raw, g, r, i, conf, res)
    ensures NullFree(raw) && Parses(raw) && NullFree(conf) && !conf.Null? ==> (res.Done? <==> conf.Map?)
  {
    var source := new Config();
    source.paths := raw;
    var result := new Config();
    result.MergeLow(source);
    var w := result.Set(InstancePath(g, r, i), conf);
    if NullFree(raw) && Parses(raw) && NullFree(conf) && !conf.Null? {
      WithInstanceShape(raw, g, r, i, conf);
      WithInstanceParses(raw, g, r, i, conf);
    }
    if w.Blocked? { return SetFailed(w.depth); }
    if Parses(result.paths) { return Done(result.paths); }
    res := ParseFailed;
  }

  /** `ReplaceInstanceConfig` */
  method ReplaceInstanceConfig(raw: Value, name: string, conf: Value) returns (res: Replaced)
    ensures res.NoInstance? <==> forall g, r :: !Lives(raw, g, r, name)
    ensures !res.NoInstance? ==> exists g, r :: Lives(raw, g, r, name) && ReplacedAt(raw, g, r, name, conf, res)
  {
    var at := FindInstance(raw, name);
    match at
    case Nowhere => res := NoInstance;
    case Somewhere(g, r) => res := SetInstanceConfig(raw, g, r, name, conf);
  }
}

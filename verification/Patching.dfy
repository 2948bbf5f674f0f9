/**
 The promote, demote and expel pipelines over a store of documents, end to end: from the
 documents, through the merged cluster, to the effective configuration of every instance.
 */
module Patching {
  import opened Options
  import opened ConfigTree
  import opened PriorityMerge
  import opened MergeLaws
  import opened ConfigContainer
  import opened Cluster
  import opened ConfigSource
  import opened FailoverModes

  // ---- the tree around a patched path ----

  /** What a patch guarantees about the merged tree, seen without the documents. */
  ghost predicate Moved(raw: Value, raw': Value, path: Path) {
    && NullFree(raw) && NullFree(raw')
    && At(raw', path) != Null
    && (forall q :: !Comparable(path, q) ==> At(raw', q) == At(raw, q))
    && (forall q :: q < path ==> At(raw', q).Map?)
  }

  /** No path of scopes runs through the patched setting. */
  ghost predicate Outside(path: Path) {
    && |path| >= 5
    && path[0] == GROUPS && path[2] == REPLICASETS
    && (path[4] == INSTANCES ==> |path| >= 7)
  }

  lemma OpenStays(raw: Value, raw': Value, path: Path, q: Path)
    requires Moved(raw, raw', path) && !(path <= q) && Opens(At(raw, q))
    ensures Opens(At(raw', q))
  {
    if Comparable(path, q) { assert q < path; }
  }

  lemma ScopePaths(raw: Value, g: string, r: string, i: string)
    ensures At(raw, []) == raw
    ensures At(raw, [GROUPS]) == Child(raw, GROUPS)
    ensures At(raw, [GROUPS, g]) == GroupOf(raw, g)
    ensures At(raw, [GROUPS, g, REPLICASETS]) == Child(GroupOf(raw, g), REPLICASETS)
    ensures At(raw, ReplicasetPath(g, r)) == ReplicasetOf(raw, g, r)
    ensures At(raw, ReplicasetPath(g, r) + [INSTANCES]) == Child(ReplicasetOf(raw, g, r), INSTANCES)
    ensures At(raw, InstancePath(g, r, i)) == InstanceOf(raw, g, r, i)
  {
    InstanceAtPath(raw, g, r, i);
    AtOne(raw, GROUPS);
    AtConcat(raw, [GROUPS, g], [REPLICASETS]);
    AtOne(GroupOf(raw, g), REPLICASETS);
    assert [GROUPS, g] + [REPLICASETS] == [GROUPS, g, REPLICASETS];
    AtConcat(raw, ReplicasetPath(g, r), [INSTANCES]);
    AtOne(ReplicasetOf(raw, g, r), INSTANCES);
  }

  lemma ScopesOpen(raw: Value, g: string, r: string, i: string)
    requires Parses(raw)
    ensures Opens(GroupOf(raw, g)) && Opens(Child(GroupOf(raw, g), REPLICASETS))
    ensures Opens(ReplicasetOf(raw, g, r)) && Opens(Child(ReplicasetOf(raw, g, r), INSTANCES))
    ensures Opens(InstanceOf(raw, g, r, i))
  {
    ScopesParse(raw, g, r);
    var replicaset := ReplicasetOf(raw, g, r);
    assert i in Instances(replicaset) ==> Opens(Instances(replicaset)[i]);
  }

  lemma AtOne(v: Value, k: string)
    ensures At(v, [k]) == Child(v, k)
  {
    assert [k][1..] == [];
  }

  /** Every scope and scope list on the way to an instance is open. */
  predicate WayOpen(raw: Value, g: string, r: string, i: string) {
    && Opens(raw) && Opens(Child(raw, GROUPS))
    && Opens(GroupOf(raw, g)) && Opens(Child(GroupOf(raw, g), REPLICASETS))
    && Opens(ReplicasetOf(raw, g, r)) && Opens(Child(ReplicasetOf(raw, g, r), INSTANCES))
    && Opens(InstanceOf(raw, g, r, i))
  }

  lemma NotParses(raw: Value) returns (g: string, r: string, i: string)
    requires !Parses(raw)
    ensures !WayOpen(raw, g, r, i)
  {
    g, r, i := "", "", "";
    if Opens(raw) && Opens(Child(raw, GROUPS)) {
      g :| g in Groups(raw) && !ParsesGroup(Groups(raw)[g]);
      var group := GroupOf(raw, g);
      if Opens(group) && Opens(Child(group, REPLICASETS)) {
        r :| r in Replicasets(group) && !ParsesReplicaset(Replicasets(group)[r]);
        var replicaset := ReplicasetOf(raw, g, r);
        if Opens(replicaset) && Opens(Child(replicaset, INSTANCES)) {
          i :| i in Instances(replicaset) && !Opens(Instances(replicaset)[i]);
        }
      }
    }
  }

  lemma WayStaysOpen(raw: Value, raw': Value, path: Path, g: string, r: string, i: string)
    requires Moved(raw, raw', path) && Outside(path) && Parses(raw)
    ensures WayOpen(raw', g, r, i)
  {
    ScopesOpen(raw, g, r, i);
    ScopePaths(raw, g, r, i);
    ScopePaths(raw', g, r, i);
    OpenStays(raw, raw', path, []);
    OpenStays(raw, raw', path, [GROUPS]);
    OpenStays(raw, raw', path, [GROUPS, g]);
    OpenStays(raw, raw', path, [GROUPS, g, REPLICASETS]);
    OpenStays(raw, raw', path, ReplicasetPath(g, r));
    OpenStays(raw, raw', path, ReplicasetPath(g, r) + [INSTANCES]);
    OpenStays(raw, raw', path, InstancePath(g, r, i));
  }

  /** Everything on the way to an instance is nil or a map. */
  predicate NothingInTheWay(raw: Value, g: string, r: string, i: string) {
    && Opens(raw) && Opens(At(raw, ["groups"])) && Opens(At(raw, ["groups", g]))
    && Opens(At(raw, ["groups", g, "replicasets"])) && Opens(At(raw, ["groups", g, "replicasets", r]))
    && Opens(At(raw, ["groups", g, "replicasets", r, "instances"]))
    && Opens(At(raw, ["groups", g, "replicasets", r, "instances", i]))
  }

  lemma WayIs(raw: Value, g: string, r: string, i: string)
    ensures WayOpen(raw, g, r, i) <==> NothingInTheWay(raw, g, r, i)
  {
    ScopePaths(raw, g, r, i);
    assert ReplicasetPath(g, r) + [INSTANCES] == ["groups", g, "replicasets", r, "instances"];
  }

  /** A cluster parses exactly when nothing is in the way to any instance. */
  lemma ParsesExactly(raw: Value)
    ensures Parses(raw) <==> forall g, r, i :: NothingInTheWay(raw, g, r, i)
  {
    if Parses(raw) {
      forall g, r, i ensures NothingInTheWay(raw, g, r, i) {
        ScopesOpen(raw, g, r, i);
        WayIs(raw, g, r, i);
      }
    } else {
      var g, r, i := NotParses(raw);
      WayIs(raw, g, r, i);
    }
  }

  /** A patch leaves the cluster parseable. */
  lemma StillParses(raw: Value, raw': Value, path: Path)
    requires Moved(raw, raw', path) && Outside(path) && Parses(raw)
    ensures Parses(raw')
  {
    if !Parses(raw') {
      var g, r, i := NotParses(raw');
      WayStaysOpen(raw, raw', path, g, r, i);
    }
  }

  lemma LivesByPath(raw: Value, g: string, r: string, i: string)
    requires NullFree(raw)
    ensures Lives(raw, g, r, i) <==> At(raw, InstancePath(g, r, i)) != Null
  {
    InstanceAtPath(raw, g, r, i);
    ScopesNullFree(raw, g, r, i);
    NullFreeChild(raw, GROUPS);
    NullFreeChild(Child(raw, GROUPS), g);
    NullFreeChild(GroupOf(raw, g), REPLICASETS);
    NullFreeChild(Child(GroupOf(raw, g), REPLICASETS), r);
    NullFreeChild(ReplicasetOf(raw, g, r), INSTANCES);
    NullFreeChild(Child(ReplicasetOf(raw, g, r), INSTANCES), i);
  }

  // ---- instances the patch does not concern ----

  /** The patched path meets none of the settings an instance gets from its scopes. */
  ghost predicate Misses(path: Path, g: string, r: string, i: string) {
    && !Comparable(path, InstancePath(g, r, i))
    && (forall k :: k != INSTANCES ==> !Comparable(path, ReplicasetPath(g, r) + [k]))
    && (forall k :: k != REPLICASETS ==> !Comparable(path, [GROUPS, g] + [k]))
    && (forall k :: k != GROUPS ==> !Comparable(path, [k]))
  }

  lemma HandedSame(a: Value, b: Value, key: string)
    requires NullFree(a) && NullFree(b) && a.Map? && b.Map?
    requires forall k :: k != key ==> Child(a, k) == Child(b, k)
    ensures Handed(a, key) == Handed(b, key)
  {
    forall k: string ensures k in a.entries - {key} <==> k in b.entries - {key}
      ensures k in a.entries - {key} ==> a.entries[k] == b.entries[k]
    {
      if k != key {
        assert Child(a, k) == Child(b, k);
        NullFreeChild(a, k);
        NullFreeChild(b, k);
      }
    }
    assert a.entries - {key} == b.entries - {key};
  }

  /** Below a map node of both trees only the keys of the patched path can differ. */
  lemma ScopeSame(raw: Value, raw': Value, path: Path, at: Path, key: string)
    requires Moved(raw, raw', path) && At(raw, at).Map? && At(raw', at).Map?
    requires forall k :: k != key ==> !Comparable(path, at + [k])
    ensures Handed(At(raw', at), key) == Handed(At(raw, at), key)
  {
    NullFreeAt(raw, at);
    NullFreeAt(raw', at);
    forall k | k != key ensures Child(At(raw', at), k) == Child(At(raw, at), k) {
      AtConcat(raw, at, [k]);
      AtConcat(raw', at, [k]);
      AtOne(At(raw, at), k);
      AtOne(At(raw', at), k);
    }
    HandedSame(At(raw', at), At(raw, at), key);
  }

  lemma OthersKeepEffective(raw: Value, raw': Value, path: Path, g: string, r: string, i: string)
    requires Moved(raw, raw', path) && Misses(path, g, r, i) && Lives(raw, g, r, i)
    ensures Lives(raw', g, r, i)
    ensures Effective(raw', g, r, i) == Effective(raw, g, r, i)
  {
    var p := InstancePath(g, r, i);
    LivesByPath(raw, g, r, i);
    LivesByPath(raw', g, r, i);
    InstanceAtPath(raw, g, r, i);
    InstanceAtPath(raw', g, r, i);
    PrefixesExist(raw, p, 0);
    PrefixesExist(raw, p, 2);
    PrefixesExist(raw, p, 4);
    PrefixesExist(raw', p, 0);
    PrefixesExist(raw', p, 2);
    PrefixesExist(raw', p, 4);
    assert p[..0] == [] && p[..2] == [GROUPS, g] && p[..4] == ReplicasetPath(g, r);
    forall k | k != GROUPS ensures !Comparable(path, [] + [k]) { assert [] + [k] == [k]; }
    ScopeSame(raw, raw', path, [], GROUPS);
    ScopeSame(raw, raw', path, [GROUPS, g], REPLICASETS);
    ScopeSame(raw, raw', path, ReplicasetPath(g, r), INSTANCES);
    EffectiveMerges(raw, g, r, i);
    EffectiveMerges(raw', g, r, i);
  }

  lemma MissesOther(g: string, r: string, i: string, tail: Path, g': string, r': string, i': string)
    requires (g, r, i) != (g', r', i') && |tail| == 2
    ensures Misses(InstancePath(g, r, i) + tail, g', r', i')
  {
    var path := InstancePath(g, r, i) + tail;
    var q := InstancePath(g', r', i');
    assert path[1] == g && path[3] == r && path[5] == i && q[1] == g' && q[3] == r' && q[5] == i';
    forall k | k != INSTANCES ensures !Comparable(path, ReplicasetPath(g', r') + [k]) {
      assert path[4] == INSTANCES && (ReplicasetPath(g', r') + [k])[4] == k;
    }
    forall k | k != REPLICASETS ensures !Comparable(path, [GROUPS, g'] + [k]) {
      assert path[2] == REPLICASETS && ([GROUPS, g'] + [k])[2] == k;
    }
    forall k | k != GROUPS ensures !Comparable(path, [k]) {
      assert path[0] == GROUPS && [k][0] == k;
    }
  }

  lemma MissesOtherReplicaset(g: string, r: string, key: string, g': string, r': string, i': string)
    requires (g, r) != (g', r') && key != INSTANCES
    ensures Misses(ReplicasetPath(g, r) + [key], g', r', i')
  {
    var path := ReplicasetPath(g, r) + [key];
    var q := InstancePath(g', r', i');
    assert path[1] == g && path[3] == r && path[4] == key && q[1] == g' && q[3] == r' && q[4] == INSTANCES;
    forall k | k != INSTANCES ensures !Comparable(path, ReplicasetPath(g', r') + [k]) {
      assert (ReplicasetPath(g', r') + [k])[1] == g' && (ReplicasetPath(g', r') + [k])[3] == r';
    }
    forall k | k != REPLICASETS ensures !Comparable(path, [GROUPS, g'] + [k]) {
      assert path[2] == REPLICASETS && ([GROUPS, g'] + [k])[2] == k;
    }
    forall k | k != GROUPS ensures !Comparable(path, [k]) {
      assert path[0] == GROUPS && [k][0] == k;
    }
  }

  /** A setting written into the instance scope is the effective one, a map at least as a map. */
  lemma OwnSettingRules(raw: Value, g: string, r: string, i: string, tail: Path)
    requires At(raw, InstancePath(g, r, i) + tail) != Null
    ensures
      var v, e := At(raw, InstancePath(g, r, i) + tail), At(Effective(raw, g, r, i), tail);
      if v.Map? then HasLeaf(v) ==> e.Map? else e == v
  {
    InstanceAtPath(raw, g, r, i);
    AtConcat(raw, InstancePath(g, r, i), tail);
    var inst := InstanceOf(raw, g, r, i);
    var own := Merge(Null, inst);
    MergeAtPath(Null, inst, tail);
    AtClosed(Null, tail);
    forall j | 0 <= j < |tail| ensures Opens(At(Null, tail[..j])) { AtClosed(Null, tail[..j]); }
    if HasLeaf(At(inst, tail)) {
      var two := Merge(own, Hide(ReplicasetOf(raw, g, r), INSTANCES));
      MergeKeepsHigh(own, Hide(ReplicasetOf(raw, g, r), INSTANCES), tail);
      var three := Merge(two, Hide(GroupOf(raw, g), REPLICASETS));
      MergeKeepsHigh(two, Hide(GroupOf(raw, g), REPLICASETS), tail);
      MergeKeepsHigh(three, Hide(raw, GROUPS), tail);
    }
  }

  // ---- the operations end to end ----

  lemma PatchMoves(docs: seq<Doc>, docs': seq<Doc>, p: Patch, t: nat)
    requires PatchOf(docs, docs', p.path, p.value, t) && LeafValue(p.value)
    ensures Moved(Merged(docs), Merged(docs'), p.path)
  {
    PatchEffect(docs, docs', p.path, p.value, t);
  }

  /** Promoting (or demoting) with failover off: the instance's effective mode is the written
      one exactly when no document ahead of the patched one holds another, the cluster still
      parses, and every other instance keeps its effective configuration. */
  lemma ModePatchWorks(docs: seq<Doc>, docs': seq<Doc>, op: Operation, inst: CInstance, t: nat)
    requires op.Promote? || op.Demote?
    requires inst.failover.FailoverOff?
    requires var p := PatchFor(op, inst).value; PatchOf(docs, docs', p.path, p.value, t)
    requires Parses(Merged(docs))
    ensures Parses(Merged(docs'))
    ensures Lives(Merged(docs'), inst.group, inst.replicaset, inst.name)
    ensures
      var p, mode := PatchFor(op, inst).value, Atom(Str(if op.Promote? then "rw" else "ro"));
      At(Effective(Merged(docs'), inst.group, inst.replicaset, inst.name), ["database", "mode"]) == mode
      <==> Unshadowed(docs, p.path, mode, t)
    ensures forall g, r, i :: Lives(Merged(docs), g, r, i) && (g, r, i) != (inst.group, inst.replicaset, inst.name) ==>
      Lives(Merged(docs'), g, r, i) && Effective(Merged(docs'), g, r, i) == Effective(Merged(docs), g, r, i)
  {
    var p := PatchFor(op, inst).value;
    var raw, raw' := Merged(docs), Merged(docs');
    PatchMoves(docs, docs', p, t);
    PatchEffect(docs, docs', p.path, p.value, t);
    StillParses(raw, raw', p.path);
    PrefixesExist(raw', p.path, 6);
    assert p.path[..6] == InstancePath(inst.group, inst.replicaset, inst.name);
    LivesByPath(raw', inst.group, inst.replicaset, inst.name);
    OwnSettingRules(raw', inst.group, inst.replicaset, inst.name, ["database", "mode"]);
    NullFreeAt(raw', p.path);
    NullFreeHasLeaf(At(raw', p.path));
    forall g, r, i | Lives(raw, g, r, i) && (g, r, i) != (inst.group, inst.replicaset, inst.name)
      ensures Lives(raw', g, r, i) && Effective(raw', g, r, i) == Effective(raw, g, r, i)
    {
      MissesOther(inst.group, inst.replicaset, inst.name, ["database", "mode"], g, r, i);
      OthersKeepEffective(raw, raw', p.path, g, r, i);
    }
  }

  /** Promoting with manual failover: the replicaset's leader is the instance exactly when no
      document ahead of the patched one names another, and instances of other replicasets keep
      their effective configuration. */
  lemma LeaderPatchWorks(docs: seq<Doc>, docs': seq<Doc>, inst: CInstance, t: nat)
    requires inst.failover.FailoverManual?
    requires var p := PatchFor(Promote, inst).value; PatchOf(docs, docs', p.path, p.value, t)
    requires Parses(Merged(docs))
    ensures Parses(Merged(docs'))
    ensures Child(ReplicasetOf(Merged(docs'), inst.group, inst.replicaset), "leader") == Atom(Str(inst.name))
            <==> Unshadowed(docs, PatchFor(Promote, inst).value.path, Atom(Str(inst.name)), t)
    ensures Child(ReplicasetOf(Merged(docs'), inst.group, inst.replicaset), "leader") != Null
    ensures forall g, r, i :: Lives(Merged(docs), g, r, i) && (g, r) != (inst.group, inst.replicaset) ==>
      Lives(Merged(docs'), g, r, i) && Effective(Merged(docs'), g, r, i) == Effective(Merged(docs), g, r, i)
    ensures forall i :: Lives(Merged(docs), inst.group, inst.replicaset, i) ==>
      && Lives(Merged(docs'), inst.group, inst.replicaset, i)
      && InstanceOf(Merged(docs'), inst.group, inst.replicaset, i) ==
         InstanceOf(Merged(docs), inst.group, inst.replicaset, i)
  {
    var p := PatchFor(Promote, inst).value;
    var raw, raw' := Merged(docs), Merged(docs');
    PatchMoves(docs, docs', p, t);
    PatchEffect(docs, docs', p.path, p.value, t);
    StillParses(raw, raw', p.path);
    InstanceAtPath(raw', inst.group, inst.replicaset, inst.name);
    AtConcat(raw', ReplicasetPath(inst.group, inst.replicaset), ["leader"]);
    AtOne(ReplicasetOf(raw', inst.group, inst.replicaset), "leader");
    forall g, r, i | Lives(raw, g, r, i) && (g, r) != (inst.group, inst.replicaset)
      ensures Lives(raw', g, r, i) && Effective(raw', g, r, i) == Effective(raw, g, r, i)
    {
      MissesOtherReplicaset(inst.group, inst.replicaset, "leader", g, r, i);
      OthersKeepEffective(raw, raw', p.path, g, r, i);
    }
    forall i | Lives(raw, inst.group, inst.replicaset, i)
      ensures Lives(raw', inst.group, inst.replicaset, i)
      ensures InstanceOf(raw', inst.group, inst.replicaset, i) == InstanceOf(raw, inst.group, inst.replicaset, i)
    {
      MemberKept(raw, raw', inst.group, inst.replicaset, "leader", i);
    }
  }

  /** A setting of the replicaset scope leaves its instance scopes alone. */
  lemma MemberKept(raw: Value, raw': Value, g: string, r: string, key: string, i: string)
    requires Moved(raw, raw', ReplicasetPath(g, r) + [key]) && key != INSTANCES && Lives(raw, g, r, i)
    ensures Lives(raw', g, r, i) && InstanceOf(raw', g, r, i) == InstanceOf(raw, g, r, i)
  {
    var path, q := ReplicasetPath(g, r) + [key], InstancePath(g, r, i);
    assert path[4] == key && q[4] == INSTANCES;
    InstanceAtPath(raw, g, r, i);
    InstanceAtPath(raw', g, r, i);
    LivesByPath(raw, g, r, i);
    LivesByPath(raw', g, r, i);
  }

  /** No other scalar or list leaf of the merged configuration moves. */
  lemma NoOtherLeafMoves(docs: seq<Doc>, docs': seq<Doc>, p: Patch, t: nat, q: Path)
    requires PatchOf(docs, docs', p.path, p.value, t) && LeafValue(p.value)
    requires !(p.path <= q)
    requires !Opens(At(Merged(docs), q)) || !Opens(At(Merged(docs'), q))
    ensures At(Merged(docs'), q) == At(Merged(docs), q)
  {
    PatchEffect(docs, docs', p.path, p.value, t);
    assert Comparable(p.path, q) ==> q < p.path;
  }

  /** Expelling empties the instance's listen section exactly when no document ahead of the
      patched one holds anything else there and no later one still brings entries. */
  lemma ExpelWorks(docs: seq<Doc>, docs': seq<Doc>, inst: CInstance, t: nat)
    requires var p := PatchFor(Expel, inst).value; PatchOf(docs, docs', p.path, p.value, t)
    ensures
      var path := PatchFor(Expel, inst).value.path;
      At(Merged(docs'), path) == Map(map[]) <==>
        && Unshadowed(docs, path, Map(map[]), t)
        && forall i :: t < i < |docs| ==> !AddsEntries(At(docs[i].config, path))
  {
    var p := PatchFor(Expel, inst).value;
    PatchEffect(docs, docs', p.path, p.value, t);
  }

  /** With the documents in ascending key order and the first target picked, nothing is ahead:
      the operations take effect. */
  lemma FirstTargetUnshadowed(docs: seq<Doc>, op: Operation, inst: CInstance, t: nat)
    requires PatchFor(op, inst).Some? && Ascending(docs)
    requires var p := PatchFor(op, inst).value; FirstTarget(docs, p.path, p.lower, t)
    ensures var p := PatchFor(op, inst).value; Unshadowed(docs, p.path, p.value, t)
  {
    var p := PatchFor(op, inst).value;
    NothingAhead(docs, p.path, p.lower, t, t);
  }

  // ---- the pipeline ----

  /** How a patch ends; from `Unsupported` on the instance is known. */
  datatype PatchResult =
    | BadCluster | UnknownInstance | BadFailover
    | Unsupported(inst: CInstance) | LookupFailed(inst: CInstance) | PickFailed(inst: CInstance)
    | PublishFailed(inst: CInstance) | Published(inst: CInstance)

  datatype Search = FoundInstance(inst: CInstance) | NotFound | NoFailover

  /** Where the instance lives, and the failover mode of its effective configuration. */
  ghost predicate Resolved(raw: Value, name: string, inst: CInstance) {
    && inst.name == name && Lives(raw, inst.group, inst.replicaset, name)
    && (UniqueNames(raw) ==> HasFailover(Effective(raw, inst.group, inst.replicaset, name), inst.failover))
  }

  /** The effective configuration of the instance has no readable failover mode. */
  ghost predicate Unreadable(raw: Value, name: string) {
    && (exists g, r :: Lives(raw, g, r, name))
    && (UniqueNames(raw) ==> forall g, r :: Lives(raw, g, r, name) ==> NoFailoverIn(Effective(raw, g, r, name)))
  }

  /** `getCConfigInstance` */
  method GetCConfigInstance(raw: Value, name: string) returns (res: Search)
    ensures res.FoundInstance? ==> Resolved(raw, name, res.inst)
    ensures res.NotFound? <==> forall g, r :: !Lives(raw, g, r, name)
    ensures res.NoFailover? ==> Unreadable(raw, name)
  {
    var at := FindInstance(raw, name);
    if at.Nowhere? { return NotFound; }
    var config, where := Instantiate(raw, name);
    var got := config.Get(["replication", "failover"]);
    var failover := match got
      case Missing(_) => Some(FailoverOff)
      case NotMap(_) => None
      case Found(Atom(Str(s))) => Some(ParseFailover(s))
      case Found(_) => None;
    assert failover == FailoverOf(config.paths);
    if failover.None? {
      FailoverReads(config.paths, FailoverUnknown);
      return NoFailover;
    }
    FailoverReads(config.paths, failover.value);
    res := FoundInstance(CInstance(failover.value, at.group, at.replicaset, name));
  }

  function Keys(ts: seq<Target>): seq<string> {
    seq(|ts|, i requires 0 <= i < |ts| => ts[i].key)
  }

  /** A key picker: the index of one of the keys, or a failure. */
  ghost predicate Picks(picker: seq<string> -> Option<nat>) {
    forall keys :: keys != [] && picker(keys).Some? ==> picker(keys).value < |keys|
  }

  /** Document `t` is the one picked from the list of targets of the documents. */
  ghost predicate PickedDoc(docs: seq<Doc>, p: Patch, picker: seq<string> -> Option<nat>, t: nat) {
    exists list, k: nat :: Ordered(list) && Lists(list, docs, p.path, p.lower) && k < |list|
      && picker(Keys(list)) == Some(k) && t < |docs| && Eligible(docs[t], p.path, p.lower)
      && list[k] == TargetOf(docs[t], p.path) && (k == 0 ==> FirstTarget(docs, p.path, p.lower, t))
  }

  /** The picker picks a key from the list of targets. */
  ghost predicate Picked(docs: seq<Doc>, p: Patch, picker: seq<string> -> Option<nat>) {
    exists list :: Ordered(list) && Lists(list, docs, p.path, p.lower) && picker(Keys(list)).Some?
  }

  /** The instance is known and the operation has a patch for it. */
  ghost predicate Patchable(docs: seq<Doc>, op: Operation, name: string, inst: CInstance) {
    Parses(Merged(docs)) && Resolved(Merged(docs), name, inst) && PatchFor(op, inst).Some?
  }

  /** Why a patch ends the way it does. */
  ghost predicate Caused(docs: seq<Doc>, op: Operation, name: string, picker: seq<string> -> Option<nat>,
                         publishes: bool, res: PatchResult)
  {
    match res
    case BadCluster => !Parses(Merged(docs))
    case UnknownInstance => Parses(Merged(docs)) && forall g, r :: !Lives(Merged(docs), g, r, name)
    case BadFailover => Parses(Merged(docs)) && Unreadable(Merged(docs), name)
    case Unsupported(inst) =>
      Parses(Merged(docs)) && Resolved(Merged(docs), name, inst) && PatchFor(op, inst).None?
    case LookupFailed(inst) =>
      Patchable(docs, op, name, inst) && !NoLookupError(docs, PatchFor(op, inst).value.path)
    case PickFailed(inst) =>
      && Patchable(docs, op, name, inst) && NoLookupError(docs, PatchFor(op, inst).value.path)
      && !Picked(docs, PatchFor(op, inst).value, picker)
    case PublishFailed(inst) =>
      && Patchable(docs, op, name, inst) && NoLookupError(docs, PatchFor(op, inst).value.path)
      && Picked(docs, PatchFor(op, inst).value, picker) && !publishes
    case Published(inst) =>
      && Patchable(docs, op, name, inst) && NoLookupError(docs, PatchFor(op, inst).value.path)
      && Picked(docs, PatchFor(op, inst).value, picker) && publishes
  }

  /** With unique names an instance is resolved in one way. */
  lemma ResolvedOnce(raw: Value, name: string, a: CInstance, b: CInstance)
    requires UniqueNames(raw) && Resolved(raw, name, a) && Resolved(raw, name, b)
    ensures a == b
  {
    FailoverReads(Effective(raw, a.group, a.replicaset, name), a.failover);
    FailoverReads(Effective(raw, a.group, a.replicaset, name), b.failover);
    hide Effective, HasFailover, NoFailoverIn, FailoverOf;
  }

  lemma ResolvedReadable(raw: Value, name: string, inst: CInstance)
    requires UniqueNames(raw) && Resolved(raw, name, inst)
    ensures !Unreadable(raw, name) && exists g, r :: Lives(raw, g, r, name)
  {
  }

  /** With unique names there is only one cause, so each outcome comes exactly when its cause
      holds: a patch is published if and only if the instance is known, the operation supported,
      no lookup fails, a target is picked and the store accepts it. */
  lemma OneOutcome(docs: seq<Doc>, op: Operation, name: string, picker: seq<string> -> Option<nat>,
                   publishes: bool, a: PatchResult, b: PatchResult)
    requires UniqueNames(Merged(docs))
    requires Caused(docs, op, name, picker, publishes, a) && Caused(docs, op, name, picker, publishes, b)
    ensures a == b
  {
    hide Parses, Lives, Merged, UniqueNames, Resolved, Picked, NoLookupError, PatchFor, Unreadable;
    var raw := Merged(docs);
    if a.BadFailover? != b.BadFailover? || a.UnknownInstance? != b.UnknownInstance? {
      UnreadableLives(raw, name);
      if !(a.BadCluster? || a.UnknownInstance? || a.BadFailover?) { ResolvedReadable(raw, name, a.inst); }
      if !(b.BadCluster? || b.UnknownInstance? || b.BadFailover?) { ResolvedReadable(raw, name, b.inst); }
    } else if !(a.BadCluster? || a.UnknownInstance? || a.BadFailover? || b.BadCluster?) {
      ResolvedOnce(raw, name, a.inst, b.inst);
    }
  }

  lemma UnreadableLives(raw: Value, name: string)
    ensures Unreadable(raw, name) ==> exists g, r :: Lives(raw, g, r, name)
  {
  }

  /** Only one list can be picked from. */
  lemma PickedFrom(docs: seq<Doc>, p: Patch, picker: seq<string> -> Option<nat>, list: seq<Target>)
    requires Ordered(list) && Lists(list, docs, p.path, p.lower)
    ensures Picked(docs, p, picker) <==> picker(Keys(list)).Some?
  {
    forall other | Ordered(other) && Lists(other, docs, p.path, p.lower) ensures other == list {
      OrderUnique(list, other);
    }
  }

  /** `CConfigSource` over a key-value store with one document for each key. */
  class Source {
    var docs: seq<Doc>

    ghost predicate Valid()
      reads this
    {
      DistinctKeys(docs)
    }

    /** `collectCConfig`: the documents merged one by one. */
    method Collect() returns (config: Config)
      ensures fresh(config) && config.paths == Merged(docs)
    {
      config := new Config();
      assert Configs(docs)[..0] == [];
      for n := 0 to |docs|
        invariant config.paths == MergeAll(Configs(docs)[..n])
      {
        var source := new Config();
        source.paths := docs[n].config;
        config.MergeLow(source);
        assert Configs(docs)[..n + 1][..n] == Configs(docs)[..n];
      }
      assert Configs(docs)[..|docs|] == Configs(docs);
    }

    /** `patchInstanceConfig`; `publishes` is what the store answers. */
    method PatchInstance(op: Operation, name: string, picker: seq<string> -> Option<nat>, publishes: bool)
      returns (res: PatchResult)
      requires Valid() && Picks(picker)
      modifies this
      ensures Valid()
      ensures !res.Published? ==> docs == old(docs)
      ensures Caused(old(docs), op, name, picker, publishes, res)
      ensures res.Published? ==>
        var p := PatchFor(op, res.inst).value;
        exists t :: PatchOf(old(docs), docs, p.path, p.value, t) && PickedDoc(old(docs), p, picker, t)
    {
      hide Parses, Merged, Resolved, PickedDoc, PatchOf, NoLookupError, Publish, Picked, PatchFor;
      var config := Collect();
      var found := FindPatchable(docs, config.paths, op, name, picker, publishes);
      if found.Refused? { return found.res; }
      var inst := found.inst;
      var p := PatchFor(op, inst).value;
      SomeTarget(docs, op, name, inst);
      var change := ChooseAndPatch(docs, p, picker);
      if change.NoTargets? { return LookupFailed(inst); }
      if change.NoPick? { return PickFailed(inst); }
      if !publishes { return PublishFailed(inst); }
      PublishKeepsKeys(docs, change.key, change.tree);
      docs := Publish(docs, change.key, change.tree);
      res := Published(inst);
    }
  }

  datatype Prepared = Ready(inst: CInstance) | Refused(res: PatchResult)

  /** The beginning of `patchInstanceConfig`: parse the cluster, find the instance and what to do. */
  method FindPatchable(ghost docs: seq<Doc>, raw: Value, op: Operation, name: string,
                       ghost picker: seq<string> -> Option<nat>, ghost publishes: bool) returns (r: Prepared)
    requires raw == Merged(docs)
    ensures r.Ready? ==> Patchable(docs, op, name, r.inst)
    ensures r.Refused? ==> !r.res.Published? && Caused(docs, op, name, picker, publishes, r.res)
  {
    hide Parses, Lives, Merged, Unreadable, Resolved, PatchFor;
    if !Parses(raw) { return Refused(BadCluster); }
    var found := GetCConfigInstance(raw, name);
    if found.NotFound? { return Refused(UnknownInstance); }
    if found.NoFailover? { return Refused(BadFailover); }
    if PatchFor(op, found.inst).None? { return Refused(Unsupported(found.inst)); }
    r := Ready(found.inst);
  }

  datatype Change = Change(key: string, tree: Value) | NoTargets | NoPick

  /** The middle of `patchInstanceConfig`: list the targets, pick one, patch it. */
  method ChooseAndPatch(docs: seq<Doc>, p: Patch, picker: seq<string> -> Option<nat>) returns (r: Change)
    requires DistinctKeys(docs) && Picks(picker) && p.lower <= |p.path| && Candidates(docs, p.path, p.lower) != []
    ensures r.NoTargets? <==> !NoLookupError(docs, p.path)
    ensures r.NoPick? <==> NoLookupError(docs, p.path) && !Picked(docs, p, picker)
    ensures r.Change? ==>
      exists t :: PatchOf(docs, Publish(docs, r.key, r.tree), p.path, p.value, t) && PickedDoc(docs, p, picker, t)
  {
    hide PickedDoc, Lists, Picked;
    var targets := GetPatchTargets(docs, p.path, p.lower);
    if targets.TargetsFailed? { return NoTargets; }
    ListsSome(docs, p, targets.list);
    PickedFrom(docs, p, picker, targets.list);
    var picked := picker(Keys(targets.list));
    if picked.None? { return NoPick; }
    var target := targets.list[picked.value];
    ghost var t := PickIsDoc(docs, p, picker, targets.list);
    var tree := PatchTarget(target, p);
    PublishIsPatch(docs, t, tree);
    r := Change(target.key, tree);
    assert PatchOf(docs, Publish(docs, r.key, r.tree), p.path, p.value, t);
  }

  lemma ListsSome(docs: seq<Doc>, p: Patch, list: seq<Target>)
    requires Lists(list, docs, p.path, p.lower) && Candidates(docs, p.path, p.lower) != []
    ensures list != []
  {
    assert |multiset(list)| == |list|;
  }

  lemma PickIsDoc(docs: seq<Doc>, p: Patch, picker: seq<string> -> Option<nat>, list: seq<Target>) returns (t: nat)
    requires DistinctKeys(docs) && Ordered(list) && Lists(list, docs, p.path, p.lower)
    requires picker(Keys(list)).Some? && picker(Keys(list)).value < |list|
    ensures t < |docs| && Eligible(docs[t], p.path, 0) && list[picker(Keys(list)).value] == TargetOf(docs[t], p.path)
    ensures PickedDoc(docs, p, picker, t)
  {
    var k := picker(Keys(list)).value;
    t := TargetIsDoc(docs, p.path, p.lower, list, k);
    assert k < |list| && list[k] == TargetOf(docs[t], p.path);
  }

  /** Promoting and demoting, end to end: with the documents in ascending key order and the first
      key picked, the written mode is effective, or the instance is the leader. */
  lemma FirstPickWorks(docs: seq<Doc>, docs': seq<Doc>, op: Operation, inst: CInstance,
                       picker: seq<string> -> Option<nat>, t: nat)
    requires Ascending(docs) && Parses(Merged(docs)) && !op.Expel? && PatchFor(op, inst).Some?
    requires forall keys :: picker(keys) == Some(0)
    requires
      var p := PatchFor(op, inst).value;
      PatchOf(docs, docs', p.path, p.value, t) && PickedDoc(docs, p, picker, t)
    ensures inst.failover.FailoverOff? ==>
      At(Effective(Merged(docs'), inst.group, inst.replicaset, inst.name), ["database", "mode"]) ==
      Atom(Str(if op.Promote? then "rw" else "ro"))
    ensures inst.failover.FailoverManual? ==>
      Child(ReplicasetOf(Merged(docs'), inst.group, inst.replicaset), "leader") == Atom(Str(inst.name))
  {
    FirstPicked(docs, PatchFor(op, inst).value, picker, t);
    FirstTargetUnshadowed(docs, op, inst, t);
    hide Merged, Effective, PatchOf, PickedDoc, Unshadowed, Parses;
    if inst.failover.FailoverOff? {
      ModePatchWorks(docs, docs', op, inst, t);
    } else {
      LeaderPatchWorks(docs, docs', inst, t);
    }
  }

  lemma FirstPicked(docs: seq<Doc>, p: Patch, picker: seq<string> -> Option<nat>, t: nat)
    requires PickedDoc(docs, p, picker, t) && forall keys :: picker(keys) == Some(0)
    ensures FirstTarget(docs, p.path, p.lower, t)
  {
  }

  /** The patch functions of cconfig.go: one `Set` on the configuration of the target. */
  method PatchTarget(target: Target, p: Patch) returns (tree: Value)
    requires !Fetch(target.config, p.path).NotMap?
    ensures Write(target.config, p.path, p.value) == Tree(tree)
  {
    var patched := new Config();
    patched.paths := target.config;
    NoErrorWrites(target.config, p.path, p.value);
    var w := patched.Set(p.path, p.value);
    tree := patched.paths;
  }

  /** The store replaces the document under the published key. */
  function Publish(docs: seq<Doc>, key: string, tree: Value): seq<Doc> {
    seq(|docs|, i requires 0 <= i < |docs| => if docs[i].key == key then docs[i].(config := tree) else docs[i])
  }

  lemma PublishKeepsKeys(docs: seq<Doc>, key: string, tree: Value)
    requires DistinctKeys(docs)
    ensures DistinctKeys(Publish(docs, key, tree))
  {
  }

  lemma PublishIsPatch(docs: seq<Doc>, t: nat, tree: Value)
    requires DistinctKeys(docs) && t < |docs|
    ensures Publish(docs, docs[t].key, tree) == Patched(docs, t, tree)
  {
  }

  /** The list of targets is never empty: an instance of the merged cluster is in some document. */
  lemma SomeTarget(docs: seq<Doc>, op: Operation, name: string, inst: CInstance)
    requires Resolved(Merged(docs), name, inst) && PatchFor(op, inst).Some?
    ensures var p := PatchFor(op, inst).value; p.lower <= |p.path| && Candidates(docs, p.path, p.lower) != []
  {
    var p := PatchFor(op, inst).value;
    var raw := Merged(docs);
    var own := InstancePath(inst.group, inst.replicaset, inst.name);
    MergeAllNullFree(Configs(docs));
    LivesByPath(raw, inst.group, inst.replicaset, inst.name);
    PrefixesExist(raw, own, 4);
    assert p.path[..p.lower] == own[..p.lower];
    assert own[..6] == own;
    TargetExists(docs, p.path, p.lower);
  }
}

/**
 What a patch does to the effective configuration of the instances it concerns: the rest of
 their settings stays, or exactly when it does.
 */
module EffectivePatch {
  import opened ConfigTree
  import opened PriorityMerge
  import opened MergeLaws
  import opened Cluster
  import opened ConfigSource
  import opened FailoverModes
  import opened Patching

  /** Both trees differ at the path alone, and the later one leads there through maps. */
  ghost predicate ApartThroughMaps(before: Value, after: Value, path: Path) {
    Apart(before, after, path) && forall q :: q < path ==> At(after, q).Map?
  }

  /** Merging the same outer scope keeps the trees apart at the path alone, if it puts no
      scalar or list in the way. */
  lemma ApartMergeSame(before: Value, after: Value, low: Value, path: Path)
    requires ApartThroughMaps(before, after, path)
    requires forall q :: q < path ==> Opens(At(Merge(before, low), q))
    ensures ApartThroughMaps(Merge(before, low), Merge(after, low), path)
  {
    forall q | !Comparable(path, q) ensures At(Merge(before, low), q) == At(Merge(after, low), q) {
      MergeAtPath(before, low, q);
      MergeAtPath(after, low, q);
      ApartUnblocked(before, after, path, q);
    }
    forall q | q < path ensures At(Merge(after, low), q).Map? { MergeKeepsHigh(after, low, q); }
  }

  /** A way that is open after a merge was open before it. */
  lemma OpenBefore(high: Value, low: Value, path: Path)
    requires forall q :: q < path ==> Opens(At(Merge(high, low), q))
    ensures forall q :: q < path ==> Opens(At(high, q))
  {
    forall q | q < path ensures Opens(At(high, q)) {
      if !Opens(At(high, q)) { MergeKeepsHigh(high, low, q); }
    }
  }

  lemma ApartMergeThree(before: Value, after: Value, a: Value, b: Value, c: Value, path: Path)
    requires ApartThroughMaps(before, after, path)
    requires forall q :: q < path ==> Opens(At(Merge(Merge(Merge(before, a), b), c), q))
    ensures ApartThroughMaps(Merge(Merge(Merge(before, a), b), c), Merge(Merge(Merge(after, a), b), c), path)
  {
    OpenBefore(Merge(Merge(before, a), b), c, path);
    OpenBefore(Merge(before, a), b, path);
    ApartMergeSame(before, after, a, path);
    ApartMergeSame(Merge(before, a), Merge(after, a), b, path);
    ApartMergeSame(Merge(Merge(before, a), b), Merge(Merge(after, a), b), c, path);
  }

  /** The patched instance scope differs at the setting alone. */
  lemma OwnScopeApart(raw: Value, raw': Value, g: string, r: string, i: string, tail: Path)
    requires Moved(raw, raw', InstancePath(g, r, i) + tail)
    requires forall q :: q < tail ==> Opens(At(InstanceOf(raw, g, r, i), q))
    ensures ApartThroughMaps(InstanceOf(raw, g, r, i), InstanceOf(raw', g, r, i), tail)
  {
    var own := InstancePath(g, r, i);
    InstanceAtPath(raw, g, r, i);
    InstanceAtPath(raw', g, r, i);
    forall q: Path
      ensures !Comparable(tail, q) ==> At(InstanceOf(raw, g, r, i), q) == At(InstanceOf(raw', g, r, i), q)
      ensures q < tail ==> At(InstanceOf(raw', g, r, i), q).Map?
    {
      AtConcat(raw, own, q);
      AtConcat(raw', own, q);
      BehindPrefix(own, tail, q);
    }
  }

  lemma BehindPrefix(own: Path, tail: Path, q: Path)
    ensures Comparable(own + tail, own + q) ==> Comparable(tail, q)
    ensures q < tail ==> own + q < own + tail
  {
    if own + tail <= own + q {
      assert tail == (own + tail)[|own|..] && q == (own + q)[|own|..];
      assert (own + q)[..|own + tail|] == own + tail;
      assert q[..|tail|] == tail;
    } else if own + q <= own + tail {
      assert tail == (own + tail)[|own|..] && q == (own + q)[|own|..];
      assert (own + tail)[..|own + q|] == own + q;
      assert tail[..|q|] == q;
    }
    if q < tail { assert own + tail == (own + q) + tail[|q|..]; }
  }

  /** The scopes above an instance do not see a patch of the instance scope. */
  lemma OuterScopesSame(raw: Value, raw': Value, g: string, r: string, i: string, tail: Path)
    requires Moved(raw, raw', InstancePath(g, r, i) + tail) && Lives(raw, g, r, i)
    ensures Scopes(raw', g, r, i)[1..] == Scopes(raw, g, r, i)[1..]
  {
    var p, path := InstancePath(g, r, i), InstancePath(g, r, i) + tail;
    ScopePaths(raw, g, r, i);
    ScopePaths(raw', g, r, i);
    LivesByPath(raw, g, r, i);
    PrefixesExist(raw, p, 0);
    PrefixesExist(raw, p, 2);
    PrefixesExist(raw, p, 4);
    PrefixesExist(raw', path, 0);
    PrefixesExist(raw', path, 2);
    PrefixesExist(raw', path, 4);
    assert p[..0] == path[..0] == [] && p[..2] == path[..2] == [GROUPS, g];
    assert p[..4] == path[..4] == ReplicasetPath(g, r);
    assert path[0] == GROUPS && path[2] == REPLICASETS && path[4] == INSTANCES;
    forall k | k != GROUPS ensures !Comparable(path, [] + [k]) { assert ([] + [k])[0] == k; }
    forall k | k != REPLICASETS ensures !Comparable(path, [GROUPS, g] + [k]) { assert ([GROUPS, g] + [k])[2] == k; }
    forall k | k != INSTANCES ensures !Comparable(path, ReplicasetPath(g, r) + [k]) {
      assert (ReplicasetPath(g, r) + [k])[4] == k;
    }
    ScopeSame(raw, raw', path, [], GROUPS);
    ScopeSame(raw, raw', path, [GROUPS, g], REPLICASETS);
    ScopeSame(raw, raw', path, ReplicasetPath(g, r), INSTANCES);
  }

  /** The effective configuration as three merges under the instance scope. */
  lemma EffectiveFrom(raw: Value, g: string, r: string, i: string)
    requires NullFree(raw)
    ensures
      var s := Scopes(raw, g, r, i);
      Effective(raw, g, r, i) == Merge(Merge(Merge(s[0], s[1]), s[2]), s[3])
  {
    EffectiveMerges(raw, g, r, i);
    ScopesNullFree(raw, g, r, i);
    var s := Scopes(raw, g, r, i);
    MergeFour(s[0], s[1], s[2], s[3]);
    NullFreeMerge(Null, s[0]);
  }

  /** No setting off the path is a scalar or list in one configuration and different in the other. */
  ghost predicate RestKept(before: Value, after: Value, path: Path) {
    forall q :: !(path <= q) && (!Opens(At(before, q)) || !Opens(At(after, q))) ==> At(after, q) == At(before, q)
  }

  /** A patch of the instance scope keeps the rest of the effective configuration exactly when
      no inherited scalar or list stands where the setting needs a map. */
  lemma OwnRestKept(raw: Value, raw': Value, g: string, r: string, i: string, tail: Path)
    requires Moved(raw, raw', InstancePath(g, r, i) + tail) && Lives(raw, g, r, i)
    ensures RestKept(Effective(raw, g, r, i), Effective(raw', g, r, i), tail) <==>
            forall q :: q < tail ==> Opens(At(Effective(raw, g, r, i), q))
  {
    var s, s' := Scopes(raw, g, r, i), Scopes(raw', g, r, i);
    var e, e' := Effective(raw, g, r, i), Effective(raw', g, r, i);
    EffectiveFrom(raw, g, r, i);
    EffectiveFrom(raw', g, r, i);
    OuterScopesSame(raw, raw', g, r, i, tail);
    assert s'[1..] == s[1..];
    assert s'[1] == s'[1..][0] && s'[2] == s'[1..][1] && s'[3] == s'[1..][2];
    assert s[1] == s[1..][0] && s[2] == s[1..][1] && s[3] == s[1..][2];
    if forall q :: q < tail ==> Opens(At(e, q)) {
      OpenBefore(Merge(Merge(s[0], s[1]), s[2]), s[3], tail);
      OpenBefore(Merge(s[0], s[1]), s[2], tail);
      OpenBefore(s[0], s[1], tail);
      OwnScopeApart(raw, raw', g, r, i, tail);
      ApartMergeThree(s[0], s'[0], s[1], s[2], s[3], tail);
      assert Apart(e, e', tail);
    } else {
      var q :| q < tail && !Opens(At(e, q));
      WayIsMaps(raw', g, r, i, tail, q);
      assert At(e', q) != At(e, q);
    }
  }

  /** Along the way to a setting of the instance scope the effective configuration has maps. */
  lemma WayIsMaps(raw: Value, g: string, r: string, i: string, tail: Path, q: Path)
    requires NullFree(raw) && At(raw, InstancePath(g, r, i) + tail) != Null && q < tail
    ensures At(Effective(raw, g, r, i), q).Map?
  {
    var s := Scopes(raw, g, r, i);
    EffectiveFrom(raw, g, r, i);
    InstanceAtPath(raw, g, r, i);
    AtConcat(raw, InstancePath(g, r, i), tail);
    PrefixesExist(s[0], tail, |q|);
    assert tail[..|q|] == q;
    MergeKeepsHigh(s[0], s[1], q);
    MergeKeepsHigh(Merge(s[0], s[1]), s[2], q);
    MergeKeepsHigh(Merge(Merge(s[0], s[1]), s[2]), s[3], q);
  }

  /** Promoting or demoting with failover off keeps every other setting of the instance, exactly
      when its effective `database` is not a scalar or list. */
  lemma ModePatchKeepsRest(docs: seq<Doc>, docs': seq<Doc>, op: Operation, inst: CInstance, t: nat)
    requires (op.Promote? || op.Demote?) && inst.failover.FailoverOff?
    requires var p := PatchFor(op, inst).value; PatchOf(docs, docs', p.path, p.value, t)
    requires Parses(Merged(docs)) && Lives(Merged(docs), inst.group, inst.replicaset, inst.name)
    ensures
      var e := Effective(Merged(docs), inst.group, inst.replicaset, inst.name);
      var e' := Effective(Merged(docs'), inst.group, inst.replicaset, inst.name);
      RestKept(e, e', ["database", "mode"]) <==> Opens(At(e, ["database"]))
  {
    var p := PatchFor(op, inst).value;
    hide Effective, RestKept, Merged;
    PatchMoves(docs, docs', p, t);
    OwnRestKept(Merged(docs), Merged(docs'), inst.group, inst.replicaset, inst.name, ["database", "mode"]);
    EffectiveOpen(Merged(docs), inst.group, inst.replicaset, inst.name);
    WayOfTwo(Effective(Merged(docs), inst.group, inst.replicaset, inst.name), "database", "mode");
  }

  lemma WayOfTwo(v: Value, a: string, b: string)
    requires Opens(v)
    ensures (forall q :: q < [a, b] ==> Opens(At(v, q))) <==> Opens(At(v, [a]))
  {
    var tail: Path := [a, b];
    assert [a] == tail[..1];
    forall q: Path | q < tail && Opens(At(v, [a])) ensures Opens(At(v, q)) { assert q == tail[..|q|]; }
  }

  lemma EffectiveOpen(raw: Value, g: string, r: string, i: string)
    requires NullFree(raw) && Parses(raw)
    ensures Opens(Effective(raw, g, r, i)) && At(Effective(raw, g, r, i), []) == Effective(raw, g, r, i)
    ensures forall k :: 0 <= k < 4 ==> Opens(Scopes(raw, g, r, i)[k]) && NullFree(Scopes(raw, g, r, i)[k])
  {
    ScopesOpen(raw, g, r, i);
    assert forall k :: 0 <= k < 4 ==> Opens(Scopes(raw, g, r, i)[k]);
    hide Scopes, Effective, Parses, NullFree, Merge;
    var s := Scopes(raw, g, r, i);
    HandedScopes(raw, g, r, i);
    EffectiveFrom(raw, g, r, i);
    NullFreeMerge(s[0], s[1]);
    NullFreeMerge(Merge(s[0], s[1]), s[2]);
    NullFreeMerge(Merge(Merge(s[0], s[1]), s[2]), s[3]);
  }

  // ---- the members of a replicaset that gets a leader ----

  /** The replicaset scope differs at the setting alone. */
  lemma ReplicasetScopeApart(raw: Value, raw': Value, g: string, r: string, key: string)
    requires Moved(raw, raw', ReplicasetPath(g, r) + [key]) && key != INSTANCES
    requires Opens(ReplicasetOf(raw, g, r)) && Opens(ReplicasetOf(raw', g, r))
    ensures Apart(Handed(ReplicasetOf(raw, g, r), INSTANCES), Handed(ReplicasetOf(raw', g, r), INSTANCES), [key])
  {
    var at, own, own' := ReplicasetPath(g, r), ReplicasetOf(raw, g, r), ReplicasetOf(raw', g, r);
    InstanceAtPath(raw, g, r, "");
    InstanceAtPath(raw', g, r, "");
    ScopesNullFree(raw, g, r, "");
    ScopesNullFree(raw', g, r, "");
    forall q: Path | !Comparable([key], q) ensures At(Handed(own, INSTANCES), q) == At(Handed(own', INSTANCES), q) {
      AtConcat(raw, at, q);
      AtConcat(raw', at, q);
      BehindPrefix(at, [key], q);
      HandedAt(own, INSTANCES, q);
      HandedAt(own', INSTANCES, q);
    }
    forall q: Path | q < [key] ensures Opens(At(Handed(own, INSTANCES), q)) && Opens(At(Handed(own', INSTANCES), q)) {
      assert q == [];
    }
  }

  lemma RootApart(v: Value, key: string)
    requires Opens(v)
    ensures Apart(v, v, [key])
  {
    forall q: Path | q < [key] ensures Opens(At(v, q)) { assert q == []; }
  }

  lemma ApartMergeFour(s: seq<Value>, s': seq<Value>, path: Path)
    requires |s| == |s'| == 4 && forall k :: 0 <= k < 4 ==> Apart(s[k], s'[k], path)
    ensures Apart(Merge(Merge(Merge(s[0], s[1]), s[2]), s[3]), Merge(Merge(Merge(s'[0], s'[1]), s'[2]), s'[3]), path)
  {
    ApartMerge(s[0], s'[0], s[1], s'[1], path);
    ApartMerge(Merge(s[0], s[1]), Merge(s'[0], s'[1]), s[2], s'[2], path);
    ApartMerge(Merge(Merge(s[0], s[1]), s[2]), Merge(Merge(s'[0], s'[1]), s'[2]), s[3], s'[3], path);
  }

  /** Group and global scope do not see a patch of the replicaset scope. */
  lemma AboveReplicasetSame(raw: Value, raw': Value, g: string, r: string, key: string)
    requires Moved(raw, raw', ReplicasetPath(g, r) + [key]) && ReplicasetOf(raw, g, r) != Null
    ensures Handed(raw', GROUPS) == Handed(raw, GROUPS)
    ensures Handed(GroupOf(raw', g), REPLICASETS) == Handed(GroupOf(raw, g), REPLICASETS)
  {
    var p, path := ReplicasetPath(g, r), ReplicasetPath(g, r) + [key];
    ScopePaths(raw, g, r, "");
    ScopePaths(raw', g, r, "");
    PrefixesExist(raw, p, 0);
    PrefixesExist(raw, p, 2);
    PrefixesExist(raw', path, 0);
    PrefixesExist(raw', path, 2);
    assert p[..0] == path[..0] == [] && p[..2] == path[..2] == [GROUPS, g];
    assert path[0] == GROUPS && path[2] == REPLICASETS;
    forall k | k != GROUPS ensures !Comparable(path, [] + [k]) { assert ([] + [k])[0] == k; }
    forall k | k != REPLICASETS ensures !Comparable(path, [GROUPS, g] + [k]) { assert ([GROUPS, g] + [k])[2] == k; }
    ScopeSame(raw, raw', path, [], GROUPS);
    ScopeSame(raw, raw', path, [GROUPS, g], REPLICASETS);
  }

  /** A setting of the replicaset scope moves only itself in the effective configuration of a
      member. */
  lemma MemberRestKept(raw: Value, raw': Value, g: string, r: string, key: string, i: string)
    requires Moved(raw, raw', ReplicasetPath(g, r) + [key]) && key != INSTANCES
    requires Parses(raw) && Parses(raw') && Lives(raw, g, r, i)
    ensures Apart(Effective(raw, g, r, i), Effective(raw', g, r, i), [key])
  {
    EffectiveFrom(raw, g, r, i);
    EffectiveFrom(raw', g, r, i);
    hide Effective, Scopes, Merge, Parses, NullFree;
    MemberScopesApart(raw, raw', g, r, key, i);
    ApartMergeFour(Scopes(raw, g, r, i), Scopes(raw', g, r, i), [key]);
  }

  lemma MemberScopesApart(raw: Value, raw': Value, g: string, r: string, key: string, i: string)
    requires Moved(raw, raw', ReplicasetPath(g, r) + [key]) && key != INSTANCES
    requires Parses(raw) && Parses(raw') && Lives(raw, g, r, i)
    ensures forall k :: 0 <= k < 4 ==> Apart(Scopes(raw, g, r, i)[k], Scopes(raw', g, r, i)[k], [key])
  {
    hide Effective, Merge, Handed, Parses, Apart;
    EffectiveOpen(raw, g, r, i);
    ScopesOpen(raw, g, r, i);
    ScopesOpen(raw', g, r, i);
    MemberKept(raw, raw', g, r, key, i);
    AboveReplicasetSame(raw, raw', g, r, key);
    ReplicasetScopeApart(raw, raw', g, r, key);
    RootApart(Scopes(raw, g, r, i)[0], key);
    RootApart(Scopes(raw, g, r, i)[2], key);
    RootApart(Scopes(raw, g, r, i)[3], key);
  }

  /** A scalar or list is effective for a member exactly when it is the member's own, or that of
      the replicaset scope and the member has none. */
  lemma MemberInherits(raw: Value, g: string, r: string, key: string, i: string, x: Value)
    requires NullFree(raw) && Parses(raw) && key != INSTANCES && !Opens(x)
    requires Child(ReplicasetOf(raw, g, r), key) != Null
    ensures
      var own, v := Child(InstanceOf(raw, g, r, i), key), Child(ReplicasetOf(raw, g, r), key);
      At(Effective(raw, g, r, i), [key]) == x <==> own == x || (own == Null && v == x)
  {
    var s := Scopes(raw, g, r, i);
    var own, v := Child(s[0], key), Child(ReplicasetOf(raw, g, r), key);
    EffectiveFrom(raw, g, r, i);
    EffectiveOpen(raw, g, r, i);
    ScopesNullFree(raw, g, r, i);
    NullFreeChild(s[0], key);
    NullFreeChild(ReplicasetOf(raw, g, r), key);
    HandedAt(ReplicasetOf(raw, g, r), INSTANCES, [key]);
    AtOne(ReplicasetOf(raw, g, r), key);
    AtOne(s[0], key);
    AtOne(s[1], key);
    MergeChild(s[0], s[1], key);
    NullFreeMerge(own, v);
    var one := Merge(s[0], s[1]);
    AtOne(one, key);
    if own != Null { MergeKeepsHigh(s[0], s[1], [key]); }
    MergeKeepsHigh(one, s[2], [key]);
    MergeKeepsHigh(Merge(one, s[2]), s[3], [key]);
  }

  /** Promoting with manual failover: a member sees the new leader exactly when it names that
      leader itself, or names none and no earlier document names another; no member sees
      another change. */
  lemma LeaderPatchKeepsRest(docs: seq<Doc>, docs': seq<Doc>, inst: CInstance, t: nat, i: string)
    requires inst.failover.FailoverManual?
    requires var p := PatchFor(Promote, inst).value; PatchOf(docs, docs', p.path, p.value, t)
    requires Parses(Merged(docs)) && Lives(Merged(docs), inst.group, inst.replicaset, i)
    ensures
      var e := Effective(Merged(docs), inst.group, inst.replicaset, i);
      var e' := Effective(Merged(docs'), inst.group, inst.replicaset, i);
      var own := Child(InstanceOf(Merged(docs), inst.group, inst.replicaset, i), "leader");
      var leader := Atom(Str(inst.name));
      && (forall q :: !Comparable(["leader"], q) ==> At(e', q) == At(e, q))
      && (At(e', ["leader"]) == leader <==>
            own == leader || (own == Null && Unshadowed(docs, PatchFor(Promote, inst).value.path, leader, t)))
  {
    LeaderPatchWorks(docs, docs', inst, t);
    hide Effective, Merged, Lives, Parses, Unshadowed;
    var p := PatchFor(Promote, inst).value;
    PatchMoves(docs, docs', p, t);
    MemberRestKept(Merged(docs), Merged(docs'), inst.group, inst.replicaset, "leader", i);
    MemberInherits(Merged(docs'), inst.group, inst.replicaset, "leader", i, Atom(Str(inst.name)));
  }

  // ---- expelling ----

  lemma MergeAtTaken(high: Value, low: Value, p: Path)
    requires At(high, p) != Null
    ensures At(Merge(high, low), p) == Merge(At(high, p), At(low, p))
  {
    forall i | 0 <= i < |p| ensures Opens(At(high, p[..i])) { PrefixesExist(high, p, i); }
    MergeAtPath(high, low, p);
  }

  /** A setting of the instance scope is effectively an empty map exactly when it is one there
      and no outer scope brings entries. */
  lemma EffectivelyEmpty(raw: Value, g: string, r: string, i: string, tail: Path)
    requires NullFree(raw) && At(raw, InstancePath(g, r, i) + tail) != Null
    ensures
      var s := Scopes(raw, g, r, i);
      At(Effective(raw, g, r, i), tail) == Map(map[]) <==>
        At(raw, InstancePath(g, r, i) + tail) == Map(map[]) && forall k :: 1 <= k < 4 ==> !AddsEntries(At(s[k], tail))
  {
    var s := Scopes(raw, g, r, i);
    EffectiveFrom(raw, g, r, i);
    InstanceAtPath(raw, g, r, i);
    AtConcat(raw, InstancePath(g, r, i), tail);
    hide Effective, AddsEntries, Merge;
    if At(s[0], tail).Map? {
      var one := Merge(s[0], s[1]);
      var two := Merge(one, s[2]);
      MergeAtTaken(s[0], s[1], tail);
      EmptyMerge(At(s[0], tail), At(s[1], tail));
      MergeAtTaken(one, s[2], tail);
      EmptyMerge(At(one, tail), At(s[2], tail));
      MergeAtTaken(two, s[3], tail);
      EmptyMerge(At(two, tail), At(s[3], tail));
    } else {
      OwnSettingRules(raw, g, r, i, tail);
    }
  }

  /** Expelling leaves the instance nothing to listen on exactly when no earlier document holds
      anything else there and neither a later document nor an outer scope brings entries, all of
      which can be read off before the call. */
  lemma ExpelEffective(docs: seq<Doc>, docs': seq<Doc>, inst: CInstance, t: nat)
    requires var p := PatchFor(Expel, inst).value; PatchOf(docs, docs', p.path, p.value, t)
    requires Lives(Merged(docs), inst.group, inst.replicaset, inst.name)
    ensures
      var path, s := PatchFor(Expel, inst).value.path, Scopes(Merged(docs), inst.group, inst.replicaset, inst.name);
      At(Effective(Merged(docs'), inst.group, inst.replicaset, inst.name), ["iproto", "listen"]) == Map(map[]) <==>
        && Unshadowed(docs, path, Map(map[]), t)
        && (forall i :: t < i < |docs| ==> !AddsEntries(At(docs[i].config, path)))
        && (forall k :: 1 <= k < 4 ==> !AddsEntries(At(s[k], ["iproto", "listen"])))
  {
    var p := PatchFor(Expel, inst).value;
    var tail: Path := ["iproto", "listen"];
    var s := Scopes(Merged(docs), inst.group, inst.replicaset, inst.name);
    var s' := Scopes(Merged(docs'), inst.group, inst.replicaset, inst.name);
    hide Effective, Merged, AddsEntries, Merge, Scopes, Unshadowed;
    PatchMoves(docs, docs', p, t);
    ExpelWorks(docs, docs', inst, t);
    OuterScopesSame(Merged(docs), Merged(docs'), inst.group, inst.replicaset, inst.name, tail);
    OuterSame(s, s', tail);
    EffectivelyEmpty(Merged(docs'), inst.group, inst.replicaset, inst.name, tail);
  }

  lemma OuterSame(s: seq<Value>, s': seq<Value>, tail: Path)
    requires |s| == |s'| == 4 && s'[1..] == s[1..]
    ensures (forall k :: 1 <= k < 4 ==> !AddsEntries(At(s'[k], tail)))
            <==> forall k :: 1 <= k < 4 ==> !AddsEntries(At(s[k], tail))
  {
    assert forall k :: 1 <= k < 4 ==> s'[k] == s'[1..][k - 1] && s[k] == s[1..][k - 1];
  }
}

/**
 Where a cluster configuration comes from: the chain of sources in `GetClusterConfig`,
 the environment above an instance, and the local file that the election demote rewrites.
 */
module ClusterSources {
  import opened Options
  import opened ConfigTree
  import opened PriorityMerge
  import opened MergeLaws
  import opened ConfigContainer
  import opened Cluster
  import opened ConfigSource
  import opened Patching

  /** `len(Config.<kind>.Endpoints) > 0`, for the value at the setting. */
  predicate AnyListed(v: Value) {
    v.List? && v.items != []
  }

  datatype Loaded = Loaded(raw: Value) | CollectFailed | ParseError

  /** Five sources in their order, two of which may be left out. */
  function Row(env: Value, file: Value, e: bool, etcd: Value, s: bool, storage: Value, default: Value): seq<Value> {
    [env, file] + (if e then [etcd] else []) + (if s then [storage] else []) + [default]
  }

  /** The sources that take part, strongest first. */
  function Chain(env: Value, file: Value, etcd: Value, storage: Value, default: Value): seq<Value> {
    var local := MergeAll([env, file]);
    Row(env, file,
        AnyListed(At(local, ["config", "etcd", "endpoints"])), etcd,
        AnyListed(At(local, ["config", "storage", "endpoints"])), storage,
        default)
  }

  lemma MergeAllSnoc(xs: seq<Value>, x: Value)
    ensures MergeAll(xs + [x]) == Merge(MergeAll(xs), x)
  {
    assert (xs + [x])[..|xs|] == xs;
  }

  /** What the collectors of the five sources answer, `None` for a failure; `decodes` says whether
      the settings that `MakeClusterConfig` reads into typed fields have the right types. */
  datatype Sources = Sources(path: string, env: Option<Value>, file: Option<Value>, etcd: Option<Value>,
                             storage: Option<Value>, default: Option<Value>, decodes: Value -> bool)
  {
    function Get(x: Option<Value>): Value { if x.Some? then x.value else Null }

    /** The environment over the file, which decides the remote sources to ask. */
    function Local(): Value { MergeAll([Get(env), Get(file)]) }

    /** All five, and those that take part. */
    function All(): seq<Value> { [Get(env), Get(file), Get(etcd), Get(storage), Get(default)] }

    function Parts(): seq<Value> { Chain(Get(env), Get(file), Get(etcd), Get(storage), Get(default)) }

    function Full(): Value { MergeAll(Parts()) }

    predicate AsksEtcd() { AnyListed(At(Local(), ["config", "etcd", "endpoints"])) }

    predicate AsksStorage() { AnyListed(At(Local(), ["config", "storage", "endpoints"])) }

    lemma Takes()
      ensures Local() == Merge(Merge(Null, Get(env)), Get(file))
      ensures Parts() == Row(Get(env), Get(file), AsksEtcd(), Get(etcd), AsksStorage(), Get(storage), Get(default))
    {
      LocalSteps(Get(env), Get(file));
    }

    /** `MakeClusterConfig` succeeds. */
    predicate Accepts(v: Value) { Parses(v) && decodes(v) }
  }

  /** `GetClusterConfig` */
  method GetClusterConfig(from: Sources) returns (res: Loaded)
    ensures
      var local, full := from.Local(), from.Full();
      var collected := from.path != "" && from.env.Some? && from.file.Some?;
      var e, s := At(local, ["config", "etcd", "endpoints"]), At(local, ["config", "storage", "endpoints"]);
      var rest :=
        && (e.List? && e.items != [] ==> from.etcd.Some?)
        && (s.List? && s.items != [] ==> from.storage.Some?)
        && from.default.Some?;
      && (res.CollectFailed? <==> !collected || (Parses(local) && from.decodes(local) && !rest))
      && (res.ParseError? <==>
            collected && (!(Parses(local) && from.decodes(local)) || (rest && !(Parses(full) && from.decodes(full)))))
      && (res.Loaded? ==> res.raw == full)
  {
    hide Parses, At, Merge, MergeAll;
    var Sources(path, env, file, etcd, storage, default, _) := from;
    if path == "" || env.None? || file.None? { return CollectFailed; }
    var config := new Config();
    LocalSteps(env.value, file.value);
    MergeSource(config, env.value);
    MergeSource(config, file.value);
    ghost var sources := [env.value, file.value];
    var local := config.paths;
    if !from.Accepts(local) { return ParseError; }
    if AnyListed(At(local, ["config", "etcd", "endpoints"])) {
      if etcd.None? { return CollectFailed; }
      MergeAllSnoc(sources, etcd.value);
      MergeSource(config, etcd.value);
      sources := sources + [etcd.value];
    }
    if AnyListed(At(local, ["config", "storage", "endpoints"])) {
      if storage.None? { return CollectFailed; }
      MergeAllSnoc(sources, storage.value);
      MergeSource(config, storage.value);
      sources := sources + [storage.value];
    }
    if default.None? { return CollectFailed; }
    MergeAllSnoc(sources, default.value);
    MergeSource(config, default.value);
    assert sources + [default.value] == Chain(env.value, file.value, from.Get(etcd), from.Get(storage), default.value);
    if !from.Accepts(config.paths) { return ParseError; }
    res := Loaded(config.paths);
  }

  /** One `config.Merge(source)`. */
  method MergeSource(config: Config, source: Value)
    modifies config
    ensures config.paths == Merge(old(config.paths), source)
  {
    var low := new Config();
    low.paths := source;
    config.MergeLow(low);
  }

  lemma LocalSteps(env: Value, file: Value)
    ensures MergeAll([env, file]) == Merge(Merge(Null, env), file)
  {
    hide Merge;
    MergeAllSnoc([], env);
    MergeAllSnoc([env], file);
    assert [] + [env] == [env] && [env] + [file] == [env, file];
  }

  // ---- the order of the sources ----

  lemma RowHarmonious(a: Value, b: Value, e: bool, c: Value, s: bool, d: Value, f: Value)
    requires Harmonious([a, b, c, d, f])
    ensures Harmonious(Row(a, b, e, c, s, d, f))
  {
    hide NullFree, Compatible;
    var all, row := [a, b, c, d, f], Row(a, b, e, c, s, d, f);
    assert NullFree(all[0]) && NullFree(all[1]) && NullFree(all[2]) && NullFree(all[3]) && NullFree(all[4]);
    assert Compatible(all[0], all[1]) && Compatible(all[0], all[2]) && Compatible(all[0], all[3]);
    assert Compatible(all[0], all[4]) && Compatible(all[1], all[2]) && Compatible(all[1], all[3]);
    assert Compatible(all[1], all[4]) && Compatible(all[2], all[3]) && Compatible(all[2], all[4]);
    assert Compatible(all[3], all[4]);
    assert row == if e && s then [a, b, c, d, f] else if e then [a, b, c, f] else if s then [a, b, d, f] else [a, b, f];
  }

  lemma RowFirst(a: Value, b: Value, e: bool, c: Value, s: bool, d: Value, f: Value, p: Path)
    ensures FirstAt(Row(a, b, e, c, s, d, f), p) ==
      if At(a, p) != Null then At(a, p)
      else if At(b, p) != Null then At(b, p)
      else if e && At(c, p) != Null then At(c, p)
      else if s && At(d, p) != Null then At(d, p)
      else At(f, p)
  {
    hide At, FirstAt;
    var x, y := if e then [c] else [], if s then [d] else [];
    FirstAtConcat([a, b] + x + y, [f], p);
    FirstAtConcat([a, b] + x, y, p);
    FirstAtConcat([a, b], x, p);
    FirstAtFew(a, b, p);
    FirstAtFew(c, d, p);
    FirstAtFew(f, f, p);
  }

  lemma {:induction false} FirstAtConcat(xs: seq<Value>, ys: seq<Value>, p: Path)
    ensures FirstAt(xs + ys, p) == if FirstAt(xs, p) != Null then FirstAt(xs, p) else FirstAt(ys, p)
  {
    if xs == [] {
      assert xs + ys == ys;
    } else {
      assert (xs + ys)[1..] == xs[1..] + ys;
      FirstAtConcat(xs[1..], ys, p);
    }
  }

  lemma FirstAtFew(a: Value, b: Value, p: Path)
    ensures FirstAt([], p) == Null && FirstAt([a], p) == At(a, p) && FirstAt([b], p) == At(b, p)
    ensures FirstAt([a, b], p) == if At(a, p) != Null then At(a, p) else At(b, p)
  {
    assert [a][1..] == [] && [b][1..] == [] && [a, b][1..] == [b];
  }

  /** Path by path and for all trees: the first source that brings anything decides, exactly when
      no scalar or list of the sources merged before it stands in the way. */
  lemma RowDecides(a: Value, b: Value, e: bool, c: Value, s: bool, d: Value, f: Value, p: Path)
    ensures
      var full := MergeAll(Row(a, b, e, c, s, d, f));
      var two := Merge(Merge(Null, a), b);
      var three := if e then Merge(two, c) else two;
      var four := if s then Merge(three, d) else three;
      if HasLeaf(At(a, p)) then Agrees(At(full, p), At(a, p))
      else if HasLeaf(At(b, p)) then Agrees(At(full, p), At(b, p)) <==> Unblocked(Merge(Null, a), p)
      else if e && HasLeaf(At(c, p)) then Agrees(At(full, p), At(c, p)) <==> Unblocked(two, p)
      else if s && HasLeaf(At(d, p)) then Agrees(At(full, p), At(d, p)) <==> Unblocked(three, p)
      else if HasLeaf(At(f, p)) then Agrees(At(full, p), At(f, p)) <==> Unblocked(four, p)
      else At(full, p) == Null
  {
    NullUnblocked(p);
    var row := Row(a, b, e, c, s, d, f);
    hide At, Merge, MergeAll, HasLeaf, Agrees, Unblocked;
    RowStages(a, b, e, c, s, d, f);
    var n := |row|;
    if HasLeaf(At(a, p)) {
      FirstSourceDecides(row, p, 0);
    } else if HasLeaf(At(b, p)) {
      FirstSourceDecides(row, p, 1);
    } else if e && HasLeaf(At(c, p)) {
      FirstSourceDecides(row, p, 2);
    } else if s && HasLeaf(At(d, p)) {
      FirstSourceDecides(row, p, n - 2);
    } else if HasLeaf(At(f, p)) {
      FirstSourceDecides(row, p, n - 1);
    } else {
      NoLeafBefore(row, p, n);
      assert row[..n] == row;
    }
  }

  /** What has been merged before each source. */
  lemma RowStages(a: Value, b: Value, e: bool, c: Value, s: bool, d: Value, f: Value)
    ensures
      var row, n := Row(a, b, e, c, s, d, f), |Row(a, b, e, c, s, d, f)|;
      var two := Merge(Merge(Null, a), b);
      var three := if e then Merge(two, c) else two;
      && MergeAll(row[..0]) == Null && MergeAll(row[..1]) == Merge(Null, a) && MergeAll(row[..2]) == two
      && (s ==> MergeAll(row[..n - 2]) == three)
      && MergeAll(row[..n - 1]) == if s then Merge(three, d) else three
  {
    var row := Row(a, b, e, c, s, d, f);
    var n := |row|;
    assert row[..0] == [];
    assert MergeAll(row[..0]) == Null;
    hide MergeAll, Merge;
    MergeAllNext(row, 0);
    MergeAllNext(row, 1);
    MergeAllNext(row, 2);
    if n > 3 { MergeAllNext(row, 3); }
  }

  lemma NullUnblocked(p: Path)
    ensures Unblocked(Null, p)
  {
    forall i | 0 <= i < |p| ensures Opens(At(Null, p[..i])) { AtClosed(Null, p[..i]); }
  }

  /** However the merges of the sources that take part are grouped, the result is the same. */
  lemma SourceGrouping(from: Sources, g: Grouping)
    requires Harmonious(from.All()) && Flatten(g) == from.Parts()
    ensures MergeGrouped(g) == from.Full()
  {
    from.Takes();
    RowHarmonious(from.Get(from.env), from.Get(from.file), from.AsksEtcd(), from.Get(from.etcd),
                  from.AsksStorage(), from.Get(from.storage), from.Get(from.default));
    GroupingIrrelevant(g);
  }

  /** Each path takes the value of the first source that defines it: the environment, the file,
      etcd and the storage where the first two list endpoints, the default environment. */
  lemma SourcePrecedence(from: Sources, p: Path)
    requires Harmonious(from.All())
    ensures
      var env, file, default := from.Get(from.env), from.Get(from.file), from.Get(from.default);
      var etcd, storage := from.Get(from.etcd), from.Get(from.storage);
      var local := Merge(Merge(Null, env), file);
      var e, s := At(local, ["config", "etcd", "endpoints"]), At(local, ["config", "storage", "endpoints"]);
      Agrees(At(from.Full(), p),
        if At(env, p) != Null then At(env, p)
        else if At(file, p) != Null then At(file, p)
        else if e.List? && e.items != [] && At(etcd, p) != Null then At(etcd, p)
        else if s.List? && s.items != [] && At(storage, p) != Null then At(storage, p)
        else At(default, p))
  {
    from.Takes();
    var e, s := from.AsksEtcd(), from.AsksStorage();
    hide At, Merge, MergeAll, FirstAt, Agrees, Harmonious;
    var env, file, default := from.Get(from.env), from.Get(from.file), from.Get(from.default);
    RowHarmonious(env, file, e, from.Get(from.etcd), s, from.Get(from.storage), default);
    RowFirst(env, file, e, from.Get(from.etcd), s, from.Get(from.storage), default, p);
    FirstSourceWins(from.Parts(), p);
  }

  /** The same for all trees, with the exact condition for the deciding source to be seen. */
  lemma SourcesDecide(from: Sources, p: Path)
    ensures
      var env, file, default := from.Get(from.env), from.Get(from.file), from.Get(from.default);
      var etcd, storage := from.Get(from.etcd), from.Get(from.storage);
      var local := Merge(Merge(Null, env), file);
      var etcdAt := At(local, ["config", "etcd", "endpoints"]);
      var storageAt := At(local, ["config", "storage", "endpoints"]);
      var e, s := etcdAt.List? && etcdAt.items != [], storageAt.List? && storageAt.items != [];
      var withEtcd := if e then Merge(local, etcd) else local;
      var withStorage := if s then Merge(withEtcd, storage) else withEtcd;
      if HasLeaf(At(env, p)) then Agrees(At(from.Full(), p), At(env, p))
      else if HasLeaf(At(file, p)) then Agrees(At(from.Full(), p), At(file, p)) <==> Unblocked(Merge(Null, env), p)
      else if e && HasLeaf(At(etcd, p)) then Agrees(At(from.Full(), p), At(etcd, p)) <==> Unblocked(local, p)
      else if s && HasLeaf(At(storage, p)) then Agrees(At(from.Full(), p), At(storage, p)) <==> Unblocked(withEtcd, p)
      else if HasLeaf(At(default, p)) then Agrees(At(from.Full(), p), At(default, p)) <==> Unblocked(withStorage, p)
      else At(from.Full(), p) == Null
  {
    from.Takes();
    hide At, Merge, MergeAll, HasLeaf, Agrees, Unblocked;
    RowDecides(from.Get(from.env), from.Get(from.file), from.AsksEtcd(), from.Get(from.etcd),
               from.AsksStorage(), from.Get(from.storage), from.Get(from.default), p);
  }

  datatype InstanceLoaded = InstanceLoaded(config: Value) | UnknownName | EnvFailed | NotAMap

  /** `GetInstanceConfig`: environment variables, if they can be collected, go over all scopes.
      `MakeInstanceConfig` accepts nil and maps. */
  method GetInstanceConfig(raw: Value, name: string, env: Option<Value>) returns (res: InstanceLoaded)
    ensures res.UnknownName? <==> forall g, r :: !Lives(raw, g, r, name)
    ensures res.EnvFailed? <==> env.None? && exists g, r :: Lives(raw, g, r, name)
    ensures res.InstanceLoaded? || res.NotAMap? ==>
      && env.Some?
      && exists g, r :: Lives(raw, g, r, name)
           && var config := Merge(Merge(Null, env.value), Effective(raw, g, r, name));
              res == if Opens(config) then InstanceLoaded(config) else NotAMap
  {
    hide Merge, Effective;
    var at := FindInstance(raw, name);
    if at.Nowhere? { return UnknownName; }
    if env.None? { return EnvFailed; }
    var config := new Config();
    MergeSource(config, env.value);
    var inst, where := Instantiate(raw, name);
    config.MergeLow(inst);
    res := if Opens(config.paths) then InstanceLoaded(config.paths) else NotAMap;
  }

  // ---- election demote ----

  lemma {:induction false} WriteTwice(v: Value, p: Path, x: Value, y: Value)
    requires Write(v, p, x).Tree?
    ensures Write(Write(v, p, x).tree, p, y) == Write(v, p, y)
    decreases p
  {
    if p != [] {
      var c := Child(v, p[0]);
      WriteTwice(c, p[1..], x, y);
      WriteAgainSucceeds(c, p[1..], x, y);
      var one, two := Write(c, p[1..], x).tree, Write(c, p[1..], y).tree;
      assert Entries(v)[p[0] := one][p[0] := two] == Entries(v)[p[0] := two];
    }
  }

  lemma WriteAgainSucceeds(v: Value, p: Path, x: Value, y: Value)
    requires Write(v, p, x).Tree?
    ensures Write(v, p, y).Tree?
  {
    WriteSucceeds(v, p, x);
    WriteSucceeds(v, p, y);
  }

  function ElectionPath(inst: CInstance): Path {
    InstancePath(inst.group, inst.replicaset, inst.name) + ["replication", "election_mode"]
  }

  const VOTER := Atom(Str("voter"))
  const CANDIDATE := Atom(Str("candidate"))

  /** What the outside world answers during one run. */
  datatype World = World(collects: bool, publishes: bool, reloads: bool, waits: bool,
                         collectsAgain: bool, publishesAgain: bool)

  class LocalCluster {
    var file: Value

    constructor (file: Value)
      ensures this.file == file
    {
      this.file := file;
    }

    /** `patchLocalCConfig` with the election mode patch. */
    method PatchElectionMode(inst: CInstance, mode: Value, collects: bool, publishes: bool) returns (ok: bool)
      modifies this
      ensures ok <==> collects && publishes && Write(old(file), ElectionPath(inst), mode).Tree?
      ensures file == if ok then Write(old(file), ElectionPath(inst), mode).tree else old(file)
    {
      if !collects { return false; }
      var config := new Config();
      config.paths := file;
      var w := config.Set(ElectionPath(inst), mode);
      if w.Blocked? || !publishes { return false; }
      file := config.paths;
      ok := true;
    }

    /** `demoteElection`, under any failures: success restores the candidate mode and touches
        nothing else, and a failure after the first publish leaves the instance a voter. */
    method DemoteElection(inst: CInstance, w: World) returns (published: bool, ok: bool)
      modifies this
      ensures
        var first := w.collects && w.publishes && Write(old(file), ElectionPath(inst), VOTER).Tree?;
        && published == first
        && (ok <==> first && w.reloads && w.waits && w.collectsAgain && w.publishesAgain)
        && (!first ==> file == old(file))
        && (first && !ok ==> file == Write(old(file), ElectionPath(inst), VOTER).tree)
        && (ok ==> Write(old(file), ElectionPath(inst), CANDIDATE) == Tree(file))
      ensures published ==>
        var path := ["groups", inst.group, "replicasets", inst.replicaset, "instances", inst.name,
                     "replication", "election_mode"];
        At(file, path) == Atom(Str(if ok then "candidate" else "voter"))
      ensures ok ==>
        && At(Effective(file, inst.group, inst.replicaset, inst.name), ["replication", "election_mode"]) ==
           Atom(Str("candidate"))
        && forall q :: !Comparable(ElectionPath(inst), q) ==> At(file, q) == At(old(file), q)
    {
      ghost var start := file;
      var path := ElectionPath(inst);
      published, ok := false, false;
      var first := PatchElectionMode(inst, VOTER, w.collects, w.publishes);
      if !first { return; }
      published := true;
      WriteFrame(start, path, VOTER, path);
      assert path == ["groups", inst.group, "replicasets", inst.replicaset, "instances", inst.name,
                      "replication", "election_mode"];
      if !w.reloads || !w.waits { return; }
      WriteTwice(start, path, VOTER, CANDIDATE);
      WriteAgainSucceeds(start, path, VOTER, CANDIDATE);
      ok := PatchElectionMode(inst, CANDIDATE, w.collectsAgain, w.publishesAgain);
      if ok {
        forall q: Path ensures !Comparable(path, q) ==> At(file, q) == At(start, q) {
          WriteFrame(start, path, CANDIDATE, q);
        }
        WriteFrame(start, path, CANDIDATE, path);
        OwnSettingRules(file, inst.group, inst.replicaset, inst.name, ["replication", "election_mode"]);
      }
    }
  }
}

/**
 Small clusters in which a patch does less, or more, than its command says.
 */
module PatchExamples {
  import opened ConfigTree
  import opened PriorityMerge
  import opened MergeLaws
  import opened Cluster
  import opened ConfigSource
  import opened FailoverModes
  import opened Patching
  import opened EffectivePatch
  import opened ClusterSources

  /** A cluster of one instance. */
  function OneInstance(inst: CInstance, replicaset: map<string, Value>, instance: Value): Value {
    var scope := Map(replicaset[INSTANCES := Map(map[inst.name := instance])]);
    Map(map[GROUPS := Map(map[inst.group := Map(map[REPLICASETS := Map(map[inst.replicaset := scope])])])])
  }

  /** Settings of a replicaset scope, without the list of instances. */
  predicate Plain(replicaset: map<string, Value>) {
    INSTANCES !in replicaset && replicaset != map[] && NullFree(Map(replicaset))
  }

  lemma OneInstanceIs(inst: CInstance, replicaset: map<string, Value>, instance: Value)
    requires INSTANCES !in replicaset && NullFree(Map(replicaset)) && instance.Map? && NullFree(instance)
    ensures
      var raw := OneInstance(inst, replicaset, instance);
      && NullFree(raw) && Parses(raw) && Lives(raw, inst.group, inst.replicaset, inst.name)
      && InstanceOf(raw, inst.group, inst.replicaset, inst.name) == instance
  {
    OneInstanceNullFree(inst, replicaset, instance);
    hide NullFree;
    var raw := OneInstance(inst, replicaset, instance);
    var scope := Map(replicaset[INSTANCES := Map(map[inst.name := instance])]);
    var group := Map(map[REPLICASETS := Map(map[inst.replicaset := scope])]);
    assert GroupOf(raw, inst.group) == group && ReplicasetOf(raw, inst.group, inst.replicaset) == scope;
    assert ParsesReplicaset(scope) && ParsesGroup(group);
  }

  lemma OneInstanceNullFree(inst: CInstance, replicaset: map<string, Value>, instance: Value)
    requires NullFree(Map(replicaset)) && instance.Map? && NullFree(instance)
    ensures NullFree(OneInstance(inst, replicaset, instance))
  {
    var instances := Map(map[inst.name := instance]);
    var scope := Map(replicaset[INSTANCES := instances]);
    var replicasets := Map(map[inst.replicaset := scope]);
    assert NullFree(instances) && NullFree(scope) && NullFree(replicasets);
    var group := Map(map[REPLICASETS := replicasets]);
    assert NullFree(group) && NullFree(Map(map[inst.group := group]));
  }

  lemma OneInstanceScopes(inst: CInstance, replicaset: map<string, Value>, instance: Value)
    requires Plain(replicaset) && instance.Map?
    ensures Scopes(OneInstance(inst, replicaset, instance), inst.group, inst.replicaset, inst.name) ==
            [instance, Map(replicaset), Null, Null]
  {
    var raw := OneInstance(inst, replicaset, instance);
    var scope := Map(replicaset[INSTANCES := Map(map[inst.name := instance])]);
    var group := Map(map[REPLICASETS := Map(map[inst.replicaset := scope])]);
    assert GroupOf(raw, inst.group) == group && ReplicasetOf(raw, inst.group, inst.replicaset) == scope;
    assert scope.entries - {INSTANCES} == replicaset;
    assert group.entries - {REPLICASETS} == map[] && raw.entries - {GROUPS} == map[];
  }

  lemma {:induction false} MissingBelow(v: Value, p: Path, i: nat)
    requires i < |p| && At(v, p[..i]).Map? && p[i] !in At(v, p[..i]).entries
    ensures Fetch(v, p).Missing?
    decreases p
  {
    if i > 0 {
      assert p[..i][1..] == p[1..][..i - 1];
      if !(v.Map? && p[0] in v.entries) { AtClosed(Null, p[1..][..i - 1]); }
      MissingBelow(v.entries[p[0]], p[1..], i - 1);
    }
  }

  lemma MergedOne(doc: Doc)
    requires NullFree(doc.config)
    ensures Merged([doc]) == doc.config
  {
    var c := Configs([doc]);
    assert c[..|c| - 1] == [] && c[|c| - 1] == doc.config && MergeAll([]) == Null;
    assert MergeAll(c) == Merge(MergeAll(c[..|c| - 1]), c[|c| - 1]);
    NullFreeMerge(Null, doc.config);
  }

  lemma FirstIsUnshadowed(docs: seq<Doc>, path: Path, x: Value)
    ensures Unshadowed(docs, path, x, 0)
  {
    AtClosed(Null, path);
  }

  /** A section that an empty instance scope lacks can be written. */
  lemma NewSection(raw: Value, inst: CInstance, section: string, key: string, x: Value)
    requires InstanceOf(raw, inst.group, inst.replicaset, inst.name) == Map(map[])
    ensures
      var path := InstancePath(inst.group, inst.replicaset, inst.name) + [section, key];
      !Fetch(raw, path).NotMap? && Write(raw, path, x).Tree?
  {
    var own := InstancePath(inst.group, inst.replicaset, inst.name);
    var path := own + [section, key];
    InstanceAtPath(raw, inst.group, inst.replicaset, inst.name);
    assert path[..6] == own && path[6] == section;
    MissingBelow(raw, path, 6);
    NoErrorWrites(raw, path, x);
  }

  /** A single document can be patched in a section that its empty instance scope lacks. */
  lemma OneDocument(doc: Doc, inst: CInstance, section: string, key: string, x: Value) returns (docs': seq<Doc>)
    requires NullFree(doc.config) && InstanceOf(doc.config, inst.group, inst.replicaset, inst.name) == Map(map[])
    ensures PatchOf([doc], docs', InstancePath(inst.group, inst.replicaset, inst.name) + [section, key], x, 0)
  {
    var path := InstancePath(inst.group, inst.replicaset, inst.name) + [section, key];
    NewSection(doc.config, inst, section, key, x);
    docs' := Patched([doc], 0, Write(doc.config, path, x).tree);
  }

  // ---- promote ----

  /** The replicaset has the scalar `database: 5`. */
  function ScalarDatabase(): map<string, Value> { map["database" := Atom(Num(5))] }

  /** An inherited scalar `database` is lost when the instance is promoted. */
  lemma InheritedScalarReplaced(inst: CInstance) returns (docs': seq<Doc>)
    requires inst.failover.FailoverOff?
    ensures
      var docs, p := [Doc("k", 0, OneInstance(inst, ScalarDatabase(), Map(map[])))], PatchFor(Promote, inst).value;
      && PatchOf(docs, docs', p.path, p.value, 0)
      && Parses(Merged(docs)) && Lives(Merged(docs), inst.group, inst.replicaset, inst.name)
      && At(Effective(Merged(docs), inst.group, inst.replicaset, inst.name), ["database"]) == Atom(Num(5))
      && At(Effective(Merged(docs'), inst.group, inst.replicaset, inst.name), ["database"]).Map?
  {
    var replicaset, p := ScalarDatabase(), PatchFor(Promote, inst).value;
    var raw := OneInstance(inst, replicaset, Map(map[]));
    var doc := Doc("k", 0, raw);
    assert "database" in replicaset;
    OneInstanceIs(inst, replicaset, Map(map[]));
    OneInstanceScopes(inst, replicaset, Map(map[]));
    EffectiveDatabase(raw, inst);
    hide OneInstance, Merged, Effective, Parses, Lives, PatchOf, ScalarDatabase;
    MergedOne(doc);
    docs' := OneDocument(doc, inst, "database", "mode", p.value);
    PatchMoves([doc], docs', p, 0);
    WayIsMaps(Merged(docs'), inst.group, inst.replicaset, inst.name, ["database", "mode"], ["database"]);
  }

  lemma EffectiveDatabase(raw: Value, inst: CInstance)
    requires NullFree(raw)
    requires Scopes(raw, inst.group, inst.replicaset, inst.name) == [Map(map[]), Map(ScalarDatabase()), Null, Null]
    ensures At(Effective(raw, inst.group, inst.replicaset, inst.name), ["database"]) == Atom(Num(5))
  {
    var scope := Map(ScalarDatabase());
    EffectiveFrom(raw, inst.group, inst.replicaset, inst.name);
    assert !HasLeaf(Null) && "database" in scope.entries && HasLeaf(scope.entries["database"]);
    MergeAtKey(Map(map[]), scope, "database");
    AtOne(Merge(Map(map[]), scope), "database");
  }

  // ---- expel ----

  /** The replicaset listens on something. */
  function ListeningReplicaset(): map<string, Value> {
    map["iproto" := Map(map["listen" := Map(map["uri" := Atom(Num(1))])])]
  }

  lemma ListenEntries()
    ensures Plain(ListeningReplicaset()) && AddsEntries(At(Map(ListeningReplicaset()), ["iproto", "listen"]))
  {
    var replicaset := ListeningReplicaset();
    var listen := Map(map["uri" := Atom(Num(1))]);
    assert "iproto" in replicaset;
    AtTwo(Map(replicaset), "iproto", "listen", []);
    assert "uri" in listen.entries && HasLeaf(listen.entries["uri"]);
    assert NullFree(listen) && NullFree(replicaset["iproto"]);
  }

  /** An expelled instance keeps the listen entries of its replicaset. */
  lemma ExpelledStillListens(inst: CInstance) returns (docs': seq<Doc>)
    ensures
      var docs := [Doc("k", 0, OneInstance(inst, ListeningReplicaset(), Map(map[])))];
      var p := PatchFor(Expel, inst).value;
      && PatchOf(docs, docs', p.path, p.value, 0)
      && Parses(Merged(docs)) && Lives(Merged(docs), inst.group, inst.replicaset, inst.name)
      && At(Merged(docs'), p.path) == Map(map[])
      && At(Effective(Merged(docs'), inst.group, inst.replicaset, inst.name), ["iproto", "listen"]) != Map(map[])
  {
    ListenEntries();
    docs' := ScopeStillListens(inst, ListeningReplicaset());
  }

  /** For every replicaset scope with listen entries. */
  lemma ScopeStillListens(inst: CInstance, replicaset: map<string, Value>) returns (docs': seq<Doc>)
    requires Plain(replicaset) && AddsEntries(At(Map(replicaset), ["iproto", "listen"]))
    ensures
      var docs, p := [Doc("k", 0, OneInstance(inst, replicaset, Map(map[])))], PatchFor(Expel, inst).value;
      && PatchOf(docs, docs', p.path, p.value, 0)
      && Parses(Merged(docs)) && Lives(Merged(docs), inst.group, inst.replicaset, inst.name)
      && At(Merged(docs'), p.path) == Map(map[])
      && At(Effective(Merged(docs'), inst.group, inst.replicaset, inst.name), ["iproto", "listen"]) != Map(map[])
  {
    var raw, p := OneInstance(inst, replicaset, Map(map[])), PatchFor(Expel, inst).value;
    var doc := Doc("k", 0, raw);
    OneInstanceIs(inst, replicaset, Map(map[]));
    OneInstanceScopes(inst, replicaset, Map(map[]));
    MergedOne(doc);
    docs' := OneDocument(doc, inst, "iproto", "listen", p.value);
    OuterListens(doc, docs', inst, Map(replicaset));
  }

  lemma OuterListens(doc: Doc, docs': seq<Doc>, inst: CInstance, scope: Value)
    requires var p := PatchFor(Expel, inst).value; PatchOf([doc], docs', p.path, p.value, 0)
    requires Merged([doc]) == doc.config && Lives(doc.config, inst.group, inst.replicaset, inst.name)
    requires Scopes(doc.config, inst.group, inst.replicaset, inst.name)[1] == scope
    requires AddsEntries(At(scope, ["iproto", "listen"]))
    ensures At(Merged(docs'), PatchFor(Expel, inst).value.path) == Map(map[])
    ensures At(Effective(Merged(docs'), inst.group, inst.replicaset, inst.name), ["iproto", "listen"]) != Map(map[])
  {
    hide Merged, Scopes, Effective, AddsEntries, Unshadowed, Lives, At, PatchOf;
    FirstIsUnshadowed([doc], PatchFor(Expel, inst).value.path, Map(map[]));
    ExpelWorks([doc], docs', inst, 0);
    ExpelEffective([doc], docs', inst, 0);
  }

  /** The instance scope of this document has a listen section. */
  function ListeningInstance(inst: CInstance, listen: map<string, Value>): Value {
    OneInstance(inst, map[], Map(map["iproto" := Map(map["listen" := Map(listen)])]))
  }

  /** Two documents with a listen section: expelling empties the first, the second fills it again. */
  lemma LaterDocumentListens(inst: CInstance) returns (docs': seq<Doc>)
    ensures
      var docs := [Doc("a", 0, ListeningInstance(inst, map[])),
                   Doc("b", 0, ListeningInstance(inst, map["uri" := Atom(Num(1))]))];
      var p := PatchFor(Expel, inst).value;
      && Ascending(docs) && FirstTarget(docs, p.path, p.lower, 0) && PatchOf(docs, docs', p.path, p.value, 0)
      && At(Merged(docs'), p.path) != Map(map[])
  {
    var listen: map<string, Value> := map["uri" := Atom(Num(1))];
    assert "uri" in listen && HasLeaf(Map(listen)) && NullFree(Map(listen));
    docs' := LaterListens(inst, listen);
  }

  lemma LaterListens(inst: CInstance, listen: map<string, Value>) returns (docs': seq<Doc>)
    requires NullFree(Map(listen)) && AddsEntries(Map(listen))
    ensures
      var docs := [Doc("a", 0, ListeningInstance(inst, map[])), Doc("b", 0, ListeningInstance(inst, listen))];
      var p := PatchFor(Expel, inst).value;
      && Ascending(docs) && FirstTarget(docs, p.path, p.lower, 0) && PatchOf(docs, docs', p.path, p.value, 0)
      && At(Merged(docs'), p.path) != Map(map[])
  {
    var p := PatchFor(Expel, inst).value;
    var one, two := ListeningInstance(inst, map[]), ListeningInstance(inst, listen);
    var docs := [Doc("a", 0, one), Doc("b", 0, two)];
    ListensAt(inst, map[]);
    ListensAt(inst, listen);
    hide ListeningInstance, Merged, Longest, Fetch, At, Write, NullFree, AddsEntries;
    assert Less("a", "b");
    NoErrorWrites(one, p.path, p.value);
    docs' := Patched(docs, 0, Write(one, p.path, p.value).tree);
    ExpelWorks(docs, docs', inst, 0);
    assert AddsEntries(At(docs[1].config, p.path));
  }

  lemma ListensAt(inst: CInstance, listen: map<string, Value>)
    requires NullFree(Map(listen))
    ensures
      var v, path := ListeningInstance(inst, listen), PatchFor(Expel, inst).value.path;
      At(v, path) == Map(listen) && Longest(v, path) == |path| && Fetch(v, path) == Found(Map(listen))
  {
    var v, path := ListeningInstance(inst, listen), PatchFor(Expel, inst).value.path;
    var instance := Map(map["iproto" := Map(map["listen" := Map(listen)])]);
    assert NullFree(instance.entries["iproto"]);
    OneInstanceIs(inst, map[], instance);
    AtTwo(instance, "iproto", "listen", []);
    hide OneInstance, Parses, Lives, NullFree, InstanceOf, Longest, At;
    InstanceAtPath(v, inst.group, inst.replicaset, inst.name);
    AtConcat(v, InstancePath(inst.group, inst.replicaset, inst.name), ["iproto", "listen"]);
    LongestIs(v, path, |path|);
    assert path[..|path|] == path;
  }

  // ---- election demote ----

  /** The reload after the first publish fails: the instance stays a voter. */
  method DemotedStaysVoter(inst: CInstance) returns (published: bool, ok: bool, file: Value)
    ensures published && !ok
    ensures
      At(Effective(file, inst.group, inst.replicaset, inst.name), ["replication", "election_mode"]) ==
      Atom(Str("voter"))
  {
    var start := OneInstance(inst, map[], Map(map[]));
    OneInstanceIs(inst, map[], Map(map[]));
    var cluster := new LocalCluster(start);
    NewSection(start, inst, "replication", "election_mode", VOTER);
    hide OneInstance, Effective, Write, At;
    published, ok := cluster.DemoteElection(inst, World(true, true, false, true, true, true));
    file := cluster.file;
    WriteFrame(start, ElectionPath(inst), VOTER, ElectionPath(inst));
    OwnSettingRules(file, inst.group, inst.replicaset, inst.name, ["replication", "election_mode"]);
  }
}

/**
 Promote, demote and expel in the words of the configuration: which failover string leads to
 which setting at which path, and which documents are considered for it.
 */
module Commands {
  import opened Options
  import opened ConfigTree
  import opened PriorityMerge
  import opened Cluster
  import opened ConfigSource
  import opened FailoverModes
  import opened Patching

  /** The effective failover setting of an instance. */
  function FailoverSetting(raw: Value, inst: CInstance): Value {
    At(Effective(raw, inst.group, inst.replicaset, inst.name), ["replication", "failover"])
  }

  predicate SaysOff(v: Value) {
    v.Null? || (v.Atom? && v.a.Str? && (Spells(v.a.s, "off") || Spells(v.a.s, "disabled")))
  }

  predicate SaysManual(v: Value) {
    v.Atom? && v.a.Str? && Spells(v.a.s, "manual")
  }

  lemma ModeOf(raw: Value, name: string, inst: CInstance)
    requires UniqueNames(raw) && Resolved(raw, name, inst)
    ensures inst.failover.FailoverOff? <==> SaysOff(FailoverSetting(raw, inst))
    ensures inst.failover.FailoverManual? <==> SaysManual(FailoverSetting(raw, inst))
  {
    assert HasFailover(Effective(raw, inst.group, inst.replicaset, name), inst.failover);
    hide Effective, Spells;
    match FailoverSetting(raw, inst)
    case Atom(Str(s)) =>
      ParseMeans(s, FailoverOff);
      ParseMeans(s, FailoverManual);
      ParseMeans(s, inst.failover);
    case _ =>
  }

  /** An operation is refused exactly for the failover modes that have no patch. */
  lemma UnsupportedExactly(raw: Value, op: Operation, name: string, inst: CInstance)
    requires UniqueNames(raw) && Resolved(raw, name, inst)
    ensures PatchFor(op, inst).None? <==>
      match op
      case Promote => !SaysOff(FailoverSetting(raw, inst)) && !SaysManual(FailoverSetting(raw, inst))
      case Demote => !SaysOff(FailoverSetting(raw, inst))
      case Expel => false
  {
    ModeOf(raw, name, inst);
  }

  /** What a published operation has written into the picked document, by the failover setting. */
  lemma WrittenSetting(docs: seq<Doc>, docs': seq<Doc>, op: Operation, name: string, inst: CInstance, t: nat)
    requires UniqueNames(Merged(docs)) && Resolved(Merged(docs), name, inst) && PatchFor(op, inst).Some?
    requires var p := PatchFor(op, inst).value; PatchOf(docs, docs', p.path, p.value, t)
    ensures
      var v, config, g, r := FailoverSetting(Merged(docs), inst), docs'[t].config, inst.group, inst.replicaset;
      match op
      case Promote =>
        && (SaysOff(v) ==>
              At(config, ["groups", g, "replicasets", r, "instances", name, "database", "mode"]) == Atom(Str("rw")))
        && (SaysManual(v) ==> At(config, ["groups", g, "replicasets", r, "leader"]) == Atom(Str(name)))
      case Demote =>
        At(config, ["groups", g, "replicasets", r, "instances", name, "database", "mode"]) == Atom(Str("ro"))
      case Expel =>
        At(config, ["groups", g, "replicasets", r, "instances", name, "iproto", "listen"]) == Map(map[])
  {
    ModeOf(Merged(docs), name, inst);
    var p := PatchFor(op, inst).value;
    hide SaysOff, SaysManual, FailoverSetting, Merged, NoLookupError, Write, At;
    WriteFrame(docs[t].config, p.path, p.value, p.path);
    var g, r := inst.group, inst.replicaset;
    assert InstancePath(g, r, name) + ["database", "mode"] ==
           ["groups", g, "replicasets", r, "instances", name, "database", "mode"];
    assert InstancePath(g, r, name) + ["iproto", "listen"] ==
           ["groups", g, "replicasets", r, "instances", name, "iproto", "listen"];
    assert ReplicasetPath(g, r) + ["leader"] == ["groups", g, "replicasets", r, "leader"];
  }

  /** The documents considered for an operation are exactly those that have the instance, or for a
      new leader the replicaset. */
  lemma ConsideredExactly(doc: Doc, op: Operation, inst: CInstance)
    requires PatchFor(op, inst).Some?
    ensures
      var p, g, r := PatchFor(op, inst).value, inst.group, inst.replicaset;
      Eligible(doc, p.path, p.lower) <==>
        if op.Promote? && inst.failover.FailoverManual? then At(doc.config, ["groups", g, "replicasets", r]) != Null
        else At(doc.config, ["groups", g, "replicasets", r, "instances", inst.name]) != Null
  {
    var p, g, r := PatchFor(op, inst).value, inst.group, inst.replicaset;
    LongestIs(doc.config, p.path, p.lower);
    assert p.path[..p.lower] ==
      if op.Promote? && inst.failover.FailoverManual? then ["groups", g, "replicasets", r]
      else ["groups", g, "replicasets", r, "instances", inst.name];
  }
}

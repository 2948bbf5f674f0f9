/**
 Discovery: the partial views that instances have of their replicasets are merged into one
 picture, and a verdict on the masters is drawn from it.
 */
module Discovery {
  import opened Options
  import opened FailoverModes
  import opened Sequences

  datatype Mode = ModeUnknown | ModeRead | ModeRW

  datatype Master = MasterUnknown | MasterNo | MasterSingle | MasterMulti

  datatype Instance = Instance(alias: string, uuid: string, uri: string, mode: Mode, found: bool, ctx: int)

  /** `cconfigTopology`: what one instance says about its replicaset. */
  datatype Topology = Topology(uuid: string, leader: string, alias: string, failover: string, instances: seq<Instance>)

  datatype Replicaset = Replicaset(uuid: string, leader: string, alias: string, failover: Failover,
                                   master: Master, instances: seq<Instance>)

  // ---- instances by UUID ----

  predicate Unique(s: seq<Instance>) {
    forall i, j :: 0 <= i < j < |s| ==> s[i].uuid != s[j].uuid
  }

  /** The instance with a UUID. */
  function Look(s: seq<Instance>, u: string): (r: Option<Instance>)
    ensures r.Some? ==> r.value in s && r.value.uuid == u
    ensures r.None? ==> forall i :: 0 <= i < |s| ==> s[i].uuid != u
  {
    if s == [] then None
    else if s[|s| - 1].uuid == u then Some(s[|s| - 1])
    else Look(s[..|s| - 1], u)
  }

  lemma LookIs(s: seq<Instance>, k: nat)
    requires Unique(s) && k < |s|
    ensures Look(s, s[k].uuid) == Some(s[k])
  {
    var x := Look(s, s[k].uuid);
    assert x.Some?;
  }

  /** Two observations of one instance: the second fills what the first leaves open. */
  function Fill(a: Instance, b: Instance): Instance {
    a.(uri := if a.uri == "" then b.uri else a.uri,
       mode := if a.mode.ModeUnknown? then b.mode else a.mode,
       found := if a.found then true else b.found,
       ctx := if a.found then a.ctx else b.ctx)
  }

  function Combine(a: Option<Instance>, b: Option<Instance>): Option<Instance> {
    match (a, b)
    case (None, _) => b
    case (_, None) => a
    case (Some(x), Some(y)) => Some(Fill(x, y))
  }

  /** `updateCConfigInstances` */
  method UpdateInstances(known: seq<Instance>, view: seq<Instance>) returns (r: seq<Instance>)
    ensures Unique(known) && Unique(view) ==>
      Unique(r) && forall u :: Look(r, u) == Combine(Look(known, u), Look(view, u))
  {
    r := known;
    for n := 0 to |view|
      invariant Unique(known) && Unique(view) ==>
        Unique(r) && forall u :: Look(r, u) == Combine(Look(known, u), Look(view[..n], u))
    {
      var t := view[n];
      var at := -1;
      for i := 0 to |r|
        invariant -1 <= at < i
        invariant at >= 0 ==> r[at].uuid == t.uuid
        invariant at < 0 ==> forall j :: 0 <= j < i ==> r[j].uuid != t.uuid
      {
        if t.uuid == r[i].uuid { at := i; }
      }
      ghost var before := r;
      if at >= 0 {
        var x := r[at];
        if x.uri == "" { x := x.(uri := t.uri); }
        if x.mode.ModeUnknown? { x := x.(mode := t.mode); }
        if !x.found { x := x.(ctx := t.ctx, found := t.found); }
        r := r[at := x];
      } else {
        r := r + [t];
      }
      if Unique(known) && Unique(view) {
        UpdateStep(known, view, n, before, at, r);
      }
    }
    assert view[..|view|] == view;
  }

  lemma UpdateStep(known: seq<Instance>, view: seq<Instance>, n: nat,
                   before: seq<Instance>, at: int, after: seq<Instance>)
    requires n < |view| && Unique(view) && Unique(before)
    requires forall u :: Look(before, u) == Combine(Look(known, u), Look(view[..n], u))
    requires -1 <= at < |before|
    requires at >= 0 ==> before[at].uuid == view[n].uuid && after == before[at := Fill(before[at], view[n])]
    requires at < 0 ==>
      (forall j :: 0 <= j < |before| ==> before[j].uuid != view[n].uuid) && after == before + [view[n]]
    ensures Unique(after) && forall u :: Look(after, u) == Combine(Look(known, u), Look(view[..n + 1], u))
  {
    var t := view[n];
    assert view[..n + 1][..n] == view[..n];
    forall u: string ensures Look(after, u) == Combine(Look(known, u), Look(view[..n + 1], u)) {
      NoEarlier(view, n);
      if at >= 0 {
        LookUpdate(before, at, Fill(before[at], t), u);
        LookIs(before, at);
      } else {
        assert after[..|before|] == before;
      }
    }
  }

  lemma NoEarlier(view: seq<Instance>, n: nat)
    requires n < |view| && Unique(view)
    ensures Look(view[..n], view[n].uuid) == None
  {
    var x := Look(view[..n], view[n].uuid);
  }

  lemma {:induction false} LookUpdate(s: seq<Instance>, k: nat, x: Instance, u: string)
    requires Unique(s) && k < |s| && x.uuid == s[k].uuid
    ensures Look(s[k := x], u) == if u == x.uuid then Some(x) else Look(s, u)
  {
    if k < |s| - 1 {
      assert s[k := x][..|s| - 1] == s[..|s| - 1][k := x];
      LookUpdate(s[..|s| - 1], k, x, u);
    } else {
      assert s[k := x][..|s| - 1] == s[..|s| - 1];
    }
  }

  // ---- topologies ----

  /** What all views of replicaset `r` say about instance `u`, in order. */
  function View(ts: seq<Topology>, r: string, u: string): Option<Instance> {
    if ts == [] then None
    else
      var before, t := View(ts[..|ts| - 1], r, u), ts[|ts| - 1];
      if t.uuid == r then Combine(before, Look(t.instances, u)) else before
  }

  function FirstView(ts: seq<Topology>, r: string): Option<Topology> {
    if ts == [] then None else if ts[0].uuid == r then Some(ts[0]) else FirstView(ts[1..], r)
  }

  lemma {:induction false} FirstViewLast(ts: seq<Topology>, t: Topology, r: string)
    ensures FirstView(ts + [t], r) ==
            if FirstView(ts, r).Some? then FirstView(ts, r) else if t.uuid == r then Some(t) else None
  {
    if ts == [] {
      assert ts + [t] == [t];
    } else {
      assert (ts + [t])[1..] == ts[1..] + [t];
      FirstViewLast(ts[1..], t, r);
    }
  }

  ghost predicate Described(rs: Replicaset, ts: seq<Topology>) {
    && Unique(rs.instances)
    && (forall u :: Look(rs.instances, u) == View(ts, rs.uuid, u))
    && FirstView(ts, rs.uuid).Some?
    && var t := FirstView(ts, rs.uuid).value;
       rs.leader == t.leader && rs.alias == t.alias && rs.failover == ParseFailover(t.failover)
  }

  ghost predicate Collected(rss: seq<Replicaset>, ts: seq<Topology>) {
    && (forall i, j :: 0 <= i < j < |rss| ==> rss[i].uuid != rss[j].uuid)
    && (forall i :: 0 <= i < |rss| ==> Described(rss[i], ts))
    && Covers(rss, ts)
  }

  /** Every replicaset somebody reported is there. */
  ghost predicate Covers(rss: seq<Replicaset>, ts: seq<Topology>) {
    forall r :: FirstView(ts, r).Some? ==> exists i :: 0 <= i < |rss| && rss[i].uuid == r
  }

  ghost predicate UniqueViews(ts: seq<Topology>) {
    forall i :: 0 <= i < |ts| ==> Unique(ts[i].instances)
  }

  lemma NoFirstView(ts: seq<Topology>, r: string, u: string)
    requires FirstView(ts, r).None?
    ensures View(ts, r, u) == None
  {
    if ts != [] {
      assert ts == ts[..|ts| - 1] + [ts[|ts| - 1]];
      FirstViewLast(ts[..|ts| - 1], ts[|ts| - 1], r);
      NoFirstView(ts[..|ts| - 1], r, u);
    }
  }

  lemma DescribedOther(rs: Replicaset, ts: seq<Topology>, t: Topology)
    requires Described(rs, ts) && t.uuid != rs.uuid
    ensures Described(rs, ts + [t])
  {
    assert (ts + [t])[..|ts|] == ts;
    FirstViewLast(ts, t, rs.uuid);
  }

  lemma DescribedUpdated(rs: Replicaset, ts: seq<Topology>, t: Topology, insts: seq<Instance>)
    requires Described(rs, ts) && t.uuid == rs.uuid && Unique(insts)
    requires forall u :: Look(insts, u) == Combine(Look(rs.instances, u), Look(t.instances, u))
    ensures Described(rs.(instances := insts), ts + [t])
  {
    assert (ts + [t])[..|ts|] == ts;
    FirstViewLast(ts, t, rs.uuid);
  }

  lemma DescribedNew(ts: seq<Topology>, t: Topology, master: Master)
    requires FirstView(ts, t.uuid).None? && Unique(t.instances)
    ensures Described(Replicaset(t.uuid, t.leader, t.alias, ParseFailover(t.failover), master, t.instances), ts + [t])
  {
    assert (ts + [t])[..|ts|] == ts;
    FirstViewLast(ts, t, t.uuid);
    forall u: string ensures View(ts, t.uuid, u) == None { NoFirstView(ts, t.uuid, u); }
  }

  /** The first loop of `mergeCConfigTopologies`. */
  method CollectViews(ts: seq<Topology>) returns (rss: seq<Replicaset>)
    ensures UniqueViews(ts) ==> Collected(rss, ts)
  {
    rss := [];
    for n := 0 to |ts|
      invariant UniqueViews(ts) ==> Collected(rss, ts[..n])
    {
      var t := ts[n];
      assert ts[..n + 1] == ts[..n] + [t];
      var at := 0;
      while at < |rss| && rss[at].uuid != t.uuid
        invariant 0 <= at <= |rss|
        invariant forall i :: 0 <= i < at ==> rss[i].uuid != t.uuid
      {
        at := at + 1;
      }
      ghost var before := rss;
      if at < |rss| {
        var insts := UpdateInstances(rss[at].instances, t.instances);
        rss := rss[at := rss[at].(instances := insts)];
        if UniqueViews(ts) { CollectUpdated(before, ts[..n], t, at, insts); }
      } else {
        rss := rss + [Replicaset(t.uuid, t.leader, t.alias, ParseFailover(t.failover), MasterUnknown, t.instances)];
        if UniqueViews(ts) { CollectNew(before, ts[..n], t); }
      }
    }
    assert ts[..|ts|] == ts;
  }

  lemma CollectUpdated(rss: seq<Replicaset>, ts: seq<Topology>, t: Topology, at: nat, insts: seq<Instance>)
    requires Collected(rss, ts) && at < |rss| && rss[at].uuid == t.uuid && Unique(insts)
    requires forall u :: Look(insts, u) == Combine(Look(rss[at].instances, u), Look(t.instances, u))
    ensures Collected(rss[at := rss[at].(instances := insts)], ts + [t])
  {
    var after := rss[at := rss[at].(instances := insts)];
    forall i | 0 <= i < |after| ensures Described(after[i], ts + [t]) {
      if i == at { DescribedUpdated(rss[at], ts, t, insts); } else { DescribedOther(rss[i], ts, t); }
    }
    CoversMore(rss, after, ts, t, at);
  }

  lemma CoversMore(rss: seq<Replicaset>, after: seq<Replicaset>, ts: seq<Topology>, t: Topology, at: nat)
    requires Covers(rss, ts) && at < |after| && after[at].uuid == t.uuid && |rss| <= |after|
    requires forall i :: 0 <= i < |rss| ==> after[i].uuid == rss[i].uuid
    ensures Covers(after, ts + [t])
  {
    forall r | FirstView(ts + [t], r).Some? ensures exists i :: 0 <= i < |after| && after[i].uuid == r {
      FirstViewLast(ts, t, r);
      if r != t.uuid {
        var i :| 0 <= i < |rss| && rss[i].uuid == r;
        assert after[i].uuid == r;
      }
    }
  }

  lemma CollectNew(rss: seq<Replicaset>, ts: seq<Topology>, t: Topology)
    requires Collected(rss, ts) && Unique(t.instances) && forall i :: 0 <= i < |rss| ==> rss[i].uuid != t.uuid
    ensures
      var rs := Replicaset(t.uuid, t.leader, t.alias, ParseFailover(t.failover), MasterUnknown, t.instances);
      Collected(rss + [rs], ts + [t])
  {
    var after := rss + [Replicaset(t.uuid, t.leader, t.alias, ParseFailover(t.failover), MasterUnknown, t.instances)];
    assert FirstView(ts, t.uuid).None?;
    forall i | 0 <= i < |after| ensures Described(after[i], ts + [t]) {
      if i < |rss| { DescribedOther(rss[i], ts, t); } else { DescribedNew(ts, t, MasterUnknown); }
    }
    CoversMore(rss, after, ts, t, |rss|);
  }

  // ---- the master verdict ----

  function Count(s: seq<Instance>, m: Mode): nat {
    if s == [] then 0 else Count(s[..|s| - 1], m) + if s[|s| - 1].mode == m then 1 else 0
  }

  function Verdict(masters: nat, unknown: nat): Master {
    if masters > 1 then MasterMulti
    else if masters == 1 then if unknown == 0 then MasterSingle else MasterUnknown
    else if unknown == 0 then MasterNo else MasterUnknown
  }

  function MasterOf(s: seq<Instance>): Master { Verdict(Count(s, ModeRW), Count(s, ModeUnknown)) }

  predicate TwoWritable(s: seq<Instance>) {
    exists i, j :: 0 <= i < j < |s| && s[i].mode == ModeRW && s[j].mode == ModeRW
  }

  predicate OneWritable(s: seq<Instance>) {
    exists i :: 0 <= i < |s| && s[i].mode == ModeRW && forall j :: 0 <= j < |s| && j != i ==> s[j].mode == ModeRead
  }

  predicate AllRead(s: seq<Instance>) {
    forall i :: 0 <= i < |s| ==> s[i].mode == ModeRead
  }

  /** What a verdict says about the modes of the instances. */
  predicate Says(v: Master, s: seq<Instance>) {
    match v
    case MasterMulti => TwoWritable(s)
    case MasterSingle => OneWritable(s)
    case MasterNo => AllRead(s)
    case MasterUnknown => !TwoWritable(s) && !OneWritable(s) && !AllRead(s)
  }

  lemma {:induction false} CountIs(s: seq<Instance>, m: Mode)
    ensures Count(s, m) == 0 <==> forall i :: 0 <= i < |s| ==> s[i].mode != m
    ensures Count(s, m) >= 2 <==> exists i, j :: 0 <= i < j < |s| && s[i].mode == m && s[j].mode == m
  {
    if s != [] {
      var init, n := s[..|s| - 1], |s| - 1;
      CountIs(init, m);
      assert forall i :: 0 <= i < n ==> s[i] == init[i];
      if Count(init, m) >= 2 {
        var i, j :| 0 <= i < j < |init| && init[i].mode == m && init[j].mode == m;
        assert s[i].mode == m && s[j].mode == m;
      } else if Count(s, m) >= 2 {
        var i :| 0 <= i < |init| && init[i].mode == m;
        assert s[i].mode == m && s[n].mode == m;
      }
      if i, j :| 0 <= i < j < |s| && s[i].mode == m && s[j].mode == m {
        assert init[i].mode == m;
        if j < n { assert init[j].mode == m; }
      }
    }
  }

  /** The numbers decide as the verdicts say. */
  lemma MasterMeans(s: seq<Instance>, v: Master)
    ensures MasterOf(s) == v <==> Says(v, s)
  {
    CountIs(s, ModeRW);
    CountIs(s, ModeUnknown);
    hide Count;
    if Count(s, ModeRW) == 1 {
      var i :| 0 <= i < |s| && s[i].mode == ModeRW;
      if Count(s, ModeUnknown) == 0 {
        forall j | 0 <= j < |s| && j != i ensures s[j].mode == ModeRead {
          assert !(s[j].mode == ModeRW && i < j) && !(s[j].mode == ModeRW && j < i);
        }
        assert OneWritable(s);
      }
      assert !AllRead(s);
    }
  }

  /** `recalculateMaster` */
  method RecalculateMaster(s: seq<Instance>) returns (m: Master)
    ensures Says(m, s)
  {
    var masters, unknown := 0, 0;
    for i := 0 to |s|
      invariant masters == Count(s[..i], ModeRW) && unknown == Count(s[..i], ModeUnknown)
    {
      assert s[..i + 1][..i] == s[..i];
      match s[i].mode {
        case ModeRW => masters := masters + 1;
        case ModeUnknown => unknown := unknown + 1;
        case ModeRead =>
      }
    }
    assert s[..|s|] == s;
    if masters > 1 {
      m := MasterMulti;
    } else if masters == 1 {
      m := if unknown == 0 then MasterSingle else MasterUnknown;
    } else if unknown == 0 {
      m := MasterNo;
    } else {
      m := MasterUnknown;
    }
    MasterMeans(s, m);
  }

  /** `full` is `s` with every unknown mode made known. */
  ghost predicate Resolves(s: seq<Instance>, full: seq<Instance>) {
    && |full| == |s|
    && forall i :: 0 <= i < |s| ==>
         !full[i].mode.ModeUnknown? && (s[i].mode.ModeUnknown? || full[i].mode == s[i].mode)
  }

  lemma {:induction false} ResolvedCounts(s: seq<Instance>, full: seq<Instance>)
    requires Resolves(s, full)
    ensures Count(full, ModeUnknown) == 0
    ensures Count(s, ModeRW) <= Count(full, ModeRW) <= Count(s, ModeRW) + Count(s, ModeUnknown)
  {
    if s != [] { ResolvedCounts(s[..|s| - 1], full[..|s| - 1]); }
  }

  /** The resolution that makes the first `k` unknown modes writable and the others read-only. */
  function Resolve(s: seq<Instance>, k: nat): seq<Instance> {
    if s == [] then []
    else
      var init, x := s[..|s| - 1], s[|s| - 1];
      if !x.mode.ModeUnknown? then Resolve(init, k) + [x]
      else if Count(init, ModeUnknown) < k then Resolve(init, k) + [x.(mode := ModeRW)]
      else Resolve(init, k) + [x.(mode := ModeRead)]
  }

  lemma CountSnoc(s: seq<Instance>, x: Instance, m: Mode)
    ensures Count(s + [x], m) == Count(s, m) + if x.mode == m then 1 else 0
  {
    assert (s + [x])[..|s|] == s;
  }

  lemma {:induction false} ResolveIs(s: seq<Instance>, k: nat)
    ensures Resolves(s, Resolve(s, k))
  {
    if s != [] { ResolveIs(s[..|s| - 1], k); }
  }

  lemma {:induction false} ResolveCounts(s: seq<Instance>, k: nat)
    ensures Count(Resolve(s, k), ModeRW) ==
            Count(s, ModeRW) + (if Count(s, ModeUnknown) < k then Count(s, ModeUnknown) else k)
  {
    if s != [] {
      var init := s[..|s| - 1];
      ResolveCounts(init, k);
      ResolveIs(s, k);
      CountSnoc(Resolve(init, k), Resolve(s, k)[|s| - 1], ModeRW);
    }
  }

  /** A definite verdict holds in every resolution. */
  lemma DefiniteHolds(s: seq<Instance>, full: seq<Instance>)
    requires Resolves(s, full) && !MasterOf(s).MasterUnknown?
    ensures MasterOf(full) == MasterOf(s)
  {
    ResolvedCounts(s, full);
  }

  /** The resolution with no new master and the one with one new master agree only on a definite
      verdict. */
  lemma TwoResolutions(s: seq<Instance>)
    requires MasterOf(Resolve(s, 0)) == MasterOf(Resolve(s, 1))
    ensures MasterOf(s) == MasterOf(Resolve(s, 0))
  {
    hide Resolve, Resolves, Count;
    ResolveIs(s, 0);
    ResolveIs(s, 1);
    ResolveCounts(s, 0);
    ResolveCounts(s, 1);
    ResolvedCounts(s, Resolve(s, 0));
    ResolvedCounts(s, Resolve(s, 1));
  }

  lemma NumbersDefinite(s: seq<Instance>, v: Master)
    requires !v.MasterUnknown?
    ensures MasterOf(s) == v <==> forall full :: Resolves(s, full) ==> MasterOf(full) == v
  {
    if MasterOf(s) == v {
      forall full | Resolves(s, full) ensures MasterOf(full) == v { DefiniteHolds(s, full); }
    } else if forall full :: Resolves(s, full) ==> MasterOf(full) == v {
      ResolveIs(s, 0);
      ResolveIs(s, 1);
      TwoResolutions(s);
    }
  }

  /** A verdict is definite exactly when every resolution of the unknown modes gives it. */
  lemma VerdictDefinite(s: seq<Instance>, v: Master)
    requires !v.MasterUnknown?
    ensures Says(v, s) <==> forall full :: Resolves(s, full) ==> Says(v, full)
  {
    NumbersDefinite(s, v);
    MasterMeans(s, v);
    hide MasterOf, Says;
    forall full: seq<Instance> ensures MasterOf(full) == v <==> Says(v, full) { MasterMeans(full, v); }
  }

  // ---- the merged picture ----

  /** An instance nobody gives a URI for has been expelled. */
  function Kept(x: Option<Instance>): Option<Instance> {
    if x.Some? && x.value.uri == "" then None else x
  }

  function Unexpelled(s: seq<Instance>): seq<Instance> {
    if s == [] then []
    else if s[|s| - 1].uri != "" then Unexpelled(s[..|s| - 1]) + [s[|s| - 1]]
    else Unexpelled(s[..|s| - 1])
  }

  lemma {:induction false} UnexpelledLook(s: seq<Instance>)
    requires Unique(s)
    ensures Unique(Unexpelled(s)) && forall x :: x in Unexpelled(s) ==> x in s
    ensures forall u :: Look(Unexpelled(s), u) == Kept(Look(s, u))
  {
    if s != [] {
      var init, x := s[..|s| - 1], s[|s| - 1];
      UnexpelledLook(init);
      var r := Unexpelled(init);
      forall i | 0 <= i < |r| ensures r[i].uuid != x.uuid { assert r[i] in init; }
      NoEarlier(s, |s| - 1);
      forall u: string ensures Look(Unexpelled(s), u) == Kept(Look(s, u)) {
        if x.uri != "" { assert Unexpelled(s)[..|r|] == r; }
      }
    }
  }

  ghost predicate Pictured(rs: Replicaset, ts: seq<Topology>) {
    && Unique(rs.instances)
    && (forall u :: Look(rs.instances, u) == Kept(View(ts, rs.uuid, u)))
    && Says(rs.master, rs.instances)
    && FirstView(ts, rs.uuid).Some?
    && var t := FirstView(ts, rs.uuid).value;
       rs.leader == t.leader && rs.alias == t.alias && rs.failover == ParseFailover(t.failover)
  }

  /** One replicaset for each that somebody reported, as the views together describe it. */
  ghost predicate Picture(rss: seq<Replicaset>, ts: seq<Topology>) {
    && (forall i, j :: 0 <= i < j < |rss| ==> rss[i].uuid != rss[j].uuid)
    && (forall i :: 0 <= i < |rss| ==> Pictured(rss[i], ts))
    && Covers(rss, ts)
  }

  /** `mergeCConfigTopologies` */
  method MergeTopologies(ts: seq<Topology>) returns (rss: seq<Replicaset>)
    ensures UniqueViews(ts) ==> Picture(rss, ts)
  {
    var all := CollectViews(ts);
    rss := [];
    for i := 0 to |all|
      invariant |rss| == i && forall j :: 0 <= j < i ==> rss[j].uuid == all[j].uuid
      invariant UniqueViews(ts) ==> forall j :: 0 <= j < i ==> Pictured(rss[j], ts)
    {
      var kept := ClearExpelled(all[i].instances);
      var master := RecalculateMaster(kept);
      if UniqueViews(ts) { UnexpelledLook(all[i].instances); }
      rss := rss + [all[i].(instances := kept, master := master)];
    }
    if UniqueViews(ts) { CoversSame(all, rss, ts); }
  }

  lemma CoversSame(all: seq<Replicaset>, rss: seq<Replicaset>, ts: seq<Topology>)
    requires Covers(all, ts) && |rss| == |all| && forall j :: 0 <= j < |all| ==> rss[j].uuid == all[j].uuid
    ensures Covers(rss, ts)
  {
    forall r | FirstView(ts, r).Some? ensures exists i :: 0 <= i < |rss| && rss[i].uuid == r {
      var i :| 0 <= i < |all| && all[i].uuid == r;
      assert rss[i].uuid == r;
    }
  }

  method ClearExpelled(s: seq<Instance>) returns (r: seq<Instance>)
    ensures r == Unexpelled(s)
  {
    r := [];
    for i := 0 to |s|
      invariant r == Unexpelled(s[..i])
    {
      assert s[..i + 1][..i] == s[..i];
      if s[i].uri != "" { r := r + [s[i]]; }
    }
    assert s[..|s|] == s;
  }

  // ---- what the views add up to ----

  /** Some view of replicaset `r` shows instance `u` as `o`. */
  ghost predicate Observed(ts: seq<Topology>, r: string, u: string, o: Instance) {
    exists j :: 0 <= j < |ts| && ts[j].uuid == r && Look(ts[j].instances, u) == Some(o)
  }

  /** Views never contradict each other: what two of them know is the same. */
  ghost predicate Consistent(ts: seq<Topology>) {
    && (forall i, j :: 0 <= i < |ts| && 0 <= j < |ts| && ts[i].uuid == ts[j].uuid ==>
          ts[i].leader == ts[j].leader && ts[i].alias == ts[j].alias && ts[i].failover == ts[j].failover)
    && (forall r, u, a, b :: Observed(ts, r, u, a) && Observed(ts, r, u, b) ==> Agree(a, b))
    && (forall r, u, a :: Observed(ts, r, u, a) && !a.found ==> a.ctx == 0)
  }

  predicate Agree(a: Instance, b: Instance) {
    && a.alias == b.alias
    && (a.uri != "" && b.uri != "" ==> a.uri == b.uri)
    && (!a.mode.ModeUnknown? && !b.mode.ModeUnknown? ==> a.mode == b.mode)
    && (a.found && b.found ==> a.ctx == b.ctx)
  }

  /** `x` knows exactly what the observations know together; no order is involved. */
  ghost predicate Sums(x: Option<Instance>, ts: seq<Topology>, r: string, u: string) {
    match x
    case None => forall o :: !Observed(ts, r, u, o)
    case Some(v) =>
      && v.uuid == u
      && (exists o :: Observed(ts, r, u, o) && v.alias == o.alias)
      && (forall o :: Observed(ts, r, u, o) ==> Knows(v, o))
      && (v.uri != "" ==> exists o :: Observed(ts, r, u, o) && o.uri == v.uri)
      && (!v.mode.ModeUnknown? ==> exists o :: Observed(ts, r, u, o) && o.mode == v.mode)
      && (v.found ==> exists o :: Observed(ts, r, u, o) && o.found && o.ctx == v.ctx)
      && (!v.found ==> v.ctx == 0)
  }

  predicate Knows(v: Instance, o: Instance) {
    && v.alias == o.alias
    && (o.uri != "" ==> v.uri == o.uri)
    && (!o.mode.ModeUnknown? ==> v.mode == o.mode)
    && (o.found ==> v.found && v.ctx == o.ctx)
  }

  lemma ObservedLast(ts: seq<Topology>, r: string, u: string, o: Instance)
    requires ts != []
    ensures
      var init, t := ts[..|ts| - 1], ts[|ts| - 1];
      Observed(ts, r, u, o) <==> Observed(init, r, u, o) || (t.uuid == r && Look(t.instances, u) == Some(o))
  {
    var init, t := ts[..|ts| - 1], ts[|ts| - 1];
    if j :| 0 <= j < |init| && init[j].uuid == r && Look(init[j].instances, u) == Some(o) {
      assert ts[j].uuid == r && Look(ts[j].instances, u) == Some(o);
    }
    if t.uuid == r && Look(t.instances, u) == Some(o) { assert ts[|ts| - 1].uuid == r; }
    if j :| 0 <= j < |ts| && ts[j].uuid == r && Look(ts[j].instances, u) == Some(o) {
      if j < |init| { assert init[j].uuid == r && Look(init[j].instances, u) == Some(o); }
    }
  }

  lemma ConsistentInit(ts: seq<Topology>)
    requires ts != [] && Consistent(ts)
    ensures Consistent(ts[..|ts| - 1])
  {
    var init := ts[..|ts| - 1];
    forall r, u, a, b | Observed(init, r, u, a) && Observed(init, r, u, b) ensures Agree(a, b) {
      ObservedLast(ts, r, u, a);
      ObservedLast(ts, r, u, b);
    }
    forall r, u, a | Observed(init, r, u, a) && !a.found ensures a.ctx == 0 {
      ObservedLast(ts, r, u, a);
    }
  }

  /** The merge of the views is their sum. */
  lemma {:induction false} ViewSums(ts: seq<Topology>, r: string, u: string)
    requires Consistent(ts)
    ensures Sums(View(ts, r, u), ts, r, u)
  {
    if ts != [] {
      var init, t := ts[..|ts| - 1], ts[|ts| - 1];
      ConsistentInit(ts);
      ViewSums(init, r, u);
      var newest := if t.uuid == r then Look(t.instances, u) else None;
      forall o ensures Observed(ts, r, u, o) <==> Observed(init, r, u, o) || newest == Some(o) {
        ObservedLast(ts, r, u, o);
      }
      SumStep(View(init, r, u), init, ts, r, u, newest);
    }
  }

  /** The observations of `ts` are those of `init` and, if there is one, the newest. */
  ghost predicate OneMore(init: seq<Topology>, ts: seq<Topology>, r: string, u: string, newest: Option<Instance>) {
    forall o :: Observed(ts, r, u, o) <==> Observed(init, r, u, o) || newest == Some(o)
  }

  lemma SumStep(before: Option<Instance>, init: seq<Topology>, ts: seq<Topology>, r: string, u: string,
                newest: Option<Instance>)
    requires Sums(before, init, r, u) && Consistent(ts) && OneMore(init, ts, r, u, newest)
    requires newest.Some? ==> newest.value.uuid == u
    ensures Sums(Combine(before, newest), ts, r, u)
  {
    if newest.None? {
      SumSame(before, init, ts, r, u);
    } else if before.None? {
      assert Observed(ts, r, u, newest.value);
    } else {
      SumFill(before.value, newest.value, init, ts, r, u);
    }
  }

  lemma SumSame(x: Option<Instance>, init: seq<Topology>, ts: seq<Topology>, r: string, u: string)
    requires Sums(x, init, r, u) && OneMore(init, ts, r, u, None)
    ensures Sums(x, ts, r, u)
  {
    assert forall o :: Observed(ts, r, u, o) <==> Observed(init, r, u, o);
  }

  lemma SumFill(x: Instance, o: Instance, init: seq<Topology>, ts: seq<Topology>, r: string, u: string)
    requires Sums(Some(x), init, r, u) && Consistent(ts) && OneMore(init, ts, r, u, Some(o)) && o.uuid == u
    ensures Sums(Some(Fill(x, o)), ts, r, u)
  {
    var v := Fill(x, o);
    KnowsNewest(x, o, init, ts, r, u);
    forall q | Observed(ts, r, u, q) ensures Knows(v, q) {
      if q != o { KnowsEarlier(x, o, q, init, ts, r, u); }
    }
    assert Observed(ts, r, u, o);
    FillSupported(x, o, init, ts, r, u);
  }

  lemma KnowsEarlier(x: Instance, o: Instance, q: Instance, init: seq<Topology>, ts: seq<Topology>,
                     r: string, u: string)
    requires Sums(Some(x), init, r, u) && Consistent(ts) && OneMore(init, ts, r, u, Some(o))
    requires Observed(init, r, u, q)
    ensures Knows(Fill(x, o), q)
  {
    assert Observed(ts, r, u, o) && Observed(ts, r, u, q) && Agree(o, q);
    assert Knows(x, q);
  }

  /** Whatever the filled value knows, some observation supports. */
  lemma FillSupported(x: Instance, o: Instance, init: seq<Topology>, ts: seq<Topology>, r: string, u: string)
    requires Sums(Some(x), init, r, u) && OneMore(init, ts, r, u, Some(o)) && Consistent(ts)
    ensures
      var v := Fill(x, o);
      && (exists a :: Observed(ts, r, u, a) && v.alias == a.alias)
      && (v.uri != "" ==> exists a :: Observed(ts, r, u, a) && a.uri == v.uri)
      && (!v.mode.ModeUnknown? ==> exists a :: Observed(ts, r, u, a) && a.mode == v.mode)
      && (v.found ==> exists a :: Observed(ts, r, u, a) && a.found && a.ctx == v.ctx)
      && (!v.found ==> v.ctx == 0)
  {
    assert Observed(ts, r, u, o);
    assert forall a :: Observed(init, r, u, a) ==> Observed(ts, r, u, a);
  }

  lemma KnowsNewest(x: Instance, o: Instance, init: seq<Topology>, ts: seq<Topology>, r: string, u: string)
    requires Sums(Some(x), init, r, u) && Consistent(ts) && OneMore(init, ts, r, u, Some(o))
    ensures Knows(Fill(x, o), o)
  {
    AgreesNewest(x, o, init, ts, r, u);
    hide Sums, Consistent, OneMore;
  }

  lemma AgreesNewest(x: Instance, o: Instance, init: seq<Topology>, ts: seq<Topology>, r: string, u: string)
    requires Sums(Some(x), init, r, u) && Consistent(ts) && OneMore(init, ts, r, u, Some(o))
    ensures Agree(x, o)
  {
    hide Observed;
    assert Observed(ts, r, u, o);
    var a :| Observed(init, r, u, a) && x.alias == a.alias;
    assert Observed(ts, r, u, a) && Agree(a, o);
    if x.uri != "" {
      var b :| Observed(init, r, u, b) && b.uri == x.uri;
      assert Observed(ts, r, u, b) && Agree(b, o);
    }
    if !x.mode.ModeUnknown? {
      var c :| Observed(init, r, u, c) && c.mode == x.mode;
      assert Observed(ts, r, u, c) && Agree(c, o);
    }
    if x.found {
      var d :| Observed(init, r, u, d) && d.found && d.ctx == x.ctx;
      assert Observed(ts, r, u, d) && Agree(d, o);
    }
  }

  /** The sum of the observations is one value. */
  lemma SumUnique(x: Option<Instance>, y: Option<Instance>, one: seq<Topology>, other: seq<Topology>,
                  r: string, u: string)
    requires Sums(x, one, r, u) && Sums(y, other, r, u)
    requires forall o :: Observed(one, r, u, o) <==> Observed(other, r, u, o)
    ensures x == y
  {
    if x.Some? && y.Some? {
      SumBelow(x.value, y.value, one, other, r, u);
      SumBelow(y.value, x.value, other, one, r, u);
    }
  }

  lemma SumBelow(v: Instance, w: Instance, one: seq<Topology>, other: seq<Topology>, r: string, u: string)
    requires Sums(Some(v), one, r, u) && Sums(Some(w), other, r, u)
    requires forall o :: Observed(one, r, u, o) <==> Observed(other, r, u, o)
    ensures Knows(w, v)
  {
    var o :| Observed(one, r, u, o) && v.alias == o.alias;
    assert Knows(w, o);
    if v.uri != "" {
      var a :| Observed(one, r, u, a) && a.uri == v.uri;
      assert Knows(w, a);
    }
    if !v.mode.ModeUnknown? {
      var b :| Observed(one, r, u, b) && b.mode == v.mode;
      assert Knows(w, b);
    }
    if v.found {
      var c :| Observed(one, r, u, c) && c.found && c.ctx == v.ctx;
      assert Knows(w, c);
    }
  }

  /** The order of the views does not matter. */
  lemma ViewOrderIrrelevant(one: seq<Topology>, other: seq<Topology>, r: string, u: string)
    requires Consistent(one) && Consistent(other)
    requires forall t :: t in one <==> t in other
    ensures View(one, r, u) == View(other, r, u)
  {
    ViewSums(one, r, u);
    ViewSums(other, r, u);
    forall o ensures Observed(one, r, u, o) <==> Observed(other, r, u, o) {
      SameObserved(one, other, r, u, o);
      SameObserved(other, one, r, u, o);
    }
    SumUnique(View(one, r, u), View(other, r, u), one, other, r, u);
  }

  lemma SameObserved(one: seq<Topology>, other: seq<Topology>, r: string, u: string, o: Instance)
    requires forall t :: t in one ==> t in other
    ensures Observed(one, r, u, o) ==> Observed(other, r, u, o)
  {
    if j :| 0 <= j < |one| && one[j].uuid == r && Look(one[j].instances, u) == Some(o) {
      assert one[j] in one;
      var k :| 0 <= k < |other| && other[k] == one[j];
    }
  }

  // ---- the picture as a whole ----

  lemma {:induction false} OnceEach(s: seq<Instance>, x: Instance)
    requires Unique(s)
    ensures multiset(s)[x] == if Look(s, x.uuid) == Some(x) then 1 else 0
  {
    if s != [] {
      var init, y := s[..|s| - 1], s[|s| - 1];
      OnceEach(init, x);
      NoEarlier(s, |s| - 1);
      assert s == init + [y];
    }
  }

  lemma SameLookPermutes(a: seq<Instance>, b: seq<Instance>)
    requires Unique(a) && Unique(b) && forall u :: Look(a, u) == Look(b, u)
    ensures multiset(a) == multiset(b)
  {
    forall x: Instance ensures multiset(a)[x] == multiset(b)[x] {
      OnceEach(a, x);
      OnceEach(b, x);
    }
  }

  lemma {:induction false} CountRemove(s: seq<Instance>, k: nat, m: Mode)
    requires k < |s|
    ensures Count(s, m) == Count(s[..k] + s[k + 1..], m) + if s[k].mode == m then 1 else 0
  {
    if k < |s| - 1 {
      CountRemove(s[..|s| - 1], k, m);
      var r := s[..k] + s[k + 1..];
      assert r[..|r| - 1] == s[..|s| - 1][..k] + s[..|s| - 1][k + 1..];
    } else {
      assert s[..k] + s[k + 1..] == s[..k];
    }
  }

  lemma {:induction false} CountPermutes(a: seq<Instance>, b: seq<Instance>, m: Mode)
    requires multiset(a) == multiset(b)
    ensures Count(a, m) == Count(b, m)
  {
    assert |multiset(a)| == |a| && |multiset(b)| == |b|;
    if a != [] {
      var init, x := a[..|a| - 1], a[|a| - 1];
      var k := FindLast(a, b);
      CountPermutes(init, b[..k] + b[k + 1..], m);
      CountRemove(b, k, m);
    }
  }

  lemma {:induction false} FirstViewIn(ts: seq<Topology>, r: string)
    requires FirstView(ts, r).Some?
    ensures FirstView(ts, r).value in ts && FirstView(ts, r).value.uuid == r
  {
    if ts[0].uuid != r { FirstViewIn(ts[1..], r); }
  }

  /** The labels of a replicaset are those of the first view that reports it. */
  lemma {:induction false} FirstViewIs(ts: seq<Topology>, r: string) returns (k: nat)
    requires FirstView(ts, r).Some?
    ensures k < |ts| && ts[k].uuid == r && FirstView(ts, r) == Some(ts[k])
    ensures forall j :: 0 <= j < k ==> ts[j].uuid != r
  {
    if ts[0].uuid == r {
      k := 0;
    } else {
      k := FirstViewIs(ts[1..], r);
      k := k + 1;
      assert forall j :: 0 < j < k ==> ts[j] == ts[1..][j - 1];
    }
  }

  /** What the views say about instance `u` of replicaset `r`, one after another. */
  function Sightings(ts: seq<Topology>, r: string, u: string): seq<Option<Instance>> {
    if ts == [] then []
    else
      var t := ts[|ts| - 1];
      Sightings(ts[..|ts| - 1], r, u) + [if t.uuid == r then Look(t.instances, u) else None]
  }

  function CombineAll(seen: seq<Option<Instance>>): Option<Instance> {
    if seen == [] then None else Combine(CombineAll(seen[..|seen| - 1]), seen[|seen| - 1])
  }

  lemma {:induction false} ViewCombines(ts: seq<Topology>, r: string, u: string)
    ensures View(ts, r, u) == CombineAll(Sightings(ts, r, u))
  {
    if ts != [] {
      ViewCombines(ts[..|ts| - 1], r, u);
      var seen := Sightings(ts, r, u);
      assert seen[..|seen| - 1] == Sightings(ts[..|ts| - 1], r, u);
    }
  }

  /** Sighting `j` is the first with a URI, and has this one. */
  predicate FirstUri(seen: seq<Option<Instance>>, j: nat, uri: string) {
    && j < |seen| && seen[j].Some? && seen[j].value.uri == uri != ""
    && forall k :: 0 <= k < j && seen[k].Some? ==> seen[k].value.uri == ""
  }

  predicate FirstMode(seen: seq<Option<Instance>>, j: nat, mode: Mode) {
    && j < |seen| && seen[j].Some? && seen[j].value.mode == mode && !mode.ModeUnknown?
    && forall k :: 0 <= k < j && seen[k].Some? ==> seen[k].value.mode.ModeUnknown?
  }

  predicate FirstContext(seen: seq<Option<Instance>>, j: nat, ctx: int) {
    && j < |seen| && seen[j].Some? && seen[j].value.found && seen[j].value.ctx == ctx
    && forall k :: 0 <= k < j && seen[k].Some? ==> !seen[k].value.found
  }

  /** Even when views contradict each other, the first URI stays. */
  lemma {:induction false} FirstUriStays(seen: seq<Option<Instance>>)
    ensures
      match CombineAll(seen)
      case None => forall k :: 0 <= k < |seen| ==> seen[k] == None
      case Some(v) =>
        if v.uri == "" then forall k :: 0 <= k < |seen| && seen[k].Some? ==> seen[k].value.uri == ""
        else exists j: nat :: FirstUri(seen, j, v.uri)
  {
    if seen != [] {
      var init, n := seen[..|seen| - 1], |seen| - 1;
      FirstUriStays(init);
      if CombineAll(init).Some? && CombineAll(init).value.uri != "" {
        var j: nat :| FirstUri(init, j, CombineAll(init).value.uri);
        assert FirstUri(seen, j, CombineAll(init).value.uri);
      } else if seen[n].Some? && seen[n].value.uri != "" {
        assert FirstUri(seen, n, seen[n].value.uri);
      }
    }
  }

  /** So does the first known mode. */
  lemma {:induction false} FirstModeStays(seen: seq<Option<Instance>>)
    ensures
      match CombineAll(seen)
      case None => forall k :: 0 <= k < |seen| ==> seen[k] == None
      case Some(v) =>
        if v.mode.ModeUnknown? then forall k :: 0 <= k < |seen| && seen[k].Some? ==> seen[k].value.mode.ModeUnknown?
        else exists j: nat :: FirstMode(seen, j, v.mode)
  {
    if seen != [] {
      var init, n := seen[..|seen| - 1], |seen| - 1;
      FirstModeStays(init);
      if CombineAll(init).Some? && !CombineAll(init).value.mode.ModeUnknown? {
        var j: nat :| FirstMode(init, j, CombineAll(init).value.mode);
        assert FirstMode(seen, j, CombineAll(init).value.mode);
      } else if seen[n].Some? && !seen[n].value.mode.ModeUnknown? {
        assert FirstMode(seen, n, seen[n].value.mode);
      }
    }
  }

  /** And the first context that was found. */
  lemma {:induction false} FirstContextStays(seen: seq<Option<Instance>>)
    ensures
      match CombineAll(seen)
      case None => forall k :: 0 <= k < |seen| ==> seen[k] == None
      case Some(v) =>
        if !v.found then forall k :: 0 <= k < |seen| && seen[k].Some? ==> !seen[k].value.found
        else exists j: nat :: FirstContext(seen, j, v.ctx)
  {
    if seen != [] {
      var init, n := seen[..|seen| - 1], |seen| - 1;
      FirstContextStays(init);
      if CombineAll(init).Some? && CombineAll(init).value.found {
        var j: nat :| FirstContext(init, j, CombineAll(init).value.ctx);
        assert FirstContext(seen, j, CombineAll(init).value.ctx);
      } else if seen[n].Some? && seen[n].value.found {
        assert FirstContext(seen, n, seen[n].value.ctx);
      }
    }
  }

  /** Whatever the order of the views, a replicaset comes out the same up to the order of its
      instances, verdict included. */
  lemma PictureOrderIrrelevant(a: Replicaset, b: Replicaset, one: seq<Topology>, other: seq<Topology>)
    requires Consistent(one) && Consistent(other) && forall t :: t in one <==> t in other
    requires Pictured(a, one) && Pictured(b, other) && a.uuid == b.uuid
    ensures multiset(a.instances) == multiset(b.instances)
    ensures a.master == b.master && a.leader == b.leader && a.alias == b.alias && a.failover == b.failover
  {
    forall u: string ensures Look(a.instances, u) == Look(b.instances, u) {
      ViewOrderIrrelevant(one, other, a.uuid, u);
    }
    SameLookPermutes(a.instances, b.instances);
    CountPermutes(a.instances, b.instances, ModeRW);
    CountPermutes(a.instances, b.instances, ModeUnknown);
    MasterMeans(a.instances, a.master);
    MasterMeans(b.instances, b.master);
    FirstViewIn(one, a.uuid);
    FirstViewIn(other, a.uuid);
    var t := FirstView(other, a.uuid).value;
    assert t in one;
  }

  /** The same replicaset, up to the order of its instances. */
  predicate SameUpToOrder(a: Replicaset, b: Replicaset) {
    && a.uuid == b.uuid && a.master == b.master
    && a.leader == b.leader && a.alias == b.alias && a.failover == b.failover
    && multiset(a.instances) == multiset(b.instances)
  }

  /** Whatever the order of the views, each replicaset of one result is in the other exactly once. */
  lemma MergeOrderIrrelevant(a: seq<Replicaset>, b: seq<Replicaset>, one: seq<Topology>, other: seq<Topology>, i: nat)
    requires Consistent(one) && Consistent(other) && forall t :: t in one <==> t in other
    requires Picture(a, one) && Picture(b, other) && i < |a|
    ensures exists j :: 0 <= j < |b| && SameUpToOrder(a[i], b[j])
    ensures forall j, k ::
      0 <= j < |b| && 0 <= k < |b| && SameUpToOrder(a[i], b[j]) && SameUpToOrder(a[i], b[k]) ==> j == k
  {
    var r := a[i].uuid;
    FirstViewIn(one, r);
    SomeFirstView(other, FirstView(one, r).value);
    var j :| 0 <= j < |b| && b[j].uuid == r;
    PictureOrderIrrelevant(a[i], b[j], one, other);
    assert SameUpToOrder(a[i], b[j]);
  }

  lemma {:induction false} SomeFirstView(ts: seq<Topology>, t: Topology)
    requires t in ts
    ensures FirstView(ts, t.uuid).Some?
  {
    if ts[0].uuid != t.uuid { SomeFirstView(ts[1..], t); }
  }

  /** An instance is in the picture exactly when some view gives it a URI, and its mode is known
      exactly when some view knows it. */
  lemma PictureComplete(rs: Replicaset, ts: seq<Topology>, u: string)
    requires Consistent(ts) && Pictured(rs, ts)
    ensures Look(rs.instances, u).Some? <==> exists o :: Observed(ts, rs.uuid, u, o) && o.uri != ""
    ensures Look(rs.instances, u).Some? ==>
      var v := Look(rs.instances, u).value;
      && (forall o :: Observed(ts, rs.uuid, u, o) && o.uri != "" ==> v.uri == o.uri)
      && (v.mode.ModeUnknown? <==> forall o :: Observed(ts, rs.uuid, u, o) ==> o.mode.ModeUnknown?)
      && (forall o :: Observed(ts, rs.uuid, u, o) && !o.mode.ModeUnknown? ==> v.mode == o.mode)
  {
    ViewSums(ts, rs.uuid, u);
    var x := View(ts, rs.uuid, u);
    if x.Some? {
      assert forall o :: Observed(ts, rs.uuid, u, o) ==> Knows(x.value, o);
    }
  }
}

/**
 Patching a configuration that is spread over several documents: choosing the document,
 writing the setting into it, and what the merged configuration is afterwards.
 */
module ConfigSource {
  import opened Options
  import opened ConfigTree
  import opened PriorityMerge
  import opened MergeLaws
  import opened ConfigContainer
  import opened Cluster
  import opened FailoverModes
  import opened Sequences

  datatype Doc = Doc(key: string, revision: int, config: Value)

  /** Go's `<` on strings. */
  predicate Less(a: string, b: string) {
    b != [] && (a == [] || a[0] < b[0] || (a[0] == b[0] && Less(a[1..], b[1..])))
  }

  lemma LessTotal(a: string, b: string)
    ensures a == b || Less(a, b) || Less(b, a)
    ensures !(Less(a, b) && Less(b, a)) && !Less(a, a)
  {
    if a != [] && b != [] && a[0] == b[0] {
      LessTotal(a[1..], b[1..]);
      if a[1..] == b[1..] { assert a == [a[0]] + a[1..] && b == [b[0]] + b[1..]; }
    }
  }

  lemma {:induction false} LessTransitive(a: string, b: string, c: string)
    requires Less(a, b) && Less(b, c)
    ensures Less(a, c)
  {
    if a != [] && a[0] == b[0] == c[0] { LessTransitive(a[1..], b[1..], c[1..]); }
  }

  /** The strings agree up to `n`, where the first ends or has the smaller character. */
  predicate DiffersAt(a: string, b: string, n: nat) {
    && n <= |a| && n < |b| && (forall i :: 0 <= i < n ==> a[i] == b[i])
    && (n == |a| || a[n] < b[n])
  }

  /** The order is that of the first difference. */
  lemma LessIs(a: string, b: string)
    ensures Less(a, b) <==> exists n: nat :: DiffersAt(a, b, n)
  {
    if Less(a, b) { var n := LessDiffers(a, b); }
    if n: nat :| DiffersAt(a, b, n) { DiffersLess(a, b, n); }
  }

  lemma {:induction false} LessDiffers(a: string, b: string) returns (n: nat)
    requires Less(a, b)
    ensures DiffersAt(a, b, n)
  {
    if a == [] || a[0] < b[0] {
      n := 0;
    } else {
      n := LessDiffers(a[1..], b[1..]);
      n := n + 1;
      assert forall i :: 0 < i < n ==> a[i] == a[1..][i - 1] && b[i] == b[1..][i - 1];
    }
  }

  lemma {:induction false} DiffersLess(a: string, b: string, n: nat)
    requires DiffersAt(a, b, n)
    ensures Less(a, b)
  {
    if n > 0 { DiffersLess(a[1..], b[1..], n - 1); }
  }

  // ---- how much of a path a document holds ----

  /** The length of the longest existing prefix of `p`, -1 when there is no document at all. */
  function Longest(v: Value, p: Path): int
    decreases p
  {
    if v.Null? then -1 else if p == [] then 0 else Longest(Child(v, p[0]), p[1..]) + 1
  }

  lemma {:induction false} LongestIs(v: Value, p: Path, i: nat)
    requires i <= |p|
    ensures At(v, p[..i]) != Null <==> i <= Longest(v, p)
    ensures -1 <= Longest(v, p) <= |p|
    decreases p
  {
    if i > 0 {
      assert p[..i][1..] == p[1..][..i - 1];
      LongestIs(Child(v, p[0]), p[1..], i - 1);
      if v.Null? { AtClosed(v, p[..i]); }
    } else if p != [] {
      LongestIs(Child(v, p[0]), p[1..], 0);
    }
  }

  /** A lookup error on the whole path shows up on it first, so a shorter prefix never has one
      that the whole path has not. */
  lemma {:induction false} ErrorsShowFirst(v: Value, p: Path, i: nat)
    requires i <= |p| && !Fetch(v, p).NotMap?
    ensures !Fetch(v, p[..i]).NotMap?
    decreases p
  {
    if i > 0 && v.Map? && p[0] in v.entries {
      assert p[..i][1..] == p[1..][..i - 1];
      ErrorsShowFirst(v.entries[p[0]], p[1..], i - 1);
    }
  }

  /** The way to `p[..i]` is there: maps that hold the next key, down to that key. */
  ghost predicate Reaches(v: Value, p: Path, i: nat)
    requires i <= |p|
  {
    forall j :: 0 <= j < i ==> At(v, p[..j]).Map? && p[j] in At(v, p[..j]).entries
  }

  /** A lookup fails exactly when some strict prefix is reached, key by key, and holds something
      other than a map there: a scalar, a list, a null, or no document at all. */
  lemma {:induction false} LookupFails(v: Value, p: Path)
    ensures Fetch(v, p).NotMap? <==> exists i :: 0 <= i < |p| && Reaches(v, p, i) && !At(v, p[..i]).Map?
    decreases p
  {
    if p != [] {
      assert p[..0] == [];
      if !v.Map? {
        assert Reaches(v, p, 0);
      } else if p[0] !in v.entries {
        forall i | 0 < i < |p| ensures !Reaches(v, p, i) { assert At(v, p[..0]) == v; }
      } else {
        LookupFails(v.entries[p[0]], p[1..]);
        forall i | 0 < i < |p|
          ensures Reaches(v, p, i) <==> Reaches(v.entries[p[0]], p[1..], i - 1)
          ensures At(v, p[..i]) == At(v.entries[p[0]], p[1..][..i - 1])
        {
          ReachesDeeper(v, p, i);
        }
        if i :| 0 <= i < |p[1..]| && Reaches(v.entries[p[0]], p[1..], i) && !At(v.entries[p[0]], p[1..][..i]).Map? {
          assert Reaches(v, p, i + 1) && !At(v, p[..i + 1]).Map?;
        }
      }
    }
  }

  /** What a failing lookup names: the prefix that is not a map, or the first key that is missing. */
  lemma {:induction false} ErrorNames(v: Value, p: Path)
    ensures
      match Fetch(v, p)
      case Found(x) => Reaches(v, p, |p|)
      case NotMap(d) => d < |p| && Reaches(v, p, d) && !At(v, p[..d]).Map?
      case Missing(d) =>
        if d <= |p| && Reaches(v, p, d) then d == |p| && At(v, p) == Null
        else 0 < d <= |p| && Reaches(v, p, d - 1) && At(v, p[..d - 1]).Map? && p[d - 1] !in At(v, p[..d - 1]).entries
    decreases p
  {
    if p != [] {
      assert p[..0] == [] && At(v, p[..0]) == v;
      if v.Map? && p[0] in v.entries {
        var c, t := v.entries[p[0]], p[1..];
        ErrorNames(c, t);
        forall i | 0 < i <= |p|
          ensures Reaches(v, p, i) <==> Reaches(c, t, i - 1)
          ensures At(v, p[..i]) == At(c, t[..i - 1])
        {
          ReachesDeeper(v, p, i);
        }
      }
    }
  }

  lemma ReachesDeeper(v: Value, p: Path, i: nat)
    requires 0 < i <= |p| && v.Map? && p[0] in v.entries
    ensures Reaches(v, p, i) <==> Reaches(v.entries[p[0]], p[1..], i - 1)
    ensures At(v, p[..i]) == At(v.entries[p[0]], p[1..][..i - 1])
  {
    var c := v.entries[p[0]];
    forall j | 0 < j <= i ensures At(v, p[..j]) == At(c, p[1..][..j - 1]) {
      assert p[..j][1..] == p[1..][..j - 1];
    }
    assert At(v, p[..0]) == v;
    if Reaches(v, p, i) {
      forall j | 0 <= j < i - 1 ensures At(c, p[1..][..j]).Map? && p[1..][j] in At(c, p[1..][..j]).entries {
        assert At(v, p[..j + 1]) == At(c, p[1..][..j]);
      }
    }
  }

  /** Without a lookup error, every strict prefix is open to a write. */
  lemma {:induction false} NoErrorOpens(v: Value, p: Path, i: nat)
    requires i < |p| && !Fetch(v, p).NotMap?
    ensures Opens(At(v, p[..i]))
    decreases p
  {
    if i > 0 {
      assert p[..i][1..] == p[1..][..i - 1];
      if p[0] in v.entries {
        NoErrorOpens(v.entries[p[0]], p[1..], i - 1);
      } else {
        AtClosed(Null, p[1..][..i - 1]);
      }
    }
  }

  datatype PathDepth = Depth(d: nat) | NoDepth | LookupError

  /** `getCConfigPathDepth`: the longest existing prefix, unless it is above the bound. */
  method GetPathDepth(config: Config, path: Path, lower: nat) returns (r: PathDepth)
    requires lower <= |path|
    ensures r.LookupError? <==> Fetch(config.paths, path).NotMap?
    ensures r.Depth? ==> r.d == Longest(config.paths, path) >= lower
    ensures r.NoDepth? ==> Longest(config.paths, path) < lower
  {
    var i: int := |path|;
    assert path[..|path|] == path;
    LongestIs(config.paths, path, 0);
    while i >= lower
      invariant -1 <= lower - 1 <= i <= |path|
      invariant Longest(config.paths, path) <= i
      invariant i < |path| ==> !Fetch(config.paths, path).NotMap?
    {
      var got := config.Get(path[..i]);
      LongestIs(config.paths, path, i);
      if i < |path| { ErrorsShowFirst(config.paths, path, i); }
      match got {
        case Missing(_) => i := i - 1;
        case NotMap(_) => return LookupError;
        case Found(_) => return Depth(i);
      }
    }
    r := NoDepth;
  }

  // ---- patch targets ----

  datatype Target = Target(key: string, revision: int, config: Value, priority: nat)

  /** `greater`: deeper first, then the smaller key. */
  predicate Greater(a: Target, b: Target) {
    if a.priority != b.priority then a.priority > b.priority else Less(a.key, b.key)
  }

  predicate Eligible(d: Doc, path: Path, lower: nat) {
    Longest(d.config, path) >= lower
  }

  function TargetOf(d: Doc, path: Path): Target
    requires Eligible(d, path, 0)
  {
    Target(d.key, d.revision, d.config, Longest(d.config, path))
  }

  /** The eligible documents, in the order they were collected. */
  function Candidates(docs: seq<Doc>, path: Path, lower: nat): seq<Target> {
    if docs == [] then []
    else
      var init := Candidates(docs[..|docs| - 1], path, lower);
      var d := docs[|docs| - 1];
      if Eligible(d, path, lower) then init + [TargetOf(d, path)] else init
  }

  predicate DistinctKeys(docs: seq<Doc>) {
    forall i, j :: 0 <= i < j < |docs| ==> docs[i].key != docs[j].key
  }

  ghost predicate Ordered(ts: seq<Target>) {
    forall i, j :: 0 <= i < j < |ts| ==> Greater(ts[i], ts[j])
  }

  /** No target is after one that it beats; what a sort guarantees even for repeated keys. */
  ghost predicate InOrder(ts: seq<Target>) {
    forall i, j :: 0 <= i < j < |ts| ==> !Greater(ts[j], ts[i])
  }

  ghost predicate TargetKeysDistinct(ts: seq<Target>) {
    forall i, j :: 0 <= i < j < |ts| ==> ts[i].key != ts[j].key
  }

  lemma GreaterTransitive(a: Target, b: Target, c: Target)
    requires Greater(a, b) && Greater(b, c)
    ensures Greater(a, c)
  {
    if a.priority == b.priority == c.priority { LessTransitive(a.key, b.key, c.key); }
  }

  lemma {:induction false} CandidatesAre(docs: seq<Doc>, path: Path, lower: nat)
    ensures forall t :: t in Candidates(docs, path, lower) ==>
      exists i :: 0 <= i < |docs| && Eligible(docs[i], path, lower) && t == TargetOf(docs[i], path)
    ensures forall i :: 0 <= i < |docs| && Eligible(docs[i], path, lower) ==>
      TargetOf(docs[i], path) in Candidates(docs, path, lower)
    ensures DistinctKeys(docs) ==> TargetKeysDistinct(Candidates(docs, path, lower))
  {
    if docs != [] {
      var init, d := docs[..|docs| - 1], docs[|docs| - 1];
      CandidatesAre(init, path, lower);
      var before := Candidates(init, path, lower);
      forall t | t in before
        ensures exists i :: 0 <= i < |docs| && Eligible(docs[i], path, lower) && t == TargetOf(docs[i], path)
        ensures DistinctKeys(docs) ==> t.key != d.key
      {
        var i :| 0 <= i < |init| && Eligible(init[i], path, lower) && t == TargetOf(init[i], path);
        assert docs[i] == init[i];
      }
      if DistinctKeys(docs) {
        forall i | 0 <= i < |before| ensures before[i].key != d.key { assert before[i] in before; }
      }
    }
  }

  /** Inserting a target where the order wants it; `sort.Slice` may be any sorting algorithm. */
  function Insert(t: Target, ts: seq<Target>): seq<Target> {
    if ts == [] then [t]
    else if Greater(t, ts[0]) then [t] + ts
    else [ts[0]] + Insert(t, ts[1..])
  }

  lemma {:induction false} InsertPermutes(t: Target, ts: seq<Target>)
    ensures multiset(Insert(t, ts)) == multiset(ts) + multiset{t}
  {
    hide Greater;
    if ts != [] {
      BagOfThree([ts[0]], ts[1..], []);
      assert ts == [ts[0]] + ts[1..] + [];
      InsertPermutes(t, ts[1..]);
      BagOfThree([ts[0]], Insert(t, ts[1..]), []);
      assert [ts[0]] + Insert(t, ts[1..]) == [ts[0]] + Insert(t, ts[1..]) + [];
    }
  }

  lemma {:induction false} InsertInOrder(t: Target, ts: seq<Target>)
    requires InOrder(ts)
    ensures InOrder(Insert(t, ts))
  {
    if ts == [] {
    } else if Greater(t, ts[0]) {
      LessTotal(ts[0].key, ts[0].key);
      forall j | 0 <= j < |ts| ensures !Greater(ts[j], t) { BeatsAll(t, ts[0], ts[j]); }
    } else {
      InsertInOrder(t, ts[1..]);
      InsertPermutes(t, ts[1..]);
      var rest := Insert(t, ts[1..]);
      forall j | 0 <= j < |rest| ensures !Greater(rest[j], ts[0]) {
        assert rest[j] in multiset(rest);
        assert rest[j] == t || rest[j] in ts[1..];
      }
    }
  }

  /** What beats the first of two targets in order is not beaten by the second. */
  lemma BeatsAll(t: Target, first: Target, second: Target)
    requires Greater(t, first) && !Greater(second, first)
    ensures !Greater(second, t)
  {
    if Greater(second, t) { GreaterTransitive(second, t, first); }
    LessTotal(t.key, first.key);
  }

  /** With distinct keys the order is strict. */
  lemma StrictOrder(ts: seq<Target>)
    requires InOrder(ts) && TargetKeysDistinct(ts)
    ensures Ordered(ts)
  {
    forall i, j | 0 <= i < j < |ts| ensures Greater(ts[i], ts[j]) { LessTotal(ts[i].key, ts[j].key); }
  }

  /** A duplicate-free collection has only one order. */
  lemma {:induction false} OrderUnique(a: seq<Target>, b: seq<Target>)
    requires Ordered(a) && Ordered(b) && multiset(a) == multiset(b)
    ensures a == b
  {
    assert |multiset(a)| == |a| && |multiset(b)| == |b|;
    if a != [] {
      SameFirst(a, b);
      assert a == [a[0]] + a[1..] && b == [b[0]] + b[1..];
      assert multiset(a[1..]) == multiset(a) - multiset{a[0]};
      assert multiset(b[1..]) == multiset(b) - multiset{b[0]};
      OrderUnique(a[1..], b[1..]);
    }
  }

  lemma SameFirst(a: seq<Target>, b: seq<Target>)
    requires Ordered(a) && Ordered(b) && multiset(a) == multiset(b) && a != [] && b != []
    ensures a[0] == b[0]
  {
    assert a[0] in multiset(a) && b[0] in multiset(b);
    assert a[0] in b && b[0] in a;
    LessTotal(a[0].key, b[0].key);
  }

  datatype Targets = Sorted(list: seq<Target>) | TargetsFailed

  /** The list is the eligible documents in order. */
  ghost predicate Lists(ts: seq<Target>, docs: seq<Doc>, path: Path, lower: nat) {
    InOrder(ts) && multiset(ts) == multiset(Candidates(docs, path, lower))
  }

  /** `getCConfigPatchTargets` */
  method GetPatchTargets(docs: seq<Doc>, path: Path, lower: nat) returns (r: Targets)
    requires lower <= |path|
    ensures r.TargetsFailed? <==> !NoLookupError(docs, path)
    ensures r.Sorted? ==> Lists(r.list, docs, path, lower)
    ensures r.Sorted? && DistinctKeys(docs) ==> Ordered(r.list)
  {
    hide Lists, Ordered, Longest, Fetch, Insert;
    var targets: seq<Target> := [];
    ListsNothing(docs, path, lower);
    for n := 0 to |docs|
      invariant Lists(targets, docs[..n], path, lower)
      invariant forall i :: 0 <= i < n ==> !Fetch(docs[i].config, path).NotMap?
    {
      var depth := DepthIn(docs[n].config, path, lower);
      if depth.LookupError? { return TargetsFailed; }
      ListsNext(targets, docs, n, path, lower);
      if depth.Depth? {
        targets := Insert(Target(docs[n].key, docs[n].revision, docs[n].config, depth.d), targets);
      }
    }
    assert docs[..|docs|] == docs;
    if DistinctKeys(docs) { TargetsStrict(docs, path, lower, targets); }
    r := Sorted(targets);
  }

  /** The depth of the path in one document. */
  method DepthIn(doc: Value, path: Path, lower: nat) returns (r: PathDepth)
    requires lower <= |path|
    ensures r.LookupError? <==> Fetch(doc, path).NotMap?
    ensures r.Depth? ==> r.d == Longest(doc, path) >= lower
    ensures r.NoDepth? ==> Longest(doc, path) < lower
  {
    var config := new Config();
    config.paths := doc;
    r := GetPathDepth(config, path, lower);
  }

  lemma ListsNothing(docs: seq<Doc>, path: Path, lower: nat)
    ensures Lists([], docs[..0], path, lower)
  {
  }

  /** One more document: its target is inserted, or it is not eligible. */
  lemma ListsNext(ts: seq<Target>, docs: seq<Doc>, n: nat, path: Path, lower: nat)
    requires n < |docs| && Lists(ts, docs[..n], path, lower)
    ensures !Eligible(docs[n], path, lower) ==> Lists(ts, docs[..n + 1], path, lower)
    ensures Eligible(docs[n], path, lower) ==> Lists(Insert(TargetOf(docs[n], path), ts), docs[..n + 1], path, lower)
  {
    hide InOrder;
    TakeFront(docs, n);
    if Eligible(docs[n], path, lower) {
      InsertInOrder(TargetOf(docs[n], path), ts);
      InsertPermutes(TargetOf(docs[n], path), ts);
    }
  }

  ghost predicate NoLookupError(docs: seq<Doc>, path: Path) {
    forall i :: 0 <= i < |docs| ==> !Fetch(docs[i].config, path).NotMap?
  }

  lemma TargetsStrict(docs: seq<Doc>, path: Path, lower: nat, ts: seq<Target>)
    requires DistinctKeys(docs) && Lists(ts, docs, path, lower)
    ensures Ordered(ts)
  {
    CandidatesAre(docs, path, lower);
    DistinctPermutes(Candidates(docs, path, lower), ts);
    StrictOrder(ts);
  }

  lemma DistinctPermutes(a: seq<Target>, b: seq<Target>)
    requires TargetKeysDistinct(a) && multiset(a) == multiset(b)
    ensures TargetKeysDistinct(b)
  {
    forall i, j | 0 <= i < j < |b| ensures b[i].key != b[j].key {
      assert b[i] in multiset(b) && b[j] in multiset(b);
      var k, l :| 0 <= k < |a| && 0 <= l < |a| && a[k] == b[i] && a[l] == b[j];
      if k == l {
        TwiceInBag(b, i, j);
        OnceInBag(a, k);
      }
    }
  }

  lemma TwiceInBag(b: seq<Target>, i: nat, j: nat)
    requires i < j < |b| && b[i] == b[j]
    ensures multiset(b)[b[i]] >= 2
  {
    assert b == b[..j] + [b[j]] + b[j + 1..];
    assert b[i] in b[..j];
  }

  lemma OnceInBag(a: seq<Target>, k: nat)
    requires TargetKeysDistinct(a) && k < |a|
    ensures multiset(a)[a[k]] == 1
  {
    assert a == a[..k] + [a[k]] + a[k + 1..];
    assert a[k] !in a[..k] && a[k] !in a[k + 1..];
  }

  // ---- the order of collection ----

  lemma {:induction false} CandidatesConcat(a: seq<Doc>, b: seq<Doc>, path: Path, lower: nat)
    ensures Candidates(a + b, path, lower) == Candidates(a, path, lower) + Candidates(b, path, lower)
  {
    if b == [] {
      assert a + b == a;
    } else {
      var init := b[..|b| - 1];
      assert (a + b)[..|a + b| - 1] == a + init;
      CandidatesConcat(a, init, path, lower);
    }
  }

  /** Permuted documents have permuted candidates. */
  lemma {:induction false} CandidatesPermute(a: seq<Doc>, b: seq<Doc>, path: Path, lower: nat)
    requires multiset(a) == multiset(b)
    ensures multiset(Candidates(a, path, lower)) == multiset(Candidates(b, path, lower))
  {
    assert |multiset(a)| == |a| && |multiset(b)| == |b|;
    if a != [] {
      hide Candidates;
      var k := FindLast(a, b);
      CandidatesPermute(a[..|a| - 1], b[..k] + b[k + 1..], path, lower);
      CandidatesAround(a, |a| - 1, path, lower);
      CandidatesAround(b, k, path, lower);
      assert a[..|a| - 1] + a[|a|..] == a[..|a| - 1];
    }
  }

  lemma CandidatesAround(docs: seq<Doc>, k: nat, path: Path, lower: nat)
    requires k < |docs|
    ensures multiset(Candidates(docs, path, lower)) ==
            multiset(Candidates(docs[..k] + docs[k + 1..], path, lower)) + multiset(Candidates([docs[k]], path, lower))
  {
    hide Candidates;
    assert docs == docs[..k] + ([docs[k]] + docs[k + 1..]);
    CandidatesConcat(docs[..k], [docs[k]] + docs[k + 1..], path, lower);
    CandidatesConcat([docs[k]], docs[k + 1..], path, lower);
    CandidatesConcat(docs[..k], docs[k + 1..], path, lower);
  }

  /** The list of targets does not depend on the order in which the documents were collected. */
  lemma CollectionOrderIrrelevant(a: seq<Doc>, b: seq<Doc>, path: Path, lower: nat,
                                  one: seq<Target>, other: seq<Target>)
    requires multiset(a) == multiset(b) && DistinctKeys(a)
    requires Lists(one, a, path, lower) && Lists(other, b, path, lower)
    ensures one == other
    ensures NoLookupError(a, path) <==> NoLookupError(b, path)
  {
    CandidatesPermute(a, b, path, lower);
    TargetsStrict(a, path, lower, one);
    TargetsStrict(a, path, lower, other);
    OrderUnique(one, other);
    SameErrors(a, b, path);
    SameErrors(b, a, path);
  }

  lemma SameErrors(a: seq<Doc>, b: seq<Doc>, path: Path)
    requires multiset(a) == multiset(b)
    ensures NoLookupError(a, path) ==> NoLookupError(b, path)
  {
    forall i | 0 <= i < |b| && NoLookupError(a, path) ensures !Fetch(b[i].config, path).NotMap? {
      assert b[i] in multiset(b);
      assert b[i] in a;
    }
  }

  /** One empty document is enough: the search for targets fails although another document is
      eligible. */
  lemma EmptyDocumentFails()
    ensures
      var path: Path := ["a"];
      var docs := [Doc("x", 0, Null), Doc("y", 0, Map(map["a" := Atom(Num(1))]))];
      Eligible(docs[1], path, 1) && !NoLookupError(docs, path) && NoLookupError(docs[1..], path)
  {
    var path: Path := ["a"];
    var one := Map(map["a" := Atom(Num(1))]);
    var docs := [Doc("x", 0, Null), Doc("y", 0, one)];
    assert path[1..] == [];
    assert Longest(Atom(Num(1)), []) == 0;
    assert Fetch(docs[0].config, path) == NotMap(0);
    assert Fetch(one, path) == Fetch(Atom(Num(1)), []).Deeper();
  }

  // ---- the effect of a patch ----

  function Configs(docs: seq<Doc>): seq<Value> {
    seq(|docs|, i requires 0 <= i < |docs| => docs[i].config)
  }

  /** The configuration the documents merge into. */
  function Merged(docs: seq<Doc>): Value {
    MergeAll(Configs(docs))
  }

  predicate Ascending(docs: seq<Doc>) {
    forall i, j :: 0 <= i < j < |docs| ==> Less(docs[i].key, docs[j].key)
  }

  /** Document `t` heads the list of targets. */
  ghost predicate FirstTarget(docs: seq<Doc>, path: Path, lower: nat, t: nat) {
    && t < |docs| && Eligible(docs[t], path, lower)
    && forall u :: 0 <= u < |docs| && u != t && Eligible(docs[u], path, lower) ==>
         Greater(TargetOf(docs[t], path), TargetOf(docs[u], path))
  }

  /** Every target stands for a document, and the head of the list for the first target. */
  lemma TargetIsDoc(docs: seq<Doc>, path: Path, lower: nat, ts: seq<Target>, k: nat) returns (t: nat)
    requires Ordered(ts) && Lists(ts, docs, path, lower) && k < |ts|
    ensures t < |docs| && Eligible(docs[t], path, lower) && ts[k] == TargetOf(docs[t], path)
    ensures k == 0 && DistinctKeys(docs) ==> FirstTarget(docs, path, lower, t)
  {
    CandidatesAre(docs, path, lower);
    assert ts[k] in multiset(ts);
    assert ts[k] in Candidates(docs, path, lower);
    t :| 0 <= t < |docs| && Eligible(docs[t], path, lower) && ts[k] == TargetOf(docs[t], path);
    if k == 0 && DistinctKeys(docs) {
      forall u | 0 <= u < |docs| && u != t && Eligible(docs[u], path, lower)
        ensures Greater(TargetOf(docs[t], path), TargetOf(docs[u], path))
      {
        var x := TargetOf(docs[u], path);
        assert x in multiset(Candidates(docs, path, lower));
        assert x in ts;
        var j :| 0 <= j < |ts| && ts[j] == x;
        assert j != 0;
      }
    }
  }

  /** The document has no prefix of the path that the other lacks. */
  ghost predicate NoDeeper(u: Doc, t: Doc, path: Path) {
    forall i :: 0 <= i <= |path| && At(u.config, path[..i]) != Null ==> At(t.config, path[..i]) != Null
  }

  lemma NoDeeperIs(u: Doc, t: Doc, path: Path)
    ensures NoDeeper(u, t, path) <==> Longest(u.config, path) <= Longest(t.config, path)
  {
    forall i | 0 <= i <= |path|
      ensures At(u.config, path[..i]) != Null <==> i <= Longest(u.config, path)
      ensures At(t.config, path[..i]) != Null <==> i <= Longest(t.config, path)
    {
      LongestIs(u.config, path, i);
      LongestIs(t.config, path, i);
    }
    LongestIs(u.config, path, 0);
    LongestIs(t.config, path, 0);
    var n := Longest(u.config, path);
    if n >= 0 { assert NoDeeper(u, t, path) ==> At(t.config, path[..n]) != Null; }
  }

  /** The first target, by the documents alone: it has the required part of the path, no document
      with that part holds more of the path, and of those that hold as much it has the least key. */
  lemma FirstTargetIs(docs: seq<Doc>, path: Path, lower: nat, t: nat)
    requires lower <= |path| && t < |docs|
    ensures FirstTarget(docs, path, lower, t) <==>
      && At(docs[t].config, path[..lower]) != Null
      && forall u :: 0 <= u < |docs| && u != t && At(docs[u].config, path[..lower]) != Null ==>
           NoDeeper(docs[u], docs[t], path) && (NoDeeper(docs[t], docs[u], path) ==> Less(docs[t].key, docs[u].key))
  {
    forall u | 0 <= u < |docs|
      ensures At(docs[u].config, path[..lower]) != Null <==> Eligible(docs[u], path, lower)
      ensures NoDeeper(docs[u], docs[t], path) <==> Longest(docs[u].config, path) <= Longest(docs[t].config, path)
      ensures NoDeeper(docs[t], docs[u], path) <==> Longest(docs[t].config, path) <= Longest(docs[u].config, path)
    {
      LongestIs(docs[u].config, path, lower);
      NoDeeperIs(docs[u], docs[t], path);
      NoDeeperIs(docs[t], docs[u], path);
    }
  }

  /** In ascending key order, no document before the first target holds the full path. */
  lemma NothingBefore(docs: seq<Doc>, path: Path, lower: nat, t: nat, i: nat)
    requires Ascending(docs) && FirstTarget(docs, path, lower, t) && i < t && lower <= |path|
    ensures At(docs[i].config, path) == Null
  {
    assert path[..|path|] == path;
    LongestIs(docs[i].config, path, |path|);
    LongestIs(docs[t].config, path, |path|);
    LessTotal(docs[i].key, docs[t].key);
  }

  function Patched(docs: seq<Doc>, t: nat, tree: Value): seq<Doc>
    requires t < |docs|
  {
    docs[t := docs[t].(config := tree)]
  }

  /** Two merges that differ in one patched document, before and after it is merged in. */
  ghost predicate Apart(before: Value, after: Value, path: Path) {
    && (forall q :: !Comparable(path, q) ==> At(before, q) == At(after, q))
    && (forall q :: q < path ==> Opens(At(before, q)) && Opens(At(after, q)))
  }

  lemma ApartUnblocked(before: Value, after: Value, path: Path, q: Path)
    requires Apart(before, after, path) && !(path < q)
    ensures Unblocked(before, q) <==> Unblocked(after, q)
    ensures q <= path ==> Unblocked(before, q)
  {
    forall i | 0 <= i < |q| ensures Opens(At(before, q[..i])) <==> Opens(At(after, q[..i]))
      ensures q <= path ==> Opens(At(before, q[..i]))
    {
      assert q[..i] == path ==> path < q;
      assert path <= q[..i] ==> path <= q;
    }
  }

  /** Merging lower documents under both keeps them apart only at the path. */
  lemma ApartMerge(before: Value, after: Value, low: Value, low': Value, path: Path)
    requires Apart(before, after, path) && Apart(low, low', path)
    ensures Apart(Merge(before, low), Merge(after, low'), path)
  {
    hide Merge, At;
    forall q: Path
      ensures !Comparable(path, q) ==> At(Merge(before, low), q) == At(Merge(after, low'), q)
      ensures q < path ==> Opens(At(Merge(before, low), q)) && Opens(At(Merge(after, low'), q))
    {
      if !(path <= q) { ApartMergeAt(before, after, low, low', path, q); }
    }
  }

  lemma ApartMergeAt(before: Value, after: Value, low: Value, low': Value, path: Path, q: Path)
    requires Apart(before, after, path) && Apart(low, low', path) && !(path <= q)
    ensures !Comparable(path, q) ==> At(Merge(before, low), q) == At(Merge(after, low'), q)
    ensures q < path ==> Opens(At(Merge(before, low), q)) && Opens(At(Merge(after, low'), q))
  {
    hide At, Unblocked;
    MergeAtPath(before, low, q);
    MergeAtPath(after, low', q);
    ApartUnblocked(before, after, path, q);
  }

  lemma DocApart(v: Value, path: Path)
    requires !Fetch(v, path).NotMap?
    ensures Apart(v, v, path)
  {
    forall q | q < path ensures Opens(At(v, q)) {
      NoErrorOpens(v, path, |q|);
      assert path[..|q|] == q;
    }
  }

  lemma WriteApart(v: Value, path: Path, x: Value)
    requires !Fetch(v, path).NotMap? && Write(v, path, x).Tree?
    ensures Apart(v, Write(v, path, x).tree, path)
  {
    DocApart(v, path);
    forall q: Path
      ensures !Comparable(path, q) ==> At(v, q) == At(Write(v, path, x).tree, q)
      ensures q < path ==> Opens(At(Write(v, path, x).tree, q))
    {
      WriteFrame(v, path, x, q);
    }
  }

  /** Where no lookup fails, the write cannot fail either. */
  lemma NoErrorWrites(v: Value, path: Path, x: Value)
    requires !Fetch(v, path).NotMap?
    ensures Write(v, path, x).Tree?
  {
    WriteSucceeds(v, path, x);
    forall i | 0 <= i < |path| ensures Opens(At(v, path[..i])) { NoErrorOpens(v, path, i); }
  }

  /** The setting was written into document `t`; no lookup in any document failed before. */
  ghost predicate PatchOf(docs: seq<Doc>, docs': seq<Doc>, path: Path, x: Value, t: nat) {
    && t < |docs| && NoLookupError(docs, path)
    && Write(docs[t].config, path, x).Tree?
    && docs' == Patched(docs, t, Write(docs[t].config, path, x).tree)
  }

  /** What the documents merged before document `t` hold at the path. */
  function Ahead(docs: seq<Doc>, path: Path, t: nat): Value
    requires t <= |docs|
  {
    At(MergeAll(Configs(docs)[..t]), path)
  }

  /** No earlier document holds anything else at the path. */
  predicate Unshadowed(docs: seq<Doc>, path: Path, x: Value, t: nat)
    requires t <= |docs|
  {
    Ahead(docs, path, t) == Null || Ahead(docs, path, t) == x
  }

  lemma {:induction false} PatchApart(docs: seq<Doc>, docs': seq<Doc>, path: Path, x: Value, t: nat, n: nat)
    requires PatchOf(docs, docs', path, x, t) && n <= |docs|
    ensures Apart(MergeAll(Configs(docs)[..n]), MergeAll(Configs(docs')[..n]), path)
  {
    var c, c' := Configs(docs), Configs(docs');
    if n == 0 {
      forall q: Path ensures At(Null, q) == Null { AtClosed(Null, q); }
    } else {
      hide Apart, MergeAll, Merge, Fetch, Write;
      PatchApart(docs, docs', path, x, t, n - 1);
      MergeAllNext(c, n - 1);
      MergeAllNext(c', n - 1);
      if n - 1 == t { WriteApart(docs[t].config, path, x); } else { DocApart(docs[n - 1].config, path); }
      ApartMerge(MergeAll(c[..n - 1]), MergeAll(c'[..n - 1]), c[n - 1], c'[n - 1], path);
    }
  }

  /** Merging the next document acts at the path alone. */
  lemma NextAtPath(docs: seq<Doc>, docs': seq<Doc>, path: Path, x: Value, t: nat, n: nat)
    requires PatchOf(docs, docs', path, x, t) && n < |docs|
    ensures Ahead(docs', path, n + 1) == Merge(Ahead(docs', path, n), At(docs'[n].config, path))
    ensures Ahead(docs, path, n + 1) == Merge(Ahead(docs, path, n), At(docs[n].config, path))
  {
    var c, c' := Configs(docs), Configs(docs');
    MergeAllNext(c, n);
    MergeAllNext(c', n);
    PatchApart(docs, docs', path, x, t, n);
    ApartUnblocked(MergeAll(c[..n]), MergeAll(c'[..n]), path, path);
    MergeAtPath(MergeAll(c[..n]), c[n], path);
    MergeAtPath(MergeAll(c'[..n]), c'[n], path);
  }

  /** A leaf merged under a value shows exactly when there is nothing, or the same leaf. */
  lemma LeafUnderValue(high: Value, x: Value)
    requires LeafValue(x)
    ensures Merge(high, x) != Null
    ensures Merge(high, x) == x <==> high == Null || high == x
    ensures Merge(high, x).Map? <==> high.Map? || (high.Null? && x.Map?)
  {
    if high.Map? && x.Map? { EmptyMerge(high, x); }
    if high.Null? { NullFreeMerge(Null, x); }
  }

  /** The document `t` itself puts the leaf under what was merged before. */
  lemma LandsAtTarget(docs: seq<Doc>, docs': seq<Doc>, path: Path, x: Value, t: nat)
    requires PatchOf(docs, docs', path, x, t)
    ensures Ahead(docs', path, t + 1) == Merge(Ahead(docs, path, t), x)
  {
    NextAtPath(docs, docs', path, x, t, t);
    assert Configs(docs')[..t] == Configs(docs)[..t];
    WriteFrame(docs[t].config, path, x, path);
  }

  /** A written scalar or list is in effect, from its document on, exactly when no earlier
      document holds anything else there. */
  lemma {:induction false} PatchLands(docs: seq<Doc>, docs': seq<Doc>, path: Path, x: Value, t: nat, n: nat)
    requires PatchOf(docs, docs', path, x, t) && t < n <= |docs| && LeafValue(x)
    ensures Ahead(docs', path, n) != Null
    ensures !x.Map? ==> (Ahead(docs', path, n) == x <==> Unshadowed(docs, path, x, t))
  {
    hide Ahead;
    if n - 1 == t {
      LandsAtTarget(docs, docs', path, x, t);
      LeafUnderValue(Ahead(docs, path, t), x);
    } else {
      PatchLands(docs, docs', path, x, t, n - 1);
      NextAtPath(docs, docs', path, x, t, n - 1);
      KeptUnder(Ahead(docs', path, n - 1), At(docs[n - 1].config, path), x);
    }
  }

  /** What is there stays, so a later value neither brings nor takes away a scalar or list. */
  lemma KeptUnder(high: Value, low: Value, x: Value)
    requires high != Null
    ensures Merge(high, low) != Null
    ensures !Opens(x) ==> (Merge(high, low) == x <==> high == x)
  {
    MergeKeepsHigh(high, low, []);
  }

  /** A written empty map is in effect exactly when no earlier document holds anything else and
      no later one brings entries. */
  lemma {:induction false} EmptyMapLands(docs: seq<Doc>, docs': seq<Doc>, path: Path, x: Value, t: nat, n: nat)
    requires PatchOf(docs, docs', path, x, t) && t < n <= |docs| && LeafValue(x) && x.Map?
    ensures Ahead(docs', path, n).Map? <==> Opens(Ahead(docs, path, t))
    ensures !Opens(Ahead(docs, path, t)) ==> Ahead(docs', path, n) == Ahead(docs, path, t)
    ensures Ahead(docs', path, n) == x <==>
            Unshadowed(docs, path, x, t) && forall i :: t < i < n ==> !AddsEntries(At(docs[i].config, path))
  {
    hide Ahead, AddsEntries, Merge;
    if n - 1 == t {
      LandsAtTarget(docs, docs', path, x, t);
      LeafUnderValue(Ahead(docs, path, t), x);
      if !Opens(Ahead(docs, path, t)) { MergeKeepsHigh(Ahead(docs, path, t), x, []); }
    } else {
      EmptyMapLands(docs, docs', path, x, t, n - 1);
      NextAtPath(docs, docs', path, x, t, n - 1);
      var high, low := Ahead(docs', path, n - 1), At(docs[n - 1].config, path);
      if high.Map? { EmptyMerge(high, low); } else { StaysClosed(docs, docs', path, x, t, n - 1, low); }
    }
  }

  lemma StaysClosed(docs: seq<Doc>, docs': seq<Doc>, path: Path, x: Value, t: nat, n: nat, low: Value)
    requires PatchOf(docs, docs', path, x, t) && t < n <= |docs| && LeafValue(x) && !Ahead(docs', path, n).Map?
    ensures Merge(Ahead(docs', path, n), low) == Ahead(docs', path, n)
  {
    PatchLands(docs, docs', path, x, t, n);
  }

  /** A map that brings entries of its own. */
  predicate AddsEntries(v: Value) {
    v.Map? && v.entries != map[] && HasLeaf(v)
  }

  lemma EmptyMerge(m: Value, low: Value)
    requires m.Map?
    ensures Merge(m, low).Map?
    ensures Merge(m, low) == Map(map[]) <==> m == Map(map[]) && !AddsEntries(low)
  {
    if low.Map? && HasLeaf(low) {
      if m.entries != map[] {
        var k :| k in m.entries;
        MergeAtKey(m, low, k);
      }
      if low.entries != map[] {
        var k :| k in low.entries && HasLeaf(low.entries[k]);
        MergeAtKey(m, low, k);
      }
    }
  }

  lemma AheadOfAll(docs: seq<Doc>, path: Path)
    ensures Ahead(docs, path, |docs|) == At(Merged(docs), path)
  {
    assert Configs(docs)[..|docs|] == Configs(docs);
  }

  /** The effect of a patch on the merged configuration, in whatever order the documents come:
      exactly when the setting takes effect, and that nothing moves that is not on or below
      its path. */
  lemma PatchEffect(docs: seq<Doc>, docs': seq<Doc>, path: Path, x: Value, t: nat)
    requires PatchOf(docs, docs', path, x, t) && LeafValue(x)
    ensures At(Merged(docs'), path) != Null
    ensures !x.Map? ==> (At(Merged(docs'), path) == x <==> Unshadowed(docs, path, x, t))
    ensures x.Map? ==>
      (At(Merged(docs'), path) == x <==>
         Unshadowed(docs, path, x, t) && forall i :: t < i < |docs| ==> !AddsEntries(At(docs[i].config, path)))
    ensures forall q :: !Comparable(path, q) ==> At(Merged(docs'), q) == At(Merged(docs), q)
    ensures forall q :: q < path ==> Opens(At(Merged(docs), q)) && At(Merged(docs'), q).Map?
    ensures NullFree(Merged(docs)) && NullFree(Merged(docs'))
  {
    var n := |docs|;
    assert Configs(docs)[..n] == Configs(docs) && Configs(docs')[..n] == Configs(docs');
    PatchApart(docs, docs', path, x, t, n);
    PatchLands(docs, docs', path, x, t, n);
    AheadOfAll(docs', path);
    if x.Map? { EmptyMapLands(docs, docs', path, x, t, n); }
    MergeAllNullFree(Configs(docs));
    MergeAllNullFree(Configs(docs'));
    forall q | q < path ensures At(Merged(docs'), q).Map? {
      PrefixesExist(Merged(docs'), path, |q|);
      assert path[..|q|] == q;
    }
  }

  /** Documents in ascending key order: nothing is ahead of the first target, so its patch lands. */
  lemma {:induction false} NothingAhead(docs: seq<Doc>, path: Path, lower: nat, t: nat, n: nat)
    requires Ascending(docs) && FirstTarget(docs, path, lower, t) && lower <= |path| && n <= t
    ensures Ahead(docs, path, n) == Null
  {
    if n == 0 {
      AtClosed(Null, path);
    } else {
      NothingAhead(docs, path, lower, t, n - 1);
      NothingBefore(docs, path, lower, t, n - 1);
      var c := Configs(docs);
      MergeAllNext(c, n - 1);
      MergeAtPath(MergeAll(c[..n - 1]), c[n - 1], path);
    }
  }

  /** Ascending order matters: with the documents in another order a document ahead of the first
      target can hold another value, and the patch does not take effect. */
  lemma KeyOrderMatters()
    ensures
      var path: Path := ["a"];
      var one, two := Map(map["a" := Atom(Num(1))]), Map(map["a" := Atom(Num(2))]);
      var docs := [Doc("z", 0, one), Doc("b", 0, one)];
      && FirstTarget(docs, path, 1, 1) && PatchOf(docs, Patched(docs, 1, two), path, Atom(Num(2)), 1)
      && !Unshadowed(docs, path, Atom(Num(2)), 1)
      && At(Merged(Patched(docs, 1, two)), path) == Atom(Num(1))
  {
    var path: Path := ["a"];
    var one, two := Map(map["a" := Atom(Num(1))]), Map(map["a" := Atom(Num(2))]);
    var docs := [Doc("z", 0, one), Doc("b", 0, one)];
    assert path[1..] == [];
    assert Longest(Atom(Num(1)), []) == 0;
    assert Longest(one, path) == 1;
    assert Less("b", "z");
    WriteStep(one, "a", [], Atom(Num(2)));
    assert path == ["a"] + [];
    assert one.entries["a" := Atom(Num(2))] == two.entries;
    assert Fetch(one, path) == Fetch(Atom(Num(1)), []).Deeper();
    var docs' := Patched(docs, 1, two);
    var c := Configs(docs);
    assert c == [one, one] && c[..1] == [one];
    assert MergeAll([one]) == Merge(Null, one) by { assert [one][..0] == []; }
    NullFreeMerge(Null, one);
    var c' := Configs(docs');
    assert c' == [one, two] && c'[..1] == [one];
    MergeKeepsHigh(one, two, path);
  }

  lemma {:induction false} MergedFrom(sources: seq<Value>, p: Path)
    requires forall i :: 0 <= i < |sources| ==> At(sources[i], p) == Null
    ensures At(MergeAll(sources), p) == Null
  {
    if sources == [] {
      AtClosed(Null, p);
    } else {
      MergedFrom(sources[..|sources| - 1], p);
      MergeAtPath(MergeAll(sources[..|sources| - 1]), sources[|sources| - 1], p);
    }
  }

  /** Whatever the merged configuration holds, some document can be patched for it. */
  lemma TargetExists(docs: seq<Doc>, path: Path, lower: nat)
    requires lower <= |path| && At(Merged(docs), path[..lower]) != Null
    ensures Candidates(docs, path, lower) != []
  {
    var c := Configs(docs);
    if forall i :: 0 <= i < |c| ==> At(c[i], path[..lower]) == Null { MergedFrom(c, path[..lower]); }
    var i :| 0 <= i < |c| && At(c[i], path[..lower]) != Null;
    LongestIs(docs[i].config, path, lower);
    CandidatesAre(docs, path, lower);
  }

  // ---- promote, demote, expel ----

  /** `cconfigGetFailover` on an effective configuration. */
  function FailoverOf(config: Value): Option<Failover> {
    match Fetch(config, ["replication", "failover"])
    case Missing(_) => Some(FailoverOff)
    case NotMap(_) => None
    case Found(Atom(Str(s))) => Some(ParseFailover(s))
    case Found(_) => None
  }

  /** What the configuration says about the failover mode: nothing where nothing is in the way,
      or a string. */
  predicate HasFailover(config: Value, f: Failover) {
    var v := At(config, ["replication", "failover"]);
    match v
    case Null =>
      && f == FailoverOff && config.Map?
      && ("replication" in config.entries ==> config.entries["replication"].Map?)
    case Atom(Str(s)) => Means(s, f)
    case _ => false
  }

  /** The configuration has no readable failover mode: no map to look in, or no string there. */
  predicate NoFailoverIn(config: Value) {
    var v := At(config, ["replication", "failover"]);
    || !config.Map?
    || ("replication" in config.entries && !config.entries["replication"].Map?)
    || !(v.Null? || (v.Atom? && v.a.Str?))
  }

  lemma FailoverReads(config: Value, f: Failover)
    ensures FailoverOf(config) == Some(f) <==> HasFailover(config, f)
    ensures FailoverOf(config) == None <==> NoFailoverIn(config)
  {
    var path: Path := ["replication", "failover"];
    assert path[1..] == ["failover"] && path[1..][1..] == [];
    if config.Map? && "replication" in config.entries {
      assert Fetch(config, path) == Fetch(config.entries["replication"], path[1..]).Deeper();
    } else {
      AtClosed(Null, path[1..]);
    }
    match At(config, path)
    case Atom(Str(s)) => ParseMeans(s, f);
    case _ =>
  }

  datatype CInstance = CInstance(failover: Failover, group: string, replicaset: string, name: string)

  datatype Operation = Promote | Demote | Expel

  /** Where to write, how much of the path a document must have, and what to write. */
  datatype Patch = Patch(path: Path, lower: nat, value: Value)

  function ReplicasetPath(g: string, r: string): Path { [GROUPS, g, REPLICASETS, r] }

  function PatchFor(op: Operation, inst: CInstance): Option<Patch> {
    var own := InstancePath(inst.group, inst.replicaset, inst.name);
    match op
    case Promote =>
      if inst.failover.FailoverOff? then Some(Patch(own + ["database", "mode"], 6, Atom(Str("rw"))))
      else if inst.failover.FailoverManual? then
        Some(Patch(ReplicasetPath(inst.group, inst.replicaset) + ["leader"], 4, Atom(Str(inst.name))))
      else None
    case Demote =>
      if inst.failover.FailoverOff? then Some(Patch(own + ["database", "mode"], 6, Atom(Str("ro")))) else None
    case Expel => Some(Patch(own + ["iproto", "listen"], 6, Map(map[])))
  }
}

/**
 Reading answers of a text console: bytes arrive in arbitrary chunks, portions are cut out
 of them byte by byte, pushed values come before the answer.
 */
module PlainText {
  import Sequences


  const START_YAML := "---\n"
  const END_YAML := "\n...\n"
  const END_LUA := ";"
  const PUSH_YAML := "%TAG"
  const PUSH_LUA := "-- Push"

  predicate HasPrefix(s: string, p: string) { p <= s }

  predicate HasSuffix(s: string, p: string) { |p| <= |s| && s[|s| - |p|..] == p }

  // ---- portions of a stream ----

  /** A portion is complete: Lua output ends with a semicolon, YAML output with three dots. */
  predicate Complete(d: string) {
    || HasSuffix(d, END_LUA)
    || ((HasPrefix(d, START_YAML) || HasPrefix(d, PUSH_YAML)) && HasSuffix(d, END_YAML))
  }

  datatype Cut = NoCut | At(n: nat)

  /** The shortest complete prefix of at least `k` bytes. */
  function CutFrom(s: string, k: nat): (c: Cut)
    requires k <= |s|
    ensures c.At? ==> k <= c.n <= |s| && Complete(s[..c.n]) && forall j :: k <= j < c.n ==> !Complete(s[..j])
    ensures c.NoCut? ==> forall j :: k <= j <= |s| ==> !Complete(s[..j])
    decreases |s| - k
  {
    if Complete(s[..k]) then At(k) else if k == |s| then NoCut else CutFrom(s, k + 1)
  }

  function FirstCut(s: string): Cut { CutFrom(s, 0) }

  lemma CutNonEmpty(s: string)
    ensures FirstCut(s).At? ==> FirstCut(s).n > 0
  {
    assert s[..0] == "";
  }

  lemma CutInside(s: string)
    ensures FirstCut(s).At? ==> 0 < FirstCut(s).n <= |s|
  {
    CutNonEmpty(s);
  }

  // ---- the byte loop ----

  /** `readDataPortionFromPlainTextConn` goes on reading without a look at the end of the data. */
  predicate Skips(d: string) {
    HasPrefix(END_YAML, d) || HasPrefix(PUSH_YAML, d) || HasPrefix(PUSH_LUA, d)
  }

  predicate Yaml(d: string) { HasPrefix(d, START_YAML) || HasPrefix(d, PUSH_YAML) }

  /** Nothing that is skipped over could have been the end of a portion. */
  lemma SkippedIncomplete(d: string)
    requires Skips(d)
    ensures !Complete(d)
  {
    YamlBegins(d);
    if HasPrefix(END_YAML, d) {
      NoSemicolon(END_YAML, d);
      assert d != "" ==> d[0] == '\n';
    } else if HasPrefix(PUSH_YAML, d) {
      NoSemicolon(PUSH_YAML, d);
    } else {
      NoSemicolon(PUSH_LUA, d);
      assert (d != "" ==> d[0] == '-') && (|d| > 2 ==> d[2] == ' ');
    }
  }

  lemma YamlBegins(d: string)
    ensures HasPrefix(d, START_YAML) ==> |d| >= 4 && d[0] == '-' && d[2] == '-'
    ensures HasPrefix(d, PUSH_YAML) ==> |d| >= 4 && d[0] == '%'
  {
  }

  lemma NoSemicolon(w: string, d: string)
    requires HasPrefix(w, d) && forall i :: 0 <= i < |w| ==> w[i] != ';'
    ensures !HasSuffix(d, END_LUA)
  {
    SemicolonLast(d);
  }

  lemma SemicolonLast(d: string)
    ensures HasSuffix(d, END_LUA) ==> d != "" && d[|d| - 1] == ';'
  {
    if HasSuffix(d, END_LUA) { assert d[|d| - 1..][0] == d[|d| - 1]; }
  }

  /** What the loop knows after the bytes `data` of the stream `all`. */
  ghost predicate Scanned(all: string, data: string, rest: string, yaml: bool) {
    && data + rest == all
    && (forall j :: 0 <= j <= |data| ==> !Complete(all[..j]))
    && (yaml ==> Yaml(data))
    && (!Skips(data) ==> yaml == Yaml(data))
  }

  /** `hasYAMLOutputPrefix` after one more byte that is not skipped over. */
  predicate NextYaml(yaml: bool, data: string) {
    (!yaml && HasPrefix(data, START_YAML)) || HasPrefix(data, PUSH_YAML) || yaml
  }

  lemma ScanStep(all: string, data: string, rest: string, yaml: bool)
    requires Scanned(all, data, rest, yaml) && rest != ""
    ensures
      var next := data + [rest[0]];
      && all[..|next|] == next && next + rest[1..] == all
      && (Skips(next) ==> Scanned(all, next, rest[1..], yaml))
      && (!Skips(next) ==> NextYaml(yaml, next) == Yaml(next))
      && (!Skips(next) && !Complete(next) ==> Scanned(all, next, rest[1..], NextYaml(yaml, next)))
      && (Complete(next) ==> !Skips(next) && FirstCut(all) == At(|next|) && all[|next|..] == rest[1..])
  {
    var next := data + [rest[0]];
    NextByteFits(all, data, rest);
    YamlStays(data, rest[0], yaml);
    hide Complete, Skips, Yaml, HasPrefix, NextYaml, FirstCut;
    if Skips(next) { SkippedIncomplete(next); }
    if Complete(next) { CutHere(all, |next|); }
  }

  lemma NextByteFits(all: string, data: string, rest: string)
    requires data + rest == all && rest != ""
    ensures
      var next := data + [rest[0]];
      all[..|next|] == next && next + rest[1..] == all && all[|next|..] == rest[1..]
  {
    assert rest == [rest[0]] + rest[1..];
  }

  /** The flag follows the beginning of the data, which only skipped bytes leave open. */
  lemma YamlStays(data: string, c: char, yaml: bool)
    requires (yaml ==> Yaml(data)) && (!Skips(data) ==> yaml == Yaml(data))
    ensures
      var next := data + [c];
      && (yaml ==> Yaml(next)) && (NextYaml(yaml, next) ==> Yaml(next))
      && (!Skips(next) ==> NextYaml(yaml, next) == Yaml(next))
  {
    assert Yaml(data) ==> Yaml(data + [c]);
  }

  datatype Ending = Eof | Broken

  /** The flat stream that a buffer and a list of reads stand for. */
  function Flat(buffer: string, chunks: seq<string>): string
    decreases chunks
  {
    if chunks == [] then buffer else buffer + Flat(chunks[0], chunks[1..])
  }

  datatype Next = Byte(c: char) | NoByte

  datatype Portion = Portion(data: string) | PortionEof | PortionError

  /** A connection that yields its chunks and then ends. */
  class Conn {
    var buffer: string          // bytes.Buffer of readFromPlainTextConn
    var chunks: seq<string>     // what the coming reads return
    const ending: Ending
    ghost const script: seq<string>  // all reads of the connection
    ghost var taken: nat             // how many of them have been made

    constructor (chunks: seq<string>, ending: Ending)
      ensures this.chunks == script == chunks && buffer == "" && taken == 0 && this.ending == ending
      ensures Rest() == Flat("", chunks)
    {
      this.chunks, buffer, this.ending, script, taken := chunks, "", ending, chunks, 0;
    }

    ghost predicate Valid()
      reads this
    {
      && (forall i :: 0 <= i < |script| ==> 0 < |script[i]| <= 256)
      && taken <= |script| && chunks == script[taken..]
      && (taken == 0 ==> buffer == "")
      && (taken > 0 ==> |buffer| < |script[taken - 1]| && Sequences.EndOf(buffer, script[taken - 1]))
    }

    ghost function Rest(): string
      reads this
    {
      Flat(buffer, chunks)
    }

    /** A byte from the buffer, which is filled by a read when it is empty. */
    method NextByte() returns (b: Next)
      requires Valid()
      modifies this
      ensures Valid()
      ensures match b
        case NoByte => old(Rest()) == "" && Rest() == ""
        case Byte(c) => old(Rest()) != "" && c == old(Rest())[0] && Rest() == old(Rest())[1..]
    {
      ReadNext(chunks);
      hide Flat, Sequences.EndOf;
      if buffer == "" {
        if chunks == [] { return NoByte; }
        Sequences.EndSelf(chunks[0]);
        buffer, chunks, taken := chunks[0], chunks[1..], taken + 1;
      }
      b := Byte(buffer[0]);
      Advance(buffer, chunks);
      Sequences.EndTail(buffer, script[taken - 1]);
      buffer := buffer[1..];
    }

    /** The buffer goes away with the call. */
    method DropBuffer()
      requires Valid()
      modifies this`buffer
      ensures Valid() && buffer == "" && old(Rest()) == old(buffer) + Rest()
    {
      assert chunks == [] ==> buffer + "" == buffer;
      buffer := "";
      assert chunks != [] ==> "" + Flat(chunks[0], chunks[1..]) == Flat(chunks[0], chunks[1..]);
    }

    /** `readDataPortionFromPlainTextConn` */
    method ReadPortion() returns (r: Portion)
      requires Valid()
      modifies this
      ensures Valid()
      ensures match FirstCut(old(Rest()))
        case At(n) => r == Portion(old(Rest())[..n]) && Rest() == old(Rest())[n..]
        case NoCut => r == (if ending.Eof? then PortionEof else PortionError) && Rest() == ""
    {
      var data, yaml := "", false;
      ghost var all := Rest();
      assert all[..0] == "" && data + all == all;
      while true
        invariant Valid() && Scanned(all, data, Rest(), yaml)
        decreases |Rest()|
      {
        ghost var rest := Rest();
        var b := NextByte();
        if b.NoByte? {
          assert data + "" == data;
          return if ending.Eof? then PortionEof else PortionError;
        }
        ScanStep(all, data, rest, yaml);
        data := data + [b.c];
        if Skips(data) { continue; }
        if (!yaml && HasPrefix(data, START_YAML)) || HasPrefix(data, PUSH_YAML) {
          yaml := true;
        }
        if yaml && HasSuffix(data, END_YAML) { return Portion(data); }
        if HasSuffix(data, END_LUA) { return Portion(data); }
      }
    }
  }

  // ---- one call ----

  /** `pushTagIsReceived` */
  predicate IsPush(portion: string) {
    HasPrefix(portion, PUSH_YAML) || HasPrefix(portion, PUSH_LUA)
  }

  /** The portion announces pushed data. */
  predicate Pushed(p: string) {
    "%TAG" <= p || "-- Push" <= p
  }

  lemma PushIs(p: string)
    ensures IsPush(p) <==> Pushed(p)
  {
  }

  /** A portion is complete when it ends with a semicolon, or begins like YAML output or a YAML push
      and ends with three dots on a line of their own. */
  lemma CompleteIs(d: string)
    ensures Complete(d) <==>
      || (d != "" && d[|d| - 1] == ';')
      || (("---\n" <= d || "%TAG" <= d) && |d| >= 5 && d[|d| - 5..] == "\n...\n")
  {
    if d != "" { assert d[|d| - 1..] == [d[|d| - 1]]; }
  }

  datatype Decoded<P> = Bad | Good(pushed: P)

  /** What the caller of a call asks for: a callback, and how pushed data is decoded. */
  datatype Opts<!P> = Opts(callback: bool, decode: string -> Decoded<P>)

  datatype Outcome = Answer(data: string) | CallEof | CallError | BadPush

  /** What a call delivers: the pushes in order, the result, and the unread stream. */
  datatype Session<P> = Session(pushes: seq<P>, outcome: Outcome, rest: string)

  /** The call on the flat stream. */
  function Deliver<P>(s: string, ending: Ending, opts: Opts<P>): Session<P>
    decreases |s|
  {
    CutNonEmpty(s);
    match FirstCut(s)
    case NoCut => Session([], if ending.Eof? then CallEof else CallError, "")
    case At(n) =>
      if !IsPush(s[..n]) then Session([], Answer(s[..n]), s[n..])
      else if !opts.callback then Deliver(s[n..], ending, opts)
      else match opts.decode(s[..n])
        case Bad => Session([], BadPush, s[n..])
        case Good(p) =>
          var later := Deliver(s[n..], ending, opts);
          later.(pushes := [p] + later.pushes)
  }

  /** `readFromPlainTextConn`: whatever the chunks are, the call does what it does on the flat
      stream.  Its buffer is its own: what came in one read with the end of the answer is lost
      for the next call. */
  method Receive<P>(conn: Conn, opts: Opts<P>) returns (pushes: seq<P>, outcome: Outcome, ghost lost: string)
    requires conn.Valid() && conn.buffer == ""
    modifies conn
    ensures conn.Valid() && conn.buffer == ""
    ensures
      var d := Deliver(old(conn.Rest()), conn.ending, opts);
      pushes == d.pushes && outcome == d.outcome && d.rest == lost + conn.Rest()
    ensures
      if conn.taken == 0 then lost == ""
      else |lost| < |conn.script[conn.taken - 1]| && Sequences.EndOf(lost, conn.script[conn.taken - 1])
    ensures lost == "" <==> RestOfReads(conn.script, |Deliver(old(conn.Rest()), conn.ending, opts).rest|)
  {
    hide Deliver, Flat, RestOfReads, Sequences.EndOf;
    pushes, outcome := ReceiveBuffered(conn, opts);
    lost := conn.buffer;
    conn.DropBuffer();
    LostExactly(conn.script, conn.taken, lost);
  }

  function Size(chunks: seq<string>): nat {
    if chunks == [] then 0 else |chunks[0]| + Size(chunks[1..])
  }

  /** So many bytes at the end of the stream are whole reads: they begin where a read begins. */
  ghost predicate RestOfReads(script: seq<string>, n: nat) {
    exists i :: 0 <= i <= |script| && Size(script[i..]) == n
  }

  lemma {:induction false} FlatSize(chunks: seq<string>)
    ensures |Flat("", chunks)| == Size(chunks)
  {
    if chunks != [] {
      FlatOne(chunks[0], chunks[1..]);
      FlatSize(chunks[1..]);
    }
  }

  lemma FlatOne(buffer: string, chunks: seq<string>)
    ensures |Flat(buffer, chunks)| == |buffer| + |Flat("", chunks)|
  {
  }

  /** Fewer reads are fewer bytes. */
  lemma {:induction false} SizeFrom(script: seq<string>, i: nat, j: nat)
    requires i < j <= |script|
    ensures Size(script[i..]) >= |script[j - 1]| + Size(script[j..])
    decreases j - i
  {
    assert script[i..][1..] == script[i + 1..];
    if i + 1 < j { SizeFrom(script, i + 1, j); }
  }

  lemma LostExactly(script: seq<string>, taken: nat, lost: string)
    requires taken <= |script| && (taken == 0 ==> lost == "") && (taken > 0 ==> |lost| < |script[taken - 1]|)
    ensures lost == "" <==> RestOfReads(script, |lost| + |Flat("", script[taken..])|)
  {
    FlatSize(script[taken..]);
    var n := |lost| + Size(script[taken..]);
    if i :| 0 <= i <= |script| && Size(script[i..]) == n && lost != "" {
      if i < taken { SizeFrom(script, i, taken); } else if taken < i { SizeFrom(script, taken, i); }
    }
  }

  /** Two answers in one read: the call returns the first, and the second is lost. */
  method SecondAnswerLost() returns (outcome: Outcome, ghost lost: string)
    ensures outcome == Answer("a;") && lost == "b;"
  {
    var stream := "a;b;";
    OneRead(stream);
    var conn := new Conn([stream], Eof);
    var opts: Opts<int> := Opts(false, _ => Bad);
    TwoAnswers(opts);
    hide Deliver, Flat, RestOfReads;
    assert conn.script[0..] == conn.script;
    var pushes, got, dropped := Receive(conn, opts);
    outcome, lost := got, dropped;
    assert conn.chunks == (if conn.taken == 0 then [stream] else []);
    assert lost + "" == lost;
  }

  lemma OneRead(s: string)
    ensures Flat("", [s]) == s && Flat("", []) == ""
  {
    assert [s][1..] == [] && "" + s == s;
  }

  lemma TwoAnswers<P>(opts: Opts<P>)
    ensures Deliver("a;b;", Eof, opts) == Session([], Answer("a;"), "b;")
  {
    var s := "a;b;";
    assert s[..0] == "" && s[..1] == "a" && s[..2] == "a;" && s[2..] == "b;";
    assert !Complete("") && !Complete("a") && Complete("a;");
    CutHere(s, 2);
    assert !IsPush("a;") by { assert "a;"[0] == 'a' && PUSH_YAML[0] == '%' && PUSH_LUA[0] == '-'; }
  }

  /** The loop of the call, while its buffer exists. */
  method ReceiveBuffered<P>(conn: Conn, opts: Opts<P>) returns (pushes: seq<P>, outcome: Outcome)
    requires conn.Valid()
    modifies conn
    ensures conn.Valid()
    ensures
      var d := Deliver(old(conn.Rest()), conn.ending, opts);
      pushes == d.pushes && outcome == d.outcome && conn.Rest() == d.rest
  {
    hide FirstCut, IsPush, Flat;
    pushes := [];
    ghost var all := conn.Rest();
    while true
      invariant conn.Valid()
      invariant
        var d, e := Deliver(all, conn.ending, opts), Deliver(conn.Rest(), conn.ending, opts);
        d.pushes == pushes + e.pushes && d.outcome == e.outcome && d.rest == e.rest
      decreases |conn.Rest()|
    {
      ghost var s := conn.Rest();
      CutInside(s);
      var portion := conn.ReadPortion();
      if portion.PortionEof? { outcome := CallEof; return; }
      if portion.PortionError? { outcome := CallError; return; }
      if !IsPush(portion.data) { outcome := Answer(portion.data); return; }
      if opts.callback {
        var got := opts.decode(portion.data);
        if got.Bad? { outcome := BadPush; return; }
        pushes := pushes + [got.pushed];
      }
    }
  }

  /** The portions a call cuts off, up to its answer. */
  function Portions(s: string): seq<string>
    decreases |s|
  {
    CutNonEmpty(s);
    match FirstCut(s)
    case NoCut => []
    case At(n) => [s[..n]] + (if IsPush(s[..n]) then Portions(s[n..]) else [])
  }

  function Concat(parts: seq<string>): string {
    if parts == [] then "" else parts[0] + Concat(parts[1..])
  }

  /** No byte is lost or repeated between portions: together they are a prefix of the stream,
      every one but the last is a push, and each is the shortest complete one. */
  lemma {:induction false} PortionsTile(s: string)
    ensures Concat(Portions(s)) <= s
    ensures forall i :: 0 <= i < |Portions(s)| ==> Shortest(Portions(s)[i])
    ensures forall i :: 0 <= i < |Portions(s)| - 1 ==> IsPush(Portions(s)[i])
    decreases |s|
  {
    CutInside(s);
    hide FirstCut, Shortest, IsPush;
    match FirstCut(s)
    case NoCut =>
    case At(n) =>
      var p := s[..n];
      CutShortest(s);
      if IsPush(p) {
        PortionsTile(s[n..]);
        PortionsStep(s, n);
        assert s == p + s[n..];
      } else {
        ConcatOne(p);
      }
  }

  /** A complete portion none of whose beginnings is one. */
  predicate Shortest(p: string) {
    Complete(p) && forall j :: 0 <= j < |p| ==> !Complete(p[..j])
  }

  lemma CutShortest(s: string)
    ensures FirstCut(s).At? ==> FirstCut(s).n <= |s| && Shortest(s[..FirstCut(s).n])
  {
    if FirstCut(s).At? {
      var p := s[..FirstCut(s).n];
      forall j | 0 <= j < |p| ensures !Complete(p[..j]) { assert p[..j] == s[..j]; }
    }
  }

  lemma PortionsStep(s: string, n: nat)
    requires FirstCut(s) == At(n) && IsPush(s[..n])
    ensures n > 0 && Portions(s) == [s[..n]] + Portions(s[n..])
    ensures Concat(Portions(s)) == s[..n] + Concat(Portions(s[n..]))
  {
    CutNonEmpty(s);
    assert Portions(s)[1..] == Portions(s[n..]);
  }

  /** How many of the portions a call takes are pushes that it passes on. */
  function Passed(outcome: Outcome, used: nat): nat {
    if (outcome.Answer? || outcome.BadPush?) && used > 0 then used - 1 else used
  }

  /** Session `d` takes the first `used` portions `ps` of the stream `s`: the ones passed over are
      pushes, decoded in order when there is a callback; then comes the answer, a push that cannot
      be decoded, or the end of the stream. */
  ghost predicate DeliveredAs<P>(d: Session<P>, ps: seq<string>, s: string, opts: Opts<P>, used: nat) {
    && used <= |ps|
    && (forall i :: 0 <= i < Passed(d.outcome, used) ==> Pushed(ps[i]))
    && (if opts.callback then
          && |d.pushes| == Passed(d.outcome, used)
          && forall i :: 0 <= i < |d.pushes| ==> opts.decode(ps[i]) == Good(d.pushes[i])
        else d.pushes == [])
    && match d.outcome
       case Answer(data) =>
         used == |ps| > 0 && data == ps[used - 1] && !Pushed(data) && Concat(ps[..used]) + d.rest == s
       case BadPush =>
         && used > 0 && opts.callback && Pushed(ps[used - 1]) && opts.decode(ps[used - 1]).Bad?
         && Concat(ps[..used]) + d.rest == s
       case _ => used == |ps| && d.rest == ""
  }

  lemma ConcatFront(p: string, ps: seq<string>, n: nat)
    requires n <= |ps|
    ensures ([p] + ps)[..n + 1] == [p] + ps[..n]
    ensures Concat([p] + ps[..n]) == p + Concat(ps[..n])
  {
    assert ([p] + ps[..n])[1..] == ps[..n];
  }

  lemma ConcatOne(p: string)
    ensures Concat([p]) == p
  {
    assert [p][1..] == [] && p + "" == p;
  }

  /** One more push in front. */
  lemma PushInFront<P>(p: string, e: Session<P>, ps: seq<string>, s: string, opts: Opts<P>, used: nat)
    requires Pushed(p) && (opts.callback ==> opts.decode(p).Good?) && DeliveredAs(e, ps, s, opts, used)
    ensures
      var first := if opts.callback then [opts.decode(p).pushed] else [];
      DeliveredAs(Session(first + e.pushes, e.outcome, e.rest), [p] + ps, p + s, opts, used + 1)
  {
    hide Pushed;
    var all := [p] + ps;
    assert forall i :: 0 < i < |all| ==> all[i] == ps[i - 1];
    ConcatFront(p, ps, used);
    Sequences.Assoc(p, Concat(ps[..used]), e.rest);
  }

  /** For every stream, ending, callback and decoder: what a call delivers is what the portions
      of the stream say, and these and the unread rest are the stream. */
  lemma {:induction false} DeliverIsPortions<P>(s: string, ending: Ending, opts: Opts<P>) returns (used: nat)
    ensures DeliveredAs(Deliver(s, ending, opts), Portions(s), s, opts, used)
    decreases |s|
  {
    CutInside(s);
    hide FirstCut, IsPush, Pushed;
    match FirstCut(s)
    case NoCut => used := 0;
    case At(n) =>
      var p := s[..n];
      ConcatOne(p);
      PushIs(p);
      assert s == p + s[n..];
      if !IsPush(p) || (opts.callback && opts.decode(p).Bad?) {
        used := 1;
        assert Portions(s)[..1] == [p];
      } else {
        PortionsStep(s, n);
        used := DeliverIsPortions(s[n..], ending, opts);
        PushInFront(p, Deliver(s[n..], ending, opts), Portions(s[n..]), s[n..], opts, used);
        used := used + 1;
        assert !opts.callback ==> [] + Deliver(s[n..], ending, opts).pushes == Deliver(s[n..], ending, opts).pushes;
      }
  }

  lemma ReadNext(chunks: seq<string>)
    ensures Flat("", chunks) == if chunks == [] then "" else Flat(chunks[0], chunks[1..])
  {
  }

  lemma Advance(buffer: string, chunks: seq<string>)
    requires buffer != ""
    ensures Flat(buffer, chunks) == [buffer[0]] + Flat(buffer[1..], chunks)
  {
    assert buffer == [buffer[0]] + buffer[1..];
  }

  lemma CutHere(s: string, n: nat)
    requires n <= |s| && Complete(s[..n]) && forall j :: 0 <= j < n ==> !Complete(s[..j])
    ensures FirstCut(s) == At(n)
  {
  }
}

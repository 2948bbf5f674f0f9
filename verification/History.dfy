/**
 The console history: a printer and a parser for timestamped commands, and what is left of
 a history that is written, cut to its last lines and loaded again.
 */
module History {
  import opened LastLines
  import opened Sequences

  datatype Entry = Entry(timestamp: int, command: string)

  // ---- decimal numbers ----

  predicate Digit(c: char) { '0' <= c <= '9' }

  predicate Digits(s: string) { forall i :: 0 <= i < |s| ==> Digit(s[i]) }

  function DigitOf(n: nat): char
    requires n < 10
  {
    ('0' as int + n) as char
  }

  /** `%d` */
  function Dec(n: nat): (s: string)
    ensures s != "" && Digits(s)
  {
    if n < 10 then [DigitOf(n)] else Dec(n / 10) + [DigitOf(n % 10)]
  }

  function Number(s: string): nat
    requires Digits(s)
  {
    if s == "" then 0 else Number(s[..|s| - 1]) * 10 + (s[|s| - 1] as int - '0' as int)
  }

  lemma {:induction false} DecBack(n: nat)
    ensures Number(Dec(n)) == n
  {
    var s := Dec(n);
    if n >= 10 {
      DecBack(n / 10);
      assert s[..|s| - 1] == Dec(n / 10);
    } else {
      assert s[..0] == "";
    }
  }

  const MAX_INT := 0x7fff_ffff_ffff_ffff

  // ---- lines ----

  /** The next newline, or the end. */
  function LineEnd(f: string): (n: nat)
    ensures n <= |f| && (n < |f| ==> f[n] == '\n') && forall i :: 0 <= i < n ==> f[i] != '\n'
  {
    if f == "" || f[0] == '\n' then 0 else 1 + LineEnd(f[1..])
  }

  /** `bufio.ScanLines` drops a carriage return at the end of a line. */
  function DropCR(l: string): string {
    if l != "" && l[|l| - 1] == '\r' then l[..|l| - 1] else l
  }

  /** The lines a `bufio.Scanner` yields. */
  function ScanLines(f: string): seq<string> {
    if f == "" then []
    else
      var n := LineEnd(f);
      [DropCR(f[..n])] + (if n < |f| then ScanLines(f[n + 1..]) else [])
  }

  lemma LineEndAt(l: string, rest: string)
    requires '\n' !in l
    ensures LineEnd(l + "\n" + rest) == |l|
  {
    var f := l + "\n" + rest;
    assert f[|l|] == '\n';
    assert forall i :: 0 <= i < |l| ==> f[i] == l[i];
  }

  /** Splitting a command into its lines, and putting it together again. */
  function Split(c: string): (ls: seq<string>)
    ensures ls != []
  {
    var n := LineEnd(c);
    if n == |c| then [c] else [c[..n]] + Split(c[n + 1..])
  }

  function Join(ls: seq<string>): string {
    if ls == [] then "" else if |ls| == 1 then ls[0] else ls[0] + "\n" + Join(ls[1..])
  }

  lemma {:induction false} JoinSplit(c: string)
    ensures Join(Split(c)) == c
    ensures forall i :: 0 <= i < |Split(c)| ==> '\n' !in Split(c)[i]
  {
    var n := LineEnd(c);
    if n < |c| {
      JoinSplit(c[n + 1..]);
      assert Split(c)[1..] == Split(c[n + 1..]);
      assert c == c[..n] + "\n" + c[n + 1..];
    }
  }

  // ---- printer and parser ----

  /** `^#\d+$` */
  predicate IsHeader(l: string) {
    |l| > 1 && l[0] == '#' && Digits(l[1..])
  }

  function Header(timestamp: nat): string { "#" + Dec(timestamp) }

  /** What survives a trip through the file: a timestamp the printer and the parser agree on,
      and no command line that looks like a header or loses a carriage return. */
  ghost predicate Writable(e: Entry) {
    && 0 <= e.timestamp <= MAX_INT
    && forall i :: 0 <= i < |Split(e.command)| ==>
         !IsHeader(Split(e.command)[i]) && NoCR(Split(e.command)[i])
  }

  ghost predicate AllWritable(h: seq<Entry>) {
    forall i :: 0 <= i < |h| ==> Writable(h[i])
  }

  /** One entry in the file; a negative timestamp is printed with a sign. */
  function PrintEntry(e: Entry): string {
    "#" + (if e.timestamp < 0 then "-" + Dec(-e.timestamp) else Dec(e.timestamp)) + "\n" + e.command + "\n"
  }

  /** The contents that `writeToFile` writes. */
  function Print(h: seq<Entry>): string {
    if h == [] then "" else PrintEntry(h[0]) + Print(h[1..])
  }

  lemma PrintFrom(h: seq<Entry>, i: nat)
    requires i < |h|
    ensures Print(h[i..]) == PrintEntry(h[i]) + Print(h[i + 1..])
  {
    assert h[i..][1..] == h[i + 1..];
  }

  /** The lines of a printed history. */
  function PrintedLines(h: seq<Entry>): seq<string>
    requires forall i :: 0 <= i < |h| ==> h[i].timestamp >= 0
  {
    if h == [] then [] else [Header(h[0].timestamp)] + Split(h[0].command) + PrintedLines(h[1..])
  }

  /** Lines that come out of the scanner as they went in. */
  predicate NoCR(l: string) { !(l != "" && l[|l| - 1] == '\r') }

  lemma ScanOneLine(l: string, rest: string)
    requires '\n' !in l && NoCR(l)
    ensures ScanLines(l + "\n" + rest) == [l] + ScanLines(rest)
  {
    var f := l + "\n" + rest;
    LineEndAt(l, rest);
    assert f[..|l|] == l && f[|l| + 1..] == rest;
  }

  lemma {:induction false} ScanJoined(ls: seq<string>, rest: string)
    requires ls != [] && forall i :: 0 <= i < |ls| ==> '\n' !in ls[i] && NoCR(ls[i])
    ensures ScanLines(Join(ls) + "\n" + rest) == ls + ScanLines(rest)
  {
    if |ls| == 1 {
      ScanOneLine(ls[0], rest);
      Uncons(ls);
    } else {
      var tail := Join(ls[1..]) + "\n" + rest;
      assert Join(ls) + "\n" + rest == ls[0] + "\n" + tail;
      ScanOneLine(ls[0], tail);
      ScanJoined(ls[1..], rest);
      Uncons(ls);
      Assoc([ls[0]], ls[1..], ScanLines(rest));
    }
  }

  lemma ScanPrintedCommand(c: string, rest: string)
    requires forall i :: 0 <= i < |Split(c)| ==> NoCR(Split(c)[i])
    ensures ScanLines(c + "\n" + rest) == Split(c) + ScanLines(rest)
  {
    JoinSplit(c);
    ScanJoined(Split(c), rest);
  }

  /** Scanning what was printed gives the printed lines. */
  lemma {:induction false} ScanPrinted(h: seq<Entry>)
    requires AllWritable(h)
    ensures ScanLines(Print(h)) == PrintedLines(h)
  {
    if h != [] {
      var head := Header(h[0].timestamp);
      var rest := Print(h[1..]);
      assert Print(h) == head + "\n" + (h[0].command + "\n" + rest);
      ScanOneLine(head, h[0].command + "\n" + rest);
      ScanPrintedCommand(h[0].command, rest);
      ScanPrinted(h[1..]);
      Assoc([head], Split(h[0].command), PrintedLines(h[1..]));
    }
  }

  /** The first header at or after a position. */
  function NextHeader(ls: seq<string>, k: nat): (j: nat)
    requires k <= |ls|
    ensures k <= j <= |ls| && (j < |ls| ==> IsHeader(ls[j])) && forall i :: k <= i < j ==> !IsHeader(ls[i])
    decreases |ls| - k
  {
    if k == |ls| || IsHeader(ls[k]) then k else NextHeader(ls, k + 1)
  }

  /** The cell of one header and the lines below it; without lines or out of range there is none. */
  function Cell(head: string, body: seq<string>): seq<Entry>
    requires IsHeader(head)
  {
    var t := Number(head[1..]);
    if body != [] && t <= MAX_INT then [Entry(t, Join(body))] else []
  }

  /** The cells of lines that begin with a header. */
  function Cells(ls: seq<string>): seq<Entry>
    requires ls != [] ==> IsHeader(ls[0])
    decreases |ls|
  {
    if ls == [] then []
    else
      var j := NextHeader(ls, 1);
      Cell(ls[0], ls[1..j]) + Cells(ls[j..])
  }

  /** Every line a command of its own, when no line is a header. */
  function Plain(ls: seq<string>, now: int): seq<Entry> {
    seq(|ls|, i requires 0 <= i < |ls| => Entry(now, ls[i]))
  }

  function Parsed(ls: seq<string>, now: int): seq<Entry> {
    var start := NextHeader(ls, 0);
    if start == |ls| then Plain(ls, now) else Cells(ls[start..])
  }

  /** Moves a pointer to the next header. */
  method FindHeader(ls: seq<string>, k: nat) returns (j: nat)
    requires k <= |ls|
    ensures j == NextHeader(ls, k)
  {
    j := k;
    while j < |ls| && !IsHeader(ls[j])
      invariant k <= j <= |ls| && NextHeader(ls, k) == NextHeader(ls, j)
    {
      j := j + 1;
    }
  }

  lemma CellsStep(ls: seq<string>, start: nat)
    requires start < |ls| && IsHeader(ls[start])
    ensures
      var j := NextHeader(ls, start + 1);
      Cells(ls[start..]) == Cell(ls[start], ls[start + 1..j]) + Cells(ls[j..])
  {
    var rest := ls[start..];
    var j, k := NextHeader(ls, start + 1), NextHeader(rest, 1);
    assert forall i :: 0 <= i < |rest| ==> rest[i] == ls[start + i];
    assert forall i :: start <= i < |ls| ==> ls[i] == rest[i - start];
    assert k == j - start;
    assert rest[1..k] == ls[start + 1..j] && rest[k..] == ls[j..];
  }

  /** One line per command. */
  method PlainCells(ls: seq<string>, now: int) returns (cells: seq<Entry>)
    ensures cells == Plain(ls, now)
  {
    cells := [];
    for i := 0 to |ls|
      invariant |cells| == i && forall j :: 0 <= j < i ==> cells[j] == Entry(now, ls[j])
    {
      cells := cells + [Entry(now, ls[i])];
    }
  }

  /** The cells of the lines from `first` to `start` have been collected. */
  ghost predicate Collected(ls: seq<string>, first: nat, start: nat, cells: seq<Entry>) {
    && first <= start <= |ls|
    && (first < |ls| ==> IsHeader(ls[first])) && (start < |ls| ==> IsHeader(ls[start]))
    && cells + Cells(ls[start..]) == Cells(ls[first..])
  }

  lemma CollectNone(ls: seq<string>, first: nat)
    requires first < |ls| && IsHeader(ls[first])
    ensures Collected(ls, first, first, [])
  {
  }

  lemma CollectNext(ls: seq<string>, first: nat, start: nat, cells: seq<Entry>)
    requires Collected(ls, first, start, cells) && start < |ls|
    ensures
      var j := NextHeader(ls, start + 1);
      Collected(ls, first, j, cells + Cell(ls[start], ls[start + 1..j]))
  {
    CellsStep(ls, start);
    var j := NextHeader(ls, start + 1);
    hide Cells, Cell, NextHeader, IsHeader;
    Assoc(cells, Cell(ls[start], ls[start + 1..j]), Cells(ls[j..]));
  }

  lemma CollectedAll(ls: seq<string>, first: nat, cells: seq<Entry>)
    requires Collected(ls, first, |ls|, cells)
    ensures cells == Cells(ls[first..])
  {
    assert ls[|ls|..] == [];
  }

  /** `parseHistoryCells` */
  method ParseHistoryCells(ls: seq<string>, now: int) returns (cells: seq<Entry>)
    ensures cells == Parsed(ls, now)
  {
    hide Cell, Cells, NextHeader, Collected;
    var start := FindHeader(ls, 0);
    if start == |ls| {
      cells := PlainCells(ls, now);
      return;
    }
    cells := [];
    ghost var first := start;
    CollectNone(ls, first);
    while start < |ls|
      invariant start <= |ls| && (start < |ls| ==> IsHeader(ls[start]))
      invariant Collected(ls, first, start, cells)
    {
      var j := FindHeader(ls, start + 1);
      CollectNext(ls, first, start, cells);
      cells := cells + Cell(ls[start], ls[start + 1..j]);
      start := j;
    }
    CollectedAll(ls, first, cells);
  }

  lemma BodyAhead(h: seq<Entry>, k: nat)
    requires h != [] && AllWritable(h) && k <= |Split(h[0].command)|
    ensures
      var body, rest := Split(h[0].command)[k..], PrintedLines(h[1..]);
      NextHeader(body + rest, 0) == |body|
  {
    var body, rest := Split(h[0].command)[k..], PrintedLines(h[1..]);
    forall i | 0 <= i < |body| ensures !IsHeader((body + rest)[i]) {
      assert (body + rest)[i] == Split(h[0].command)[k + i];
    }
    if h[1..] != [] {
      assert (body + rest)[|body|] == Header(h[1].timestamp);
      assert Header(h[1].timestamp)[1..] == Dec(h[1].timestamp);
    }
  }

  /** Parsing the printed lines restores commands and timestamps. */
  lemma {:induction false} CellsBack(h: seq<Entry>)
    requires AllWritable(h)
    ensures PrintedLines(h) != [] ==> IsHeader(PrintedLines(h)[0])
    ensures Cells(PrintedLines(h)) == h
  {
    if h != [] {
      var head := Header(h[0].timestamp);
      assert head[1..] == Dec(h[0].timestamp);
      DecBack(h[0].timestamp);
      var body, rest := Split(h[0].command), PrintedLines(h[1..]);
      Assoc([head], body, rest);
      BodyAhead(h, 0);
      assert body[0..] == body;
      CellsBack(h[1..]);
      CellsOne(head, body, rest);
      JoinSplit(h[0].command);
      assert h == [h[0]] + h[1..];
    }
  }

  /** One printed entry in front of others. */
  lemma CellsOne(head: string, body: seq<string>, rest: seq<string>)
    requires IsHeader(head) && Number(head[1..]) <= MAX_INT && body != []
    requires NextHeader(body + rest, 0) == |body| && (rest != [] ==> IsHeader(rest[0]))
    ensures Cells([head] + (body + rest)) == [Entry(Number(head[1..]), Join(body))] + Cells(rest)
  {
    hide Join, Number, NextHeader, IsHeader;
    ShiftHeader(head, body + rest);
    Parts([head], body, rest);
  }

  lemma ShiftHeader(head: string, ls: seq<string>)
    ensures NextHeader([head] + ls, 1) == NextHeader(ls, 0) + 1
  {
    var j := NextHeader([head] + ls, 1);
    var k := NextHeader(ls, 0);
    assert forall i :: 0 <= i < |ls| ==> ([head] + ls)[i + 1] == ls[i];
    assert forall i :: 0 < i <= |ls| ==> ([head] + ls)[i] == ls[i - 1];
  }

  /** What a line of the file looks like when it is a header. */
  lemma HeaderIs(l: string)
    ensures IsHeader(l) <==> |l| >= 2 && l[0] == '#' && forall i :: 1 <= i < |l| ==> '0' <= l[i] <= '9'
  {
    if |l| >= 2 { assert forall i :: 1 <= i < |l| ==> l[i] == l[1..][i - 1]; }
  }

  /** A line ends with a newline or the file, and a carriage return before it is dropped. */
  lemma ScannedExample()
    ensures ScanLines("a\r\nb") == ["a", "b"]
  {
    var f := "a\r\nb";
    assert LineEnd("b") == 1 && LineEnd(f) == 2;
    assert f[..2] == "a\r" && f[3..] == "b" && "a\r"[..1] == "a" && "b"[..1] == "b";
    assert ScanLines("b") == ["b"] + [];
  }

  /** What is written. */
  lemma PrintedExample()
    ensures Print([Entry(12, "a"), Entry(7, "b\nc")]) == "#12\na\n#7\nb\nc\n"
  {
    var h := [Entry(12, "a"), Entry(7, "b\nc")];
    assert Dec(1) == "1" && Dec(12) == Dec(1) + "2" && Dec(7) == "7";
    assert PrintEntry(h[0]) == "#12\na\n" && PrintEntry(h[1]) == "#7\nb\nc\n";
    assert h[1..] == [h[1]] && [h[1]][1..] == [];
    assert Print(h[1..]) == PrintEntry(h[1]) + "";
  }

  /** A file without headers has one command a line, all made now. */
  lemma PlainParsed(ls: seq<string>, now: int)
    requires forall i :: 0 <= i < |ls| ==> !IsHeader(ls[i])
    ensures |Parsed(ls, now)| == |ls| && forall i :: 0 <= i < |ls| ==> Parsed(ls, now)[i] == Entry(now, ls[i])
  {
  }

  /** A header yields a cell unless no line follows it or its number is no int64. */
  lemma CellLimit(head: string, body: seq<string>)
    requires IsHeader(head)
    ensures Cell(head, body) != [] <==> body != [] && Number(head[1..]) <= 9223372036854775807
    ensures forall e :: e in Cell(head, body) ==> e == Entry(Number(head[1..]), Join(body))
  {
  }

  /** Printing and parsing are inverse. */
  lemma HistoryRoundTrip(h: seq<Entry>, now: int)
    requires AllWritable(h)
    ensures Parsed(ScanLines(Print(h)), now) == h
  {
    ScanPrinted(h);
    CellsBack(h);
    if h != [] {
      assert PrintedLines(h)[0..] == PrintedLines(h);
    }
  }

  function Headers(ls: seq<string>, k: nat): nat
    requires k <= |ls|
  {
    if k == 0 then 0 else Headers(ls, k - 1) + if IsHeader(ls[k - 1]) then 1 else 0
  }

  /** The window from line `k` on has a header exactly when some entry has its header there, and
      is then parsed into exactly those entries. */
  ghost predicate WindowGives(h: seq<Entry>, k: nat, now: int)
    requires AllWritable(h) && k <= |PrintedLines(h)|
  {
    var n, w := Headers(PrintedLines(h), k), PrintedLines(h)[k..];
    && n <= |h|
    && (n == |h| <==> NextHeader(w, 0) == |w|)
    && (n < |h| ==> Parsed(w, now) == h[n..])
  }

  /** Parsing a trailing window that has a header gives exactly the entries whose headers are in
      the window. */
  lemma {:induction false} WindowParses(h: seq<Entry>, k: nat, now: int)
    requires AllWritable(h) && k <= |PrintedLines(h)|
    ensures WindowGives(h, k, now)
    decreases |h|
  {
    hide WindowGives, PrintedLines, Split;
    PrintedSize(h);
    if k == 0 {
      WholeWindow(h, now);
    } else {
      var n := |Split(h[0].command)|;
      if k <= 1 + n {
        WindowInFirst(h, k, now);
      } else {
        WindowParses(h[1..], k - 1 - n, now);
        WindowLater(h, k - 1 - n, now);
      }
    }
  }

  lemma PrintedSize(h: seq<Entry>)
    requires AllWritable(h)
    ensures |PrintedLines(h)| == if h == [] then 0 else 1 + |Split(h[0].command)| + |PrintedLines(h[1..])|
  {
  }

  lemma WholeWindow(h: seq<Entry>, now: int)
    requires AllWritable(h)
    ensures WindowGives(h, 0, now)
  {
    var ls := PrintedLines(h);
    assert ls[0..] == ls && h[0..] == h;
    CellsBack(h);
  }

  /** A window that begins inside the first entry skips the rest of it. */
  lemma WindowInFirst(h: seq<Entry>, k: nat, now: int)
    requires h != [] && AllWritable(h) && 1 <= k <= 1 + |Split(h[0].command)| && k <= |PrintedLines(h)|
    ensures WindowGives(h, k, now)
  {
    hide Split, Headers, PrintedLines, Parsed, Cells;
    HeadersFirst(h, k);
    FirstWindow(h, k);
    BodyAhead(h, k - 1);
    CellsBack(h[1..]);
    PrintedSize(h[1..]);
    if |h| > 1 { ParsedBehind(Split(h[0].command)[k - 1..], PrintedLines(h[1..]), now); }
  }

  lemma FirstWindow(h: seq<Entry>, k: nat)
    requires h != [] && AllWritable(h) && 1 <= k <= 1 + |Split(h[0].command)| && k <= |PrintedLines(h)|
    ensures PrintedLines(h)[k..] == Split(h[0].command)[k - 1..] + PrintedLines(h[1..])
  {
    hide Split, Header, IsHeader;
    var head, body := [Header(h[0].timestamp)], Split(h[0].command);
    DropFront(head + body, PrintedLines(h[1..]), k);
    DropFront(head, body, k);
  }

  lemma ParsedBehind(body: seq<string>, rest: seq<string>, now: int)
    requires NextHeader(body + rest, 0) == |body| && rest != [] && IsHeader(rest[0])
    ensures Parsed(body + rest, now) == Cells(rest)
  {
    hide Cells, NextHeader;
    TakeBehind(body, rest);
  }

  /** A window that begins behind the first entry is a window of the others. */
  lemma WindowLater(h: seq<Entry>, m: nat, now: int)
    requires h != [] && AllWritable(h) && m <= |PrintedLines(h[1..])| && WindowGives(h[1..], m, now)
    requires |PrintedLines(h)| == 1 + |Split(h[0].command)| + |PrintedLines(h[1..])|
    ensures WindowGives(h, 1 + |Split(h[0].command)| + m, now)
  {
    HeadersLater(h, m);
    BehindFirst(h, m);
    DropDrop(h, 1, Headers(PrintedLines(h[1..]), m));
  }

  lemma BehindFirst(h: seq<Entry>, m: nat)
    requires h != [] && AllWritable(h) && m <= |PrintedLines(h[1..])|
    requires |PrintedLines(h)| == 1 + |Split(h[0].command)| + |PrintedLines(h[1..])|
    ensures PrintedLines(h)[1 + |Split(h[0].command)| + m..] == PrintedLines(h[1..])[m..]
  {
    DropFront([Header(h[0].timestamp)] + Split(h[0].command), PrintedLines(h[1..]), 1 + |Split(h[0].command)| + m);
  }

  lemma {:induction false} HeadersFirst(h: seq<Entry>, k: nat)
    requires h != [] && AllWritable(h) && 1 <= k <= 1 + |Split(h[0].command)|
    ensures Headers(PrintedLines(h), k) == 1
  {
    var head := Header(h[0].timestamp);
    assert head[1..] == Dec(h[0].timestamp);
    assert PrintedLines(h)[0] == head;
    if k > 1 {
      HeadersFirst(h, k - 1);
      assert PrintedLines(h)[k - 1] == Split(h[0].command)[k - 2];
    } else {
      assert Headers(PrintedLines(h), 0) == 0;
    }
  }

  lemma {:induction false} HeadersLater(h: seq<Entry>, m: nat)
    requires h != [] && AllWritable(h) && m <= |PrintedLines(h[1..])|
    ensures Headers(PrintedLines(h), 1 + |Split(h[0].command)| + m) == 1 + Headers(PrintedLines(h[1..]), m)
  {
    hide Split, Header, IsHeader;
    var n := 1 + |Split(h[0].command)|;
    if m == 0 {
      HeadersFirst(h, n);
    } else {
      HeadersLater(h, m - 1);
      AtBack([Header(h[0].timestamp)] + Split(h[0].command), PrintedLines(h[1..]), m - 1);
    }
  }

  // ---- the history file ----

  lemma {:induction false} NewlinesShift(f: string, p: nat, a: nat, b: nat)
    requires p <= a <= b <= |f|
    ensures Newlines(f[p..], a - p, b - p) == Newlines(f, a, b)
    decreases b
  {
    if a < b { NewlinesShift(f, p, a, b - 1); }
  }

  /** The scanner yields as many lines as the file has. */
  lemma {:induction false} ScanCount(f: string)
    requires f != ""
    ensures |ScanLines(f)| == LinesFrom(f, 0)
  {
    var n := LineEnd(f);
    if n < |f| - 1 {
      hide Newlines, LinesFrom;
      ScanCount(f[n + 1..]);
      LinesBehindFirst(f, n);
    } else {
      NoNewlines(f, n);
      assert n < |f| ==> f[n + 1..] == "";
    }
  }

  lemma LinesBehindFirst(f: string, n: nat)
    requires n < |f| - 1 && f[n] == '\n' && forall i :: 0 <= i < n ==> f[i] != '\n'
    ensures LinesFrom(f, 0) == 1 + LinesFrom(f[n + 1..], 0)
  {
    NoNewlines(f, n);
    NewlinesSplit(f, 0, n, |f| - 1);
    NewlinesFirst(f, n, |f| - 1);
    NewlinesShift(f, n + 1, n + 1, |f| - 1);
  }

  lemma {:induction false} NoNewlines(f: string, n: nat)
    requires n <= |f| && forall i :: 0 <= i < n ==> f[i] != '\n'
    ensures Newlines(f, 0, n) == 0
    ensures n == |f| && n > 0 ==> Newlines(f, 0, n - 1) == 0
  {
    if n > 0 { NoNewlines(f, n - 1); }
  }

  /** From `p` on the scanner yields all lines but the first `k`. */
  ghost predicate Resumes(f: string, p: nat, k: nat)
    requires p <= |f|
  {
    k <= |ScanLines(f)| && ScanLines(f[p..]) == ScanLines(f)[k..]
  }

  /** From a line start on, the scanner yields a tail of what it yields from the beginning. */
  lemma {:induction false} ScanSuffix(f: string, p: nat) returns (k: nat)
    requires p < |f| && LineStart(f, p)
    ensures Resumes(f, p, k)
    decreases |f|
  {
    hide Resumes;
    if p == 0 {
      ResumesAtOnce(f);
      k := 0;
    } else {
      var n := LineEnd(f);
      assert n <= p - 1;
      assert n + 1 < p ==> f[n + 1..][p - n - 2] == f[p - 1];
      k := ScanSuffix(f[n + 1..], p - n - 1);
      ResumesBehind(f, n, p, k);
      k := k + 1;
    }
  }

  lemma ResumesAtOnce(f: string)
    ensures Resumes(f, 0, 0)
  {
    hide ScanLines;
    assert f[0..] == f;
    DropNone(ScanLines(f));
  }

  lemma ResumesBehind(f: string, n: nat, p: nat, k: nat)
    requires n == LineEnd(f) < p <= |f| && Resumes(f[n + 1..], p - n - 1, k)
    ensures Resumes(f, p, k + 1)
  {
    ScanRest(f, n, k);
    hide ScanLines, LineEnd;
    DropDrop(f, n + 1, p - n - 1);
  }

  /** Behind the first line come the lines of the rest. */
  lemma ScanRest(f: string, n: nat, m: nat)
    requires n == LineEnd(f) < |f| && m <= |ScanLines(f[n + 1..])|
    ensures m + 1 <= |ScanLines(f)| && ScanLines(f)[m + 1..] == ScanLines(f[n + 1..])[m..]
  {
    ScanFirst(f, n);
    hide ScanLines, DropCR, LineEnd;
    DropFront([DropCR(f[..n])], ScanLines(f[n + 1..]), m + 1);
  }

  lemma ScanFirst(f: string, n: nat)
    requires n == LineEnd(f) < |f|
    ensures ScanLines(f) == [DropCR(f[..n])] + ScanLines(f[n + 1..])
  {
    hide DropCR;
  }

  lemma {:induction false} CellsFew(ls: seq<string>)
    requires ls != [] ==> IsHeader(ls[0])
    ensures |Cells(ls)| <= |ls|
    decreases |ls|
  {
    if ls != [] { CellsFew(ls[NextHeader(ls, 1)..]); }
  }

  function Zip(commands: seq<string>, timestamps: seq<int>): seq<Entry>
    requires |commands| == |timestamps|
  {
    seq(|commands|, i requires 0 <= i < |commands| => Entry(timestamps[i], commands[i]))
  }

  lemma ParsedFew(ls: seq<string>, now: int)
    ensures |Parsed(ls, now)| <= |ls|
  {
    if NextHeader(ls, 0) < |ls| { CellsFew(ls[NextHeader(ls, 0)..]); }
  }

  lemma FewEnough(file: string, n: nat, p: nat, now: int)
    requires Answered(file, n, p)
    ensures |Parsed(ScanLines(file[p..]), now)| <= n
  {
    hide ScanLines, Parsed;
    KeptCount(file, n, p);
    ParsedFew(ScanLines(file[p..]), now);
  }

  lemma KeptCount(file: string, n: nat, p: nat)
    requires p < |file| && LinesFrom(file, p) <= n
    ensures |ScanLines(file[p..])| <= n
  {
    hide ScanLines, Newlines;
    ScanCount(file[p..]);
    NewlinesShift(file, p, p, |file| - 1);
  }

  // ---- writing and loading again ----

  /** A window without a header is the end of the last command. */
  lemma {:induction false} EndOfLast(h: seq<Entry>, k: nat)
    requires h != [] && AllWritable(h) && 0 < k <= |PrintedLines(h)| && Headers(PrintedLines(h), k) == |h|
    ensures EndOf(PrintedLines(h)[k..], Split(h[|h| - 1].command))
    decreases |h|
  {
    hide PrintedLines, Split, Headers, EndOf;
    var n := |Split(h[0].command)|;
    PrintedSize(h);
    PrintedSize(h[1..]);
    if k <= 1 + n {
      HeadersFirst(h, k);
      FirstWindow(h, k);
      EndFrom(Split(h[0].command), k - 1);
      assert PrintedLines(h[1..]) == [];
    } else {
      HeadersLater(h, k - 1 - n);
      BehindFirst(h, k - 1 - n);
      EndOfLast(h[1..], k - 1 - n);
    }
  }

  lemma SplitOne(c: string)
    ensures |Split(c)| == 1 <==> '\n' !in c
    ensures '\n' !in c ==> Split(c) == [c]
  {
    var n := LineEnd(c);
    assert n < |c| ==> c[n] in c;
  }

  /** Without a header the lines become commands of their own: the history is restored only if it
      is one entry of one line that was made just now. */
  lemma HeaderlessRestores(h: seq<Entry>, w: seq<string>, now: int)
    requires h != [] && w != [] && EndOf(w, Split(h[|h| - 1].command))
    ensures Plain(w, now) == h <==> |h| == 1 && h[0].timestamp == now && '\n' !in h[0].command
  {
    hide EndOf, Split;
    var last := h[|h| - 1].command;
    SplitOne(last);
    EndLast(w, Split(last));
    if |h| == 1 && '\n' !in last {
      assert |w| == 1 && w[0] == last;
      assert h == [h[0]] && Plain(w, now) == [Entry(now, last)];
    } else {
      JoinSplit(last);
      assert |Plain(w, now)| == |w| && Plain(w, now)[|w| - 1] == Entry(now, w[|w| - 1]);
    }
  }

  /** The scan begins at the beginning exactly when all lines fit and the overlap is harmless. */
  lemma WholeFileKept(f: string, n: nat, p: nat)
    requires Answered(f, n, p)
    ensures p == 0 <==> |ScanLines(f)| <= n && OverlapHarmless(f, n)
  {
    hide OverlapHarmless, Newlines, ScanLines;
    ScanCount(f);
    if |ScanLines(f)| <= n && OverlapHarmless(f, n) { BeginUnique(f, n, p, 0); }
  }

  lemma ScanFromCount(f: string, p: nat)
    requires p < |f|
    ensures |ScanLines(f[p..])| == LinesFrom(f, p)
  {
    hide ScanLines, Newlines;
    ScanCount(f[p..]);
    NewlinesShift(f, p, p, |f| - 1);
  }

  /** A later line start leaves fewer lines. */
  lemma LaterScan(f: string, p: nat) returns (k: nat)
    requires 0 < p < |f| && LineStart(f, p)
    ensures 0 < k < |ScanLines(f)| && ScanLines(f[p..]) == ScanLines(f)[k..]
  {
    hide ScanLines;
    k := ScanSuffix(f, p);
    ScanFromCount(f, p);
    ScanFromCount(f, 0);
    assert f[0..] == f;
    StartsApart(f, 0, p);
  }

  /** What is parsed from a written history cut at a line: whole entries, exactly those whose
      headers are among the lines that are left, as long as one is. */
  lemma LoadsNewest(h: seq<Entry>, p: nat, now: int)
    requires AllWritable(h) && p < |Print(h)| && LineStart(Print(h), p)
    ensures
      var cut := |PrintedLines(h)| - LinesFrom(Print(h), p);
      && cut >= 0 && Headers(PrintedLines(h), cut) <= |h|
      && (Headers(PrintedLines(h), cut) < |h| ==>
            Parsed(ScanLines(Print(h)[p..]), now) == h[Headers(PrintedLines(h), cut)..])
  {
    hide ScanLines, Parsed, PrintedLines, Headers, Newlines, Print;
    ScanPrinted(h);
    var k := ScanSuffix(Print(h), p);
    ScanFromCount(Print(h), p);
    WindowParses(h, k, now);
  }

  lemma {:induction false} SomeHeader(ls: seq<string>, k: nat)
    requires 0 < k <= |ls| && IsHeader(ls[0])
    ensures Headers(ls, k) >= 1
  {
    if k > 1 { SomeHeader(ls, k - 1); } else { assert Headers(ls, 0) == 0; }
  }

  /** A window that begins behind the first line restores the history only in that one case. */
  lemma WindowRestores(h: seq<Entry>, k: nat, now: int)
    requires h != [] && AllWritable(h) && 0 < k < |PrintedLines(h)|
    ensures Parsed(PrintedLines(h)[k..], now) == h <==>
            |h| == 1 && h[0].timestamp == now && '\n' !in h[0].command
  {
    WindowParses(h, k, now);
    CellsBack(h);
    SomeHeader(PrintedLines(h), k);
    if Headers(PrintedLines(h), k) == |h| {
      EndOfLast(h, k);
      HeaderlessRestores(h, PrintedLines(h)[k..], now);
    }
  }

  /** Loading what was written restores the history exactly when all its lines fit the limit and
      the overlap of the scan is harmless, or it is a single line made just now. The limit of
      commands is taken as one of lines, of which every entry has at least two. */
  lemma ReloadRestores(h: seq<Entry>, n: nat, p: nat, now: int)
    requires h != [] && AllWritable(h) && Answered(Print(h), n, p)
    ensures Parsed(ScanLines(Print(h)[p..]), now) == h <==>
            || (|PrintedLines(h)| <= n && OverlapHarmless(Print(h), n))
            || (|h| == 1 && h[0].timestamp == now && '\n' !in h[0].command)
  {
    hide OverlapHarmless, Answered, Parsed, ScanLines, PrintedLines, Print;
    ScanPrinted(h);
    WholeFileKept(Print(h), n, p);
    if p == 0 {
      HistoryRoundTrip(h, now);
      assert Print(h)[0..] == Print(h);
    } else {
      AnsweredStart(Print(h), n, p);
      var k := LaterScan(Print(h), p);
      WindowRestores(h, k, now);
    }
  }

  lemma {:induction false} TwoLinesEach(h: seq<Entry>)
    requires AllWritable(h)
    ensures |PrintedLines(h)| >= 2 * |h|
  {
    PrintedSize(h);
    if h != [] { TwoLinesEach(h[1..]); }
  }

  /** A full history of several commands never survives being written and loaded. */
  lemma FullHistoryLost(h: seq<Entry>, p: nat, now: int)
    requires |h| >= 2 && AllWritable(h) && Answered(Print(h), |h|, p)
    ensures Parsed(ScanLines(Print(h)[p..]), now) != h
  {
    hide Answered, Parsed, ScanLines, PrintedLines, Print, OverlapHarmless;
    ReloadRestores(h, |h|, p, now);
    TwoLinesEach(h);
  }

  lemma AnsweredStart(f: string, n: nat, p: nat)
    requires Answered(f, n, p)
    ensures p < |f| && LineStart(f, p)
  {
  }

  lemma NothingToLoad(now: int)
    ensures Parsed(ScanLines(""[0..]), now) == []
  {
    assert ""[0..] == "";
  }

  class CommandHistory {
    var commands: seq<string>
    var timestamps: seq<int>
    const maxCommands: int

    /** Both lists have the same length, which stays within a positive limit. */
    ghost predicate Valid()
      reads this
    {
      |commands| == |timestamps| && (maxCommands > 0 ==> |commands| <= maxCommands)
    }

    ghost function Entries(): seq<Entry>
      requires Valid()
      reads this
    {
      Zip(commands, timestamps)
    }

    constructor (maxCommands: int)
      ensures Valid() && Entries() == [] && this.maxCommands == maxCommands
    {
      commands, timestamps, this.maxCommands := [], [], maxCommands;
    }

    /** `load`, from the contents of the history file.  A limit of 0 keeps the whole file, a
        negative one counts as its absolute value. */
    method Load(file: string, now: int)
      modifies this
      ensures Valid()
      ensures file == "" ==> Entries() == []
      ensures file != "" && maxCommands == 0 ==> Entries() == Parsed(ScanLines(file), now)
      ensures file != "" && maxCommands != 0 ==>
        exists p: nat :: Answered(file, if maxCommands < 0 then -maxCommands else maxCommands, p)
                         && Entries() == Parsed(ScanLines(file[p..]), now)
    {
      NothingToLoad(now);
      hide ScanLines, Parsed, Newlines, OverlapHarmless, Answered;
      var p := GetLastNLinesBegin(file, maxCommands);
      if maxCommands > 0 && file != "" { AnsweredStart(file, maxCommands, p); FewEnough(file, maxCommands, p, now); }
      if maxCommands < 0 && file != "" { AnsweredStart(file, -maxCommands, p); }
      assert file[0..] == file;
      var cells := ParseHistoryCells(ScanLines(file[p..]), now);
      commands := seq(|cells|, i requires 0 <= i < |cells| => cells[i].command);
      timestamps := seq(|cells|, i requires 0 <= i < |cells| => cells[i].timestamp);
      assert Entries() == cells;
    }

    /** `appendCommand`: the oldest entry makes room when the limit is reached. */
    method AppendCommand(command: string, now: int)
      requires Valid()
      modifies this
      ensures Valid()
      ensures
        var all := old(Entries()) + [Entry(now, command)];
        Entries() == if |all| > maxCommands then all[1..] else all
    {
      commands := commands + [command];
      timestamps := timestamps + [now];
      if |commands| > maxCommands {
        commands := commands[1..];
        timestamps := timestamps[1..];
      }
    }

    /** `writeToFile`, as the contents it writes. */
    method WriteToFile() returns (file: string)
      requires Valid()
      ensures file == Print(Entries())
    {
      hide PrintEntry;
      file := "";
      ghost var h := Entries();
      assert h[0..] == h;
      for i := 0 to |commands|
        invariant file + Print(h[i..]) == Print(h)
      {
        PrintFrom(h, i);
        var entry := PrintEntry(Entry(timestamps[i], commands[i]));
        Assoc(file, entry, Print(h[i + 1..]));
        file := file + entry;
      }
      assert h[|commands|..] == [] && Print([]) == "";
    }
  }
}

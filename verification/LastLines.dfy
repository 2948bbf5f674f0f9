/**
 The two backward scanners that look for the last lines of a file, block by block, compared
 with the plain meaning of "the last N lines".
 */
module LastLines {

  /** Newlines among the bytes `a .. b`. */
  function Newlines(f: string, a: nat, b: nat): nat
    requires b <= |f|
    decreases f, b
  {
    if a >= b then 0 else Newlines(f, a, b - 1) + if f[b - 1] == '\n' then 1 else 0
  }

  lemma {:induction false} NewlinesSplit(f: string, a: nat, m: nat, b: nat)
    requires a <= m <= b <= |f|
    ensures Newlines(f, a, b) == Newlines(f, a, m) + Newlines(f, m, b)
    decreases b
  {
    if m < b { NewlinesSplit(f, a, m, b - 1); }
  }

  lemma NewlinesFirst(f: string, a: nat, b: nat)
    requires a < b <= |f|
    ensures Newlines(f, a, b) == (if f[a] == '\n' then 1 else 0) + Newlines(f, a + 1, b)
  {
    NewlinesSplit(f, a, a + 1, b);
  }

  /** A line begins here. */
  predicate LineStart(f: string, p: nat) {
    p == 0 || (p < |f| && f[p - 1] == '\n')
  }

  /** The number of lines that begin at `p` or later; a final newline begins no line. */
  function LinesFrom(f: string, p: nat): nat
    requires p < |f|
  {
    1 + Newlines(f, p, |f| - 1)
  }

  /** `p` is where the last `n` lines of the file begin, or the whole file when it has fewer. */
  predicate BeginsLast(f: string, n: nat, p: nat)
    requires f != ""
  {
    p < |f| && LineStart(f, p) && LinesFrom(f, p) == if LinesFrom(f, 0) < n then LinesFrom(f, 0) else n
  }

  /** Two line starts with as many lines after them are the same place. */
  lemma BeginUnique(f: string, n: nat, p: nat, q: nat)
    requires f != "" && BeginsLast(f, n, p) && BeginsLast(f, n, q)
    ensures p == q
  {
    if p < q { StartsApart(f, p, q); } else if q < p { StartsApart(f, q, p); }
  }

  lemma StartsApart(f: string, p: nat, q: nat)
    requires p < q < |f| && LineStart(f, q)
    ensures LinesFrom(f, q) < LinesFrom(f, p)
  {
    NewlinesSplit(f, p, q, |f| - 1);
    NewlinesSplit(f, p, q - 1, q);
  }

  // ---- GetLastNLinesBegin ----

  const BUF := 10000

  datatype Scan = Hit(pos: nat) | Miss(count: nat)

  /** The inner loop: counts newlines from `hi` down to `lo` until the target is reached. */
  method ScanBlock(f: string, lo: nat, hi: nat, count: nat, target: nat) returns (r: Scan)
    requires lo <= hi <= |f| && count < target
    ensures r.Miss? ==> r.count == count + Newlines(f, lo, hi) < target
    ensures r.Hit? ==>
      lo < r.pos <= hi && f[r.pos - 1] == '\n' && count + Newlines(f, r.pos - 1, hi) == target
    ensures r.Hit? <==> count + Newlines(f, lo, hi) >= target
  {
    var n := count;
    var i := hi;
    while i > lo
      invariant lo <= i <= hi
      invariant n == count + Newlines(f, i, hi) < target
    {
      i := i - 1;
      NewlinesFirst(f, i, hi);
      NewlinesSplit(f, lo, i, hi);
      if f[i] == '\n' { n := n + 1; }
      if n == target { return Hit(i + 1); }
    }
    r := Miss(n);
  }

  /** The part of the file the last block reads a second time. */
  function Overlap(size: nat): nat { size % BUF }

  /** Where the overlap makes no difference: there is none, the position is found before it, it
      holds no newline, or counting it twice still does not reach the number of lines. */
  predicate OverlapHarmless(f: string, n: nat)
    requires f != ""
  {
    var size, r, b := |f|, Overlap(|f|), BUF;
    || size <= b || r == 0
    || Newlines(f, r, size - 1) >= n
    || Newlines(f, r, b) == 0
    || Newlines(f, r, size - 1) + Newlines(f, 0, b) < n
  }

  /** What the scan answers when asked for `n` lines: a line start with no more lines after it,
      and the right one exactly when the overlap is harmless. */
  predicate Answered(f: string, n: nat, p: nat) {
    && p < |f| && LineStart(f, p) && LinesFrom(f, p) <= n
    && (BeginsLast(f, n, p) <==> OverlapHarmless(f, n))
  }

  /** The count before the scan reaches position `hi`, the last byte taken as a line end. */
  function CountAbove(f: string, hi: nat): nat
    requires f != "" && hi <= |f|
  {
    (if f[|f| - 1] == '\n' then 0 else 1) + Newlines(f, hi, |f|)
  }

  lemma CountAboveIs(f: string, hi: nat)
    requires f != "" && hi < |f|
    ensures CountAbove(f, hi) == 1 + Newlines(f, hi, |f| - 1)
  {
  }

  /** `GetLastNLinesBegin` */
  method GetLastNLinesBegin(f: string, lines: int) returns (pos: nat)
    ensures lines == 0 || f == "" ==> pos == 0
    ensures lines != 0 && f != "" ==> Answered(f, if lines < 0 then -lines else lines, pos)
  {
    if lines == 0 || f == "" { return 0; }
    var n: nat := if lines < 0 then -lines else lines;
    var size := |f|;
    var filePos := size - BUF;
    var newLines := if f[size - 1] != '\n' then 1 else 0;
    var lastPart := false;
    while true
      invariant 0 < filePos + BUF <= size && !lastPart
      invariant (size - (filePos + BUF)) % BUF == 0
      invariant newLines == CountAbove(f, filePos + BUF) <= n
      decreases filePos + BUF
    {
      ghost var above := filePos + BUF;
      if filePos < 0 {
        filePos := 0;
        lastPart := true;
      }
      var hi := if filePos + BUF <= size then filePos + BUF else size;
      var scan := ScanBlock(f, filePos, hi, newLines, n + 1);
      if above == hi { ScanExact(f, n, filePos, hi, scan); } else { ScanOverlapping(f, n, above, hi, scan); }
      match scan {
        case Hit(p) => return p;
        case Miss(c) => newLines := c;
      }
      if lastPart || filePos == 0 { break; }
      filePos := filePos - BUF;
    }
    pos := 0;
  }

  /** What the scan of a block says when it goes on exactly where the last one ended. */
  lemma ScanExact(f: string, n: nat, lo: nat, hi: nat, scan: Scan)
    requires f != "" && n > 0 && lo < hi <= |f| && CountAbove(f, hi) <= n
    requires lo == 0 || (hi == lo + BUF && (|f| - lo) % BUF == 0)
    requires lo == 0 ==> |f| <= BUF || (hi == BUF && |f| % BUF == 0)
    requires scan.Miss? ==> scan.count == CountAbove(f, hi) + Newlines(f, lo, hi) <= n
    requires scan.Hit? ==>
      lo < scan.pos <= hi && f[scan.pos - 1] == '\n' && CountAbove(f, hi) + Newlines(f, scan.pos - 1, hi) == n + 1
    ensures scan.Miss? ==> scan.count == CountAbove(f, lo)
    ensures scan.Miss? && lo == 0 ==> BeginsLast(f, n, 0) && OverlapHarmless(f, n)
    ensures scan.Hit? ==> scan.pos < |f| && BeginsLast(f, n, scan.pos) && OverlapHarmless(f, n)
  {
    NewlinesSplit(f, lo, hi, |f|);
    CountAboveIs(f, lo);
    if scan.Hit? {
      HitExact(f, n, hi, scan.pos);
      if lo > 0 { FoundBefore(f, n, lo, scan.pos); }
    }
  }

  lemma HitExact(f: string, n: nat, hi: nat, p: nat)
    requires f != "" && n > 0 && 0 < p <= hi <= |f| && f[p - 1] == '\n'
    requires CountAbove(f, hi) + Newlines(f, p - 1, hi) == n + 1
    ensures p < |f| && Newlines(f, p, |f| - 1) == n - 1 && BeginsLast(f, n, p)
  {
    NewlinesSplit(f, p - 1, hi, |f|);
    CountAboveIs(f, p - 1);
    assert p < |f|;
    NewlinesFirst(f, p - 1, |f| - 1);
    NewlinesSplit(f, 0, p - 1, |f| - 1);
  }

  lemma FoundBefore(f: string, n: nat, lo: nat, p: nat)
    requires 0 < lo < p < |f| && f[p - 1] == '\n' && Newlines(f, p, |f| - 1) == n - 1 && n > 0
    requires (|f| - lo) % BUF == 0
    ensures Newlines(f, Overlap(|f|), |f| - 1) >= n
  {
    var r := Overlap(|f|);
    assert r <= lo;
    NewlinesSplit(f, r, p - 1, |f| - 1);
    NewlinesFirst(f, p - 1, |f| - 1);
  }

  /** What the last block says when it reads bytes a second time. */
  lemma ScanOverlapping(f: string, n: nat, r: nat, b: nat, scan: Scan)
    requires n > 0 && b == BUF && 0 < r < b < |f| && r == Overlap(|f|) && CountAbove(f, r) <= n
    requires scan.Miss? ==> scan.count == CountAbove(f, r) + Newlines(f, 0, b) <= n
    requires scan.Hit? ==>
      0 < scan.pos <= b && f[scan.pos - 1] == '\n' && CountAbove(f, r) + Newlines(f, scan.pos - 1, b) == n + 1
    ensures scan.Miss? ==> BeginsLast(f, n, 0) && OverlapHarmless(f, n)
    ensures scan.Hit? ==>
      && scan.pos < |f| && LinesFrom(f, scan.pos) <= n
      && (BeginsLast(f, n, scan.pos) <==> OverlapHarmless(f, n))
  {
    CountAboveIs(f, r);
    if scan.Hit? {
      HitTwice(f, n, r, b, scan.pos);
    } else {
      MissTwice(f, n, r, b);
    }
  }

  lemma MissTwice(f: string, n: nat, r: nat, b: nat)
    requires 0 < r < b < |f| && Newlines(f, r, |f| - 1) + Newlines(f, 0, b) < n
    ensures LinesFrom(f, 0) <= n
  {
    NewlinesSplit(f, 0, r, b);
    NewlinesSplit(f, 0, r, |f| - 1);
  }

  lemma HitTwice(f: string, n: nat, r: nat, b: nat, p: nat)
    requires n > 0 && 0 < r < b < |f| && 1 + Newlines(f, r, |f| - 1) <= n
    requires 0 < p <= b && f[p - 1] == '\n' && Newlines(f, r, |f| - 1) + Newlines(f, p - 1, b) == n
    ensures p < |f| && LinesFrom(f, p) <= n
    ensures BeginsLast(f, n, p) <==> Newlines(f, r, b) == 0
    ensures Newlines(f, r, |f| - 1) + Newlines(f, 0, b) >= n
  {
    NewlinesFirst(f, p - 1, b);
    NewlinesSplit(f, 0, p - 1, b);
    NewlinesFirst(f, p - 1, |f| - 1);
    if p <= r {
      NewlinesSplit(f, p, r, b);
      NewlinesSplit(f, p, r, |f| - 1);
      NewlinesSplit(f, 0, p - 1, |f| - 1);
      assert LinesFrom(f, p) == n - Newlines(f, r, b);
      assert LinesFrom(f, 0) > LinesFrom(f, p);
    } else {
      NewlinesSplit(f, r, p - 1, |f| - 1);
      NewlinesSplit(f, r, p - 1, b);
      NewlinesSplit(f, 0, r, |f| - 1);
      assert LinesFrom(f, p) < n && LinesFrom(f, p) < LinesFrom(f, 0);
    }
  }

  /** The answer is right for every file of at most 10000 bytes, or of a multiple of that. */
  lemma ExactSizes(f: string, n: nat, p: nat)
    requires Answered(f, n, p) && (|f| <= 10000 || |f| % 10000 == 0)
    ensures BeginsLast(f, n, p)
  {
    hide Newlines;
  }

  /** A file just over one buffer, with its only newline in the middle. */
  function TwoLines(): string { seq(BUF + 1, i => if i == 5000 then '\n' else 'x') }

  lemma {:induction false} OneNewline(f: string, k: nat, a: nat, b: nat)
    requires b <= |f| && forall i :: a <= i < b ==> (f[i] == '\n' <==> i == k)
    ensures Newlines(f, a, b) == if a <= k < b then 1 else 0
    decreases b
  {
    if a < b { OneNewline(f, k, a, b - 1); }
  }

  /** The overlap does harm: asked for two lines of a file that has two, the scanner answers with
      the beginning of the second. */
  lemma OverlapHarms(p: nat)
    requires Answered(TwoLines(), 2, p)
    ensures BeginsLast(TwoLines(), 2, 0) && p == 5001 && LinesFrom(TwoLines(), p) == 1
  {
    LosesFirstLine(TwoLines(), 5000, p);
  }

  /** So it does with every file one byte longer than the buffer whose only newline is inside. */
  lemma LosesFirstLine(f: string, k: nat, p: nat)
    requires |f| == BUF + 1 && 0 < k < BUF && forall i :: 0 <= i < |f| ==> (f[i] == '\n' <==> i == k)
    requires Answered(f, 2, p)
    ensures BeginsLast(f, 2, 0) && p == k + 1 && LinesFrom(f, p) == 1
  {
    hide Newlines;
    OneNewline(f, k, 1, |f| - 1);
    OneNewline(f, k, 0, |f| - 1);
    OneNewline(f, k, p, |f| - 1);
  }

  // ---- newTailReader ----

  const BLOCK := 8192

  /** The first byte of every block is never looked at. */
  predicate Skipped(size: nat, q: nat) {
    q == 0 || (q < size - 1 && (size - 1 - q) % BLOCK == 0)
  }

  /** Newlines the scan can see. */
  function Seen(f: string, a: nat, b: nat): nat
    requires b <= |f|
    decreases b
  {
    if a >= b then 0 else Seen(f, a, b - 1) + if f[b - 1] == '\n' && !Skipped(|f|, b - 1) then 1 else 0
  }

  lemma {:induction false} SeenSplit(f: string, a: nat, m: nat, b: nat)
    requires a <= m <= b <= |f|
    ensures Seen(f, a, b) == Seen(f, a, m) + Seen(f, m, b)
    decreases b
  {
    if m < b { SeenSplit(f, a, m, b - 1); }
  }

  lemma SeenFirst(f: string, i: nat)
    requires i < |f| - 1
    ensures Seen(f, i, |f| - 1) == Seen(f, i + 1, |f| - 1) + if f[i] == '\n' && !Skipped(|f|, i) then 1 else 0
    ensures Seen(f, 0, |f| - 1) >= Seen(f, i, |f| - 1)
  {
    SeenSplit(f, i, i + 1, |f| - 1);
    SeenSplit(f, 0, i, |f| - 1);
  }

  /** The scan sees every newline unless one lies at the start of a block. */
  lemma {:induction false} SeenBelow(f: string, a: nat, b: nat)
    requires b <= |f|
    ensures Seen(f, a, b) <= Newlines(f, a, b)
    ensures Seen(f, a, b) == Newlines(f, a, b) <==>
      forall q :: a <= q < b && Skipped(|f|, q) ==> f[q] != '\n'
    decreases b
  {
    if a < b { SeenBelow(f, a, b - 1); }
  }

  /** No newline among the last `n` stands at the start of a block. */
  ghost predicate BlocksHarmless(f: string, n: nat)
    requires f != ""
  {
    || Newlines(f, 0, |f| - 1) < n
    || forall q :: 0 <= q < |f| - 1 && Skipped(|f|, q) && f[q] == '\n' ==> Newlines(f, q, |f| - 1) > n
  }

  /** The position the tail reader settles on. */
  ghost predicate TailAt(f: string, n: nat, p: nat)
    requires f != "" && n > 0
  {
    if Seen(f, 0, |f| - 1) < n then p == 0
    else 0 < p < |f| && f[p - 1] == '\n' && !Skipped(|f|, p - 1) && Seen(f, p - 1, |f| - 1) == n
  }

  /** A skipped newline does harm: asked for the last line, the reader begins with the first. */
  lemma SkippingHarms(p: nat)
    requires TailAt("\nab", 1, p)
    ensures p == 0 && LinesFrom("\nab", p) == 2 && BeginsLast("\nab", 1, 1)
  {
    var f := "\nab";
    assert f[0] == '\n' && f[1] == 'a';
    assert Newlines(f, 0, 1) == 1 && Newlines(f, 0, 2) == 1 && Newlines(f, 1, 2) == 0;
    assert Seen(f, 0, 1) == 0 && Seen(f, 0, 2) == 0;
  }

  lemma TailNeverDrops(f: string, n: nat, p: nat)
    requires f != "" && n > 0 && TailAt(f, n, p)
    ensures p < |f| && LineStart(f, p)
    ensures LinesFrom(f, p) >= if LinesFrom(f, 0) < n then LinesFrom(f, 0) else n
    ensures BeginsLast(f, n, p) <==> BlocksHarmless(f, n)
  {
    var e := |f| - 1;
    SeenBelow(f, 0, e);
    if Seen(f, 0, e) < n {
      if Newlines(f, 0, e) >= n { SomethingSkipped(f, n, 0, e); }
    } else {
      SeenBelow(f, p - 1, e);
      NewlinesFirst(f, p - 1, e);
      NewlinesSplit(f, 0, p - 1, e);
      if Newlines(f, p - 1, e) > n {
        SomethingSkipped(f, n, p - 1, e);
      } else {
        NothingSkipped(f, n, p - 1, e);
      }
    }
  }

  /** The reader is exact when no block of 8192 bytes, counted back from the last byte, begins with
      a newline. */
  lemma TailExact(f: string, n: nat, p: nat)
    requires f != "" && n > 0 && TailAt(f, n, p) && f[0] != '\n'
    requires forall q :: 0 <= q < |f| - 1 && (|f| - 1 - q) % 8192 == 0 ==> f[q] != '\n'
    ensures BeginsLast(f, n, p)
  {
    TailNeverDrops(f, n, p);
    hide TailAt, BeginsLast, Newlines;
    forall q | 0 <= q < |f| - 1 && Skipped(|f|, q) ensures f[q] != '\n' {
    }
  }

  /** Too few newlines were seen, so one of the last `n` was skipped. */
  lemma SomethingSkipped(f: string, n: nat, a: nat, e: nat)
    requires e < |f| && e == |f| - 1 && a <= e && Newlines(f, a, e) >= n && n > 0
    requires
      || Seen(f, a, e) < n
      || (Seen(f, a, e) == n < Newlines(f, a, e) && a < e && f[a] == '\n' && !Skipped(|f|, a))
    ensures !BlocksHarmless(f, n)
  {
    NewlinesSplit(f, 0, a, e);
    var k := NthFromEnd(f, n, a, e);
    SeenBelow(f, k, e);
    SeenSplit(f, a, k, e);
    if a < k && Seen(f, a, e) == n {
      SeenSplit(f, a, a + 1, k);
    }
    if a == k && Seen(f, a, e) == n { assert false; }
    assert Seen(f, k, e) < n;
    var q :| k <= q < e && Skipped(|f|, q) && f[q] == '\n';
    NewlinesSplit(f, k, q, e);
  }

  /** The newline from which on there are exactly `n`. */
  lemma {:induction false} NthFromEnd(f: string, n: nat, a: nat, e: nat) returns (k: nat)
    requires a <= e < |f| && Newlines(f, a, e) >= n && n > 0
    ensures a <= k < e && f[k] == '\n' && Newlines(f, k, e) == n
    decreases e - a
  {
    if a == e { assert false; }
    NewlinesFirst(f, a, e);
    if f[a] == '\n' && Newlines(f, a, e) == n { k := a; } else { k := NthFromEnd(f, n, a + 1, e); }
  }

  lemma NothingSkipped(f: string, n: nat, a: nat, e: nat)
    requires e < |f| && e == |f| - 1 && a < e && Newlines(f, a, e) == Seen(f, a, e) == n
    ensures BlocksHarmless(f, n)
  {
    SeenBelow(f, a, e);
    forall q | 0 <= q < e && Skipped(|f|, q) && f[q] == '\n' ensures Newlines(f, q, e) > n {
      assert q < a;
      NewlinesFirst(f, q, e);
      NewlinesSplit(f, q + 1, a, e);
    }
  }

  /** `newTailReader`, as the position its reader starts from. */
  method TailStart(f: string, count: int) returns (pos: nat)
    ensures count <= 0 ==> pos == |f|
    ensures count > 0 && f == "" ==> pos == 0
    ensures count > 0 && f != "" ==> TailAt(f, count, pos)
  {
    if count <= 0 { return |f|; }
    if f == "" { return 0; }
    var end := |f|;
    var startPos: int := end;
    var readOffset := end - 1;
    var found := 0;
    while readOffset != 0 && found != count
      invariant 0 <= readOffset <= end - 1 && readOffset < startPos - 1 + (if startPos == end then 1 else 0)
      invariant readOffset == 0 || (end - 1 - readOffset) % BLOCK == 0
      invariant found <= count
      invariant found < count ==> found == Seen(f, readOffset, end - 1)
      invariant found == count ==> TailAt(f, count, startPos)
      decreases readOffset, count - found
    {
      var hi := readOffset;
      readOffset := if readOffset < BLOCK then 0 else readOffset - BLOCK;
      var i := hi - 1;
      while i > readOffset
        invariant readOffset <= i < hi
        invariant i + 1 < startPos
        invariant found == Seen(f, i + 1, end - 1) < count
      {
        InsideBlock(end, readOffset, hi, i);
        SeenFirst(f, i);
        if f[i] == '\n' {
          if startPos - i == 1 {
            startPos := i;
          } else {
            startPos := i + 1;
          }
          found := found + 1;
          if found == count { break; }
        }
        i := i - 1;
      }
      assert Skipped(end, readOffset);
      SeenFirst(f, readOffset);
    }
    pos := if found == count then startPos else 0;
  }

  lemma InsideBlock(size: nat, lo: nat, hi: nat, i: nat)
    requires lo < i < hi <= size - 1 && (size - 1 - hi) % BLOCK == 0 && hi - lo <= BLOCK
    ensures !Skipped(size, i)
  {
  }
}

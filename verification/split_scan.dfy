/** The five index scans of pkg/channels/split.go and the greedy fence scanner they share. */
module SplitScan {

  // ------------------------------------------------------------- specifications

  /** The last index in [lo, hi) holding a rune of the wanted kind, or -1. */
  function LastIn(r: string, lo: int, hi: int, newline: bool): (i: int)
    requires 0 <= lo && hi <= |r|
    ensures i == -1 || lo <= i < hi
    ensures i >= 0 ==> Wanted(r[i], newline)
    decreases hi - lo
  {
    if hi <= lo then -1
    else if Wanted(r[hi - 1], newline) then hi - 1
    else LastIn(r, lo, hi - 1, newline)
  }

  /** ... and it is the last one. */
  lemma {:induction false} LastInIsLast(r: string, lo: int, hi: int, newline: bool)
    requires 0 <= lo && hi <= |r|
    ensures var i := LastIn(r, lo, hi, newline);
            forall j :: (if i >= 0 then i + 1 else lo) <= j < hi ==> !Wanted(r[j], newline)
    decreases hi - lo
  {
    if lo < hi && !Wanted(r[hi - 1], newline) {
      LastInIsLast(r, lo, hi - 1, newline);
    }
  }

  predicate Wanted(c: char, newline: bool) {
    if newline then c == '\n' else c == ' ' || c == '\t'
  }

  function Max(a: int, b: int): int { if a > b then a else b }
  function Min(a: int, b: int): int { if a < b then a else b }

  /** The result of the two backward searches: an index, or `start - 1`. */
  function LastInWindow(r: string, start: int, end: int, window: nat, newline: bool): (i: int)
    requires 0 <= start <= end <= |r|
    ensures start - 1 <= i < end || i == start - 1
  {
    var k := LastIn(r, Max(end - window, start), end, newline);
    if k < 0 then start - 1 else k
  }

  /** The first newline at or after `from`, or -1. */
  function NextNewline(r: string, from: nat): (i: int)
    requires from <= |r|
    ensures i == -1 || from <= i < |r|
    ensures i >= 0 ==> r[i] == '\n'
    decreases |r| - from
  {
    if from == |r| then -1
    else if r[from] == '\n' then from
    else NextNewline(r, from + 1)
  }

  lemma {:induction false} NextNewlineIsFirst(r: string, from: nat)
    requires from <= |r|
    ensures var i := NextNewline(r, from);
            forall j :: from <= j < (if i >= 0 then i else |r|) ==> r[j] != '\n'
    decreases |r| - from
  {
    if from < |r| && r[from] != '\n' {
      NextNewlineIsFirst(r, from + 1);
    }
  }

  lemma {:induction false} NextNewlineIs(r: string, from: nat, at: int)
    requires from <= |r|
    requires at == -1 || (from <= at < |r| && r[at] == '\n')
    requires forall j :: from <= j < (if at == -1 then |r| else at) ==> r[j] != '\n'
    ensures NextNewline(r, from) == at
    decreases |r| - from
  {
    if from < |r| && r[from] != '\n' {
      NextNewlineIs(r, from + 1, at);
    }
  }

  /** Three backticks at `i`, all inside r[..end]. */
  predicate FenceAt(r: string, i: int, end: int)
    requires 0 <= i && end <= |r|
  {
    i + 3 <= end && r[i] == '`' && r[i + 1] == '`' && r[i + 2] == '`'
  }

  /** How many fences the greedy scanner meets in r[i..end]. */
  function Count(r: string, i: int, end: int): nat
    requires 0 <= i && end <= |r|
    decreases end - i
  {
    if i >= end then 0
    else if FenceAt(r, i, end) then 1 + Count(r, i + 3, end)
    else Count(r, i + 1, end)
  }

  /** The index of the opening fence left open by the greedy scanner, or -1. */
  function Unclosed(r: string, i: int, end: int, inBlock: bool, open: int): int
    requires 0 <= i && end <= |r|
    decreases end - i
  {
    if i >= end then if inBlock then open else -1
    else if FenceAt(r, i, end) then Unclosed(r, i + 3, end, !inBlock, if inBlock then open else i)
    else Unclosed(r, i + 1, end, inBlock, open)
  }

  /** The index just after the first fence at or after `from`, or -1. */
  function NextClosing(r: string, from: int, end: int): (c: int)
    requires 0 <= from && end <= |r|
    ensures c == -1 || from + 3 <= c <= end
    ensures c >= 0 ==> FenceAt(r, c - 3, end)
    decreases end - from
  {
    if from >= end then -1
    else if FenceAt(r, from, end) then from + 3
    else NextClosing(r, from + 1, end)
  }

  lemma {:induction false} NextClosingIsFirst(r: string, from: int, end: int)
    requires 0 <= from && end <= |r|
    ensures var c := NextClosing(r, from, end);
            forall j :: from <= j && j + 3 <= end && (c >= 0 ==> j < c - 3) ==> !FenceAt(r, j, end)
    decreases end - from
  {
    if from < end && !FenceAt(r, from, end) {
      NextClosingIsFirst(r, from + 1, end);
    }
  }

  lemma {:induction false} NoClosing(r: string, from: int, end: int)
    requires 0 <= from && end <= |r|
    requires forall j :: from <= j && j + 3 <= end ==> !FenceAt(r, j, end)
    ensures NextClosing(r, from, end) == -1
    decreases end - from
  {
    if from < end {
      NoClosing(r, from + 1, end);
    }
  }

  // -------------------------------------------------------------------- methods

  method FindLastNewlineInRange(r: string, start: int, end: int, window: nat) returns (idx: int)
    requires 0 <= start <= end <= |r|
    ensures idx == LastInWindow(r, start, end, window, true)
  {
    var searchStart := Max(end - window, start);
    var i := end - 1;
    while i >= searchStart
      invariant searchStart - 1 <= i < end || i == end - 1
      invariant LastIn(r, searchStart, end, true) == LastIn(r, searchStart, i + 1, true)
    {
      if r[i] == '\n' {
        return i;
      }
      i := i - 1;
    }
    return start - 1;
  }

  method FindLastSpaceInRange(r: string, start: int, end: int, window: nat) returns (idx: int)
    requires 0 <= start <= end <= |r|
    ensures idx == LastInWindow(r, start, end, window, false)
  {
    var searchStart := Max(end - window, start);
    var i := end - 1;
    while i >= searchStart
      invariant searchStart - 1 <= i < end || i == end - 1
      invariant LastIn(r, searchStart, end, false) == LastIn(r, searchStart, i + 1, false)
    {
      if r[i] == ' ' || r[i] == '\t' {
        return i;
      }
      i := i - 1;
    }
    return start - 1;
  }

  method FindNewlineFrom(r: string, from: nat) returns (idx: int)
    requires from <= |r|
    ensures idx == NextNewline(r, from)
  {
    for i := from to |r|
      invariant NextNewline(r, from) == NextNewline(r, i)
    {
      if r[i] == '\n' {
        return i;
      }
    }
    return -1;
  }

  method FindLastUnclosedCodeBlockInRange(r: string, start: nat, end: nat) returns (idx: int)
    requires end <= |r|
    ensures idx == Unclosed(r, start, end, false, -1)
  {
    var inCodeBlock := false;
    var lastOpenIdx := -1;
    var i := start;
    while i < end
      invariant 0 <= i
      invariant Unclosed(r, start, end, false, -1) == Unclosed(r, i, end, inCodeBlock, lastOpenIdx)
    {
      if i + 2 < end && r[i] == '`' && r[i + 1] == '`' && r[i + 2] == '`' {
        if !inCodeBlock {
          lastOpenIdx := i;
        }
        inCodeBlock := !inCodeBlock;
        i := i + 2;
      }
      i := i + 1;
    }
    if inCodeBlock {
      return lastOpenIdx;
    }
    return -1;
  }

  method FindNextClosingCodeBlockInRange(r: string, startIdx: nat, end: nat) returns (idx: int)
    requires end <= |r|
    ensures idx == NextClosing(r, startIdx, end)
  {
    var i := startIdx;
    while i < end
      invariant 0 <= i
      invariant NextClosing(r, startIdx, end) == NextClosing(r, i, end)
    {
      if i + 2 < end && r[i] == '`' && r[i + 1] == '`' && r[i + 2] == '`' {
        return i + 3;
      }
      i := i + 1;
    }
    return -1;
  }

  // ------------------------------------------------------- the greedy scanner

  /** The scanner reports an open block exactly when it met an odd number of fences; the
      index it reports is then a fence before which the count is even. */
  lemma {:induction false} UnclosedMeaning(r: string, i: int, end: int, inBlock: bool, open: int)
    requires 0 <= i && end <= |r|
    requires inBlock ==> 0 <= open
    ensures Unclosed(r, i, end, inBlock, open) >= 0 <==>
            (Count(r, i, end) + (if inBlock then 1 else 0)) % 2 == 1
    ensures var u := Unclosed(r, i, end, inBlock, open);
            u == -1 || (inBlock && u == open) || (i <= u && FenceAt(r, u, end) && EvenBefore(r, i, u, inBlock))
    decreases end - i
  {
    if i >= end {
    } else if FenceAt(r, i, end) {
      UnclosedMeaning(r, i + 3, end, !inBlock, if inBlock then open else i);
      var u := Unclosed(r, i + 3, end, !inBlock, if inBlock then open else i);
      if i + 3 <= u <= end {
        assert Count(r, i, u) == 1 + Count(r, i + 3, u);
      }
    } else {
      UnclosedMeaning(r, i + 1, end, inBlock, open);
      var u := Unclosed(r, i + 1, end, inBlock, open);
      if i + 1 <= u <= end {
        SkipOne(r, i, u, end);
      }
    }
  }

  predicate EvenBefore(r: string, i: int, u: int, inBlock: bool)
    requires 0 <= i
  {
    u <= |r| && (Count(r, i, u) + (if inBlock then 1 else 0)) % 2 == 0
  }

  lemma SkipOne(r: string, i: int, u: int, end: int)
    requires 0 <= i < u <= end <= |r|
    requires !FenceAt(r, i, end)
    ensures Count(r, i, u) == Count(r, i + 1, u)
  {
  }

  /** Where the greedy scanner of r[i..end] first stands at or beyond `cut`. It stands beyond
      it exactly when a fence it met straddles the cut. */
  function Edge(r: string, i: int, cut: int, end: int): (e: int)
    requires 0 <= i && cut <= end <= |r|
    ensures e >= cut && e >= i
    ensures i <= cut ==> e <= cut + 2 && e <= end
    decreases cut - i
  {
    if i >= cut then i
    else if FenceAt(r, i, end) then Edge(r, i + 3, cut, end)
    else Edge(r, i + 1, cut, end)
  }

  /** Splitting a scan at a cut: the fences before the cut, the one that straddles it if any,
      and those the scanner meets from there on. */
  lemma {:induction false} CountSplits(r: string, i: int, cut: int, end: int)
    requires 0 <= i <= cut <= end <= |r|
    ensures var e := Edge(r, i, cut, end);
            Count(r, i, end) == Count(r, i, cut) + (if e > cut then 1 else 0) + Count(r, e, end)
    decreases cut - i
  {
    if i < cut {
      if FenceAt(r, i, end) {
        if i + 3 <= cut {
          CountSplits(r, i + 3, cut, end);
        } else {
          CountOfShort(r, i, cut);
        }
      } else {
        CountSplits(r, i + 1, cut, end);
      }
    }
  }

  lemma CountOfShort(r: string, i: int, end: int)
    requires 0 <= i && end <= |r| && end < i + 3
    ensures Count(r, i, end) == 0
    decreases end - i
  {
    if i < end {
      CountOfShort(r, i + 1, end);
    }
  }

  /** No fence starts in [i, end): the scanner counts nothing. */
  lemma {:induction false} CountNone(r: string, i: int, end: int)
    requires 0 <= i && end <= |r|
    requires forall j :: i <= j && j + 3 <= end ==> !FenceAt(r, j, end)
    ensures Count(r, i, end) == 0
    decreases end - i
  {
    if i < end {
      CountNone(r, i + 1, end);
    }
  }

  /** ... and an open block stays open. */
  lemma {:induction false} UnclosedNone(r: string, i: int, end: int, open: int)
    requires 0 <= i && end <= |r|
    requires forall j :: i <= j && j + 3 <= end ==> !FenceAt(r, j, end)
    ensures Unclosed(r, i, end, true, open) == open
    decreases end - i
  {
    if i < end {
      UnclosedNone(r, i + 1, end, open);
    }
  }

  /** A cut with a rune other than a backtick on either side is never straddled. */
  lemma {:induction false} EdgeAtCleanCut(r: string, i: int, cut: int, end: int)
    requires 0 <= i <= cut <= end <= |r|
    requires cut == 0 || cut == |r| || r[cut - 1] != '`' || r[cut] != '`'
    ensures Edge(r, i, cut, end) == cut
    decreases cut - i
  {
    if i < cut {
      if FenceAt(r, i, end) {
        assert i + 3 <= cut;
        EdgeAtCleanCut(r, i + 3, cut, end);
      } else {
        EdgeAtCleanCut(r, i + 1, cut, end);
      }
    }
  }

  /** The scanner only looks at the runes of the range, so equal ranges count alike. */
  lemma {:induction false} CountShift(r: string, i: int, end: int, q: string, d: int, qend: int)
    requires 0 <= i && end <= |r| && 0 <= i + d && qend == end + d && qend <= |q|
    requires forall j :: i <= j < end ==> q[j + d] == r[j]
    ensures Count(r, i, end) == Count(q, i + d, qend)
    decreases end - i
  {
    if i < end {
      if FenceAt(r, i, end) {
        assert q[i + d] == r[i] && q[i + 1 + d] == r[i + 1] && q[i + 2 + d] == r[i + 2];
        CountShift(r, i + 3, end, q, d, qend);
      } else {
        if i + 3 <= end {
          assert q[i + d] == r[i] && q[i + 1 + d] == r[i + 1] && q[i + 2 + d] == r[i + 2];
        }
        CountShift(r, i + 1, end, q, d, qend);
      }
    }
  }
}

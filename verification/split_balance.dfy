/** Which chunks carry an even number of fences, so that each renders on its own. */
module SplitBalance {
  import opened GoStrings
  import opened SplitScan
  import opened SplitModel
  import SplitTermination
  import Iteration

  function Fences(s: string): nat {
    Count(s, 0, |s|)
  }

  ghost predicate Balanced(s: string) {
    Fences(s) % 2 == 0
  }

  lemma FencesOfSlice(r: string, start: nat, end: nat)
    requires start <= end <= |r|
    ensures Fences(r[start..end]) == Count(r, start, end)
  {
    CountShift(r[start..end], 0, end - start, r, start, end);
  }

  lemma FencesOfTrimmed(s: string)
    ensures Fences(TrimRight(s, AsciiBlank)) == Fences(s)
  {
    var n := TrimmedLen(s, AsciiBlank);
    TrimmedLenFacts(s, AsciiBlank);
    assert forall i :: n <= i < |s| ==> In(AsciiBlank, s[i]);
    EdgeAtCleanCut(s, 0, n, |s|);
    CountSplits(s, 0, n, |s|);
    CountNone(s, n, |s|);
    FencesOfSlice(s, 0, n);
    assert s[0..n] == s[..n];
  }

  /** The injected closing fence counts as exactly one. */
  lemma FencesOfClosed(s: string)
    ensures Fences(s + "\n```") == Fences(s) + 1
  {
    var q := s + "\n```";
    var n := |s|;
    assert q[n] == '\n' && q[n + 1] == '`' && q[n + 2] == '`' && q[n + 3] == '`';
    EdgeAtCleanCut(q, 0, n, n + 4);
    CountSplits(q, 0, n, n + 4);
    assert Count(q, n + 4, n + 4) == 0;
    assert Count(q, n + 1, n + 4) == 1;
    FencesOfSlice(q, 0, n);
    assert q[0..n] == s;
  }

  /** The chunk an iteration emits when it cuts. */
  function ChunkOf(r: string, start: nat, d: Decision): string
    requires start <= d.cut <= |r|
  {
    if d.Reopens() then TrimRight(r[start..d.cut], AsciiBlank) + "\n```" else r[start..d.cut]
  }

  /** `ChunkOf` is what the loop appends. */
  lemma AdvanceEmits(p: Progress, maxLen: Limit)
    requires p.Valid() && !p.done && |p.cells| - p.start > maxLen
    ensures var d := Decide(Chars(p.cells), p.start, maxLen);
            var q := Advance(p, maxLen);
            && |q.pieces| == |p.pieces| + 1 && q.pieces[..|p.pieces|] == p.pieces
            && Chars(q.pieces[|p.pieces|]) == ChunkOf(Chars(p.cells), p.start, d)
  {
    var d := Decide(Chars(p.cells), p.start, maxLen);
    var x := p.cells[p.start..d.cut];
    CharsSlice(p.cells, p.start, d.cut);
    CharsTrimRight(x, AsciiBlank);
    CharsConcat(TrimRightCells(x, AsciiBlank), Inject("\n```"));
    CharsInject("\n```");
  }

  /** No fence straddles the tentative cut. */
  ghost predicate CleanCut(r: string, start: nat, tentative: nat, end: nat)
    requires start <= tentative <= end <= |r|
  {
    Edge(r, start, tentative, end) == tentative
  }

  ghost predicate OutsideBackticks(r: string, t: int) {
    0 < t < |r| && (r[t - 1] != '`' || r[t] != '`')
  }

  /** Cutting where no block is open, or right at the fence that opens one, always leaves a
      balanced chunk. */
  lemma UncutBlocksBalance(r: string, start: nat, maxLen: int)
    requires maxLen >= 1 && |r| - start > maxLen
    ensures var d := Decide(r, start, maxLen);
            d.Natural? || d.AtFence? ==> Balanced(ChunkOf(r, start, d))
  {
    var d := Decide(r, start, maxLen);
    UnclosedMeaning(r, start, Tentative(r, start, maxLen), false, -1);
    if d.AtFence? {
      var fence := SplitTermination.OpenFence(r, start, maxLen);
    }
    FencesOfSlice(r, start, d.cut);
  }

  /** A chunk extended to the closing fence is balanced exactly when no fence straddles the
      tentative cut, or the straddling one already overlaps the closing one. */
  lemma ExtendedBalance(r: string, start: nat, maxLen: int)
    requires maxLen >= 1 && |r| - start > maxLen
    requires Decide(r, start, maxLen).Extended?
    ensures var d := Decide(r, start, maxLen);
            && start <= d.tentative <= d.cut - 3 && d.cut <= |r|
            && (Balanced(ChunkOf(r, start, d)) <==>
                CleanCut(r, start, d.tentative, d.cut) || Edge(r, start, d.tentative, d.cut) > d.cut - 3)
            && (OutsideBackticks(r, d.tentative) ==> Balanced(ChunkOf(r, start, d)))
  {
    var d := Decide(r, start, maxLen);
    UnclosedMeaning(r, start, d.tentative, false, -1);
    NextClosingIsFirst(r, d.tentative, |r|);
    ExtendedSliceBalance(r, start, d.tentative, d.cut);
  }

  lemma ExtendedSliceBalance(r: string, start: nat, t: nat, c: nat)
    requires start <= t <= c - 3 && c <= |r|
    requires Count(r, start, t) % 2 == 1
    requires FenceAt(r, c - 3, |r|) && forall j :: t <= j < c - 3 ==> !FenceAt(r, j, |r|)
    ensures Balanced(r[start..c]) <==> CleanCut(r, start, t, c) || Edge(r, start, t, c) > c - 3
    ensures OutsideBackticks(r, t) ==> Balanced(r[start..c])
  {
    FencesOfSlice(r, start, c);
    CountSplits(r, start, t, c);
    var e := Edge(r, start, t, c);
    if e <= c - 3 {
      FirstFenceLast(r, e, c);
    } else {
      CountOfShort(r, e, c);
    }
    if OutsideBackticks(r, t) {
      EdgeAtCleanCut(r, start, t, c);
    }
  }

  /** The scanner meets exactly one fence when the only one lies at the end of the range. */
  lemma {:induction false} FirstFenceLast(r: string, e: int, c: int)
    requires 0 <= e <= c - 3 && c <= |r|
    requires FenceAt(r, c - 3, |r|)
    requires forall j :: e <= j < c - 3 ==> !FenceAt(r, j, |r|)
    ensures Count(r, e, c) == 1
    decreases c - e
  {
    if e == c - 3 {
      assert FenceAt(r, e, c) && Count(r, c, c) == 0;
    } else {
      assert !FenceAt(r, e, |r|);
      FirstFenceLast(r, e + 1, c);
    }
  }

  lemma ClosedSliceBalance(r: string, start: nat, t: nat, c: nat)
    requires start <= t <= c <= |r|
    requires Count(r, start, t) % 2 == 1
    requires forall j :: t <= j && j + 3 <= c ==> !FenceAt(r, j, c)
    ensures Balanced(TrimRight(r[start..c], AsciiBlank) + "\n```") <==> CleanCut(r, start, t, c)
    ensures OutsideBackticks(r, t) ==> CleanCut(r, start, t, c)
  {
    FencesOfSlice(r, start, c);
    FencesOfTrimmed(r[start..c]);
    FencesOfClosed(TrimRight(r[start..c], AsciiBlank));
    CountSplits(r, start, t, c);
    CountNone(r, Edge(r, start, t, c), c);
    if OutsideBackticks(r, t) {
      EdgeAtCleanCut(r, start, t, c);
    }
  }

  lemma NoFenceBeyond(r: string, start: nat, maxLen: int, c: nat)
    requires maxLen >= 10 && |r| - start > maxLen
    requires Decide(r, start, maxLen).Reopens() && c <= start + maxLen - 5
    ensures forall j :: Tentative(r, start, maxLen) <= j && j + 3 <= c ==> !FenceAt(r, j, c)
  {
    var t := Tentative(r, start, maxLen);
    NextClosingIsFirst(r, t, |r|);
    forall j | t <= j && j + 3 <= c ensures !FenceAt(r, j, c) {
      assert !FenceAt(r, j, |r|);
    }
  }

  /** The fence of the block that an iteration finds open, or -1. */
  function OpenedAt(r: string, start: nat, maxLen: Limit): int
    requires |r| - start > maxLen
  {
    Unclosed(r, start, Tentative(r, start, maxLen), false, -1)
  }

  /** A chunk closed by an injected fence is balanced exactly when it cuts off an odd number of
      fences. */
  lemma InjectedCount(r: string, start: nat, cut: nat)
    requires start <= cut <= |r|
    ensures Balanced(TrimRight(r[start..cut], AsciiBlank) + "\n```") <==> Count(r, start, cut) % 2 == 1
  {
    FencesOfSlice(r, start, cut);
    FencesOfTrimmed(r[start..cut]);
    FencesOfClosed(TrimRight(r[start..cut], AsciiBlank));
  }

  /** For every limit: a chunk closed by an injected fence is balanced exactly when, from a
      limit of 10 on, no fence straddles the tentative cut, and, below, the cut lies behind the
      fence that opens the block. */
  lemma InjectedBalance(r: string, start: nat, maxLen: Limit)
    requires |r| - start > maxLen && Decide(r, start, maxLen).Reopens()
    ensures var d := Decide(r, start, maxLen);
            && d.tentative == Tentative(r, start, maxLen) && start <= d.cut <= |r|
            && (maxLen >= 10 ==> d.tentative <= d.cut)
            && (maxLen >= 10 ==> (Balanced(ChunkOf(r, start, d)) <==> CleanCut(r, start, d.tentative, d.cut)))
            && (maxLen < 10 ==> (Balanced(ChunkOf(r, start, d)) <==> OpenedAt(r, start, maxLen) + 3 <= d.cut))
  {
    var d := Decide(r, start, maxLen);
    var fence := SplitTermination.OpenFence(r, start, maxLen);
    if maxLen >= 10 {
      SplitTermination.InsideCutIsFar(r, start, maxLen);
      UnclosedMeaning(r, start, d.tentative, false, -1);
      NoFenceBeyond(r, start, maxLen, d.cut);
      ClosedSliceBalance(r, start, d.tentative, d.cut);
    } else {
      SmallLimitCut(r, start, maxLen);
      InjectedCount(r, start, d.cut);
      OneFenceCounts(r, start, Tentative(r, start, maxLen), fence, d.cut);
    }
  }

  lemma SmallLimitCut(r: string, start: nat, maxLen: Limit)
    requires maxLen < 10 && |r| - start > maxLen && Decide(r, start, maxLen).Reopens()
    ensures Decide(r, start, maxLen).cut == start + maxLen - 5 <= start + 4
    ensures Tentative(r, start, maxLen) <= start + 5
  {
    var fence := SplitTermination.OpenFence(r, start, maxLen);
    SplitTermination.OpenBlockFacts(r, start, maxLen, Tentative(r, start, maxLen), fence);
  }

  /** In a window of five runes the scanner meets one fence at most, the first. */
  lemma OneFenceCounts(r: string, start: nat, t: nat, fence: nat, cut: nat)
    requires start <= fence && fence + 3 <= t <= start + 5 && t <= |r| && start <= cut <= start + 4 && cut <= |r|
    requires Unclosed(r, start, t, false, -1) == fence && FenceAt(r, fence, |r|)
    ensures Count(r, start, cut) % 2 == 1 <==> fence + 3 <= cut
  {
    FirstIsUnclosed(r, start, t);
    if fence + 3 <= cut {
      FirstFenceCounts(r, start, fence, cut);
    } else {
      CountNone(r, start, cut);
    }
  }

  lemma {:induction false} FirstIsUnclosed(r: string, i: nat, end: nat)
    requires i <= end <= i + 5 && end <= |r| && Unclosed(r, i, end, false, -1) >= 0
    ensures forall j :: i <= j < Unclosed(r, i, end, false, -1) ==> !FenceAt(r, j, end)
    decreases end - i
  {
    if i < end {
      if FenceAt(r, i, end) {
        UnclosedNone(r, i + 3, end, i);
      } else {
        FirstIsUnclosed(r, i + 1, end);
      }
    }
  }

  lemma {:induction false} FirstFenceCounts(r: string, i: nat, fence: nat, end: nat)
    requires i <= fence && fence + 3 <= end < fence + 6 && end <= |r| && FenceAt(r, fence, |r|)
    requires forall j :: i <= j < fence ==> !FenceAt(r, j, end)
    ensures Count(r, i, end) == 1
    decreases fence - i
  {
    if i == fence {
      CountOfShort(r, fence + 3, end);
    } else {
      FirstFenceCounts(r, i + 1, fence, end);
    }
  }

  lemma TentativeIsRemembered(r: string, start: nat, maxLen: int)
    requires maxLen >= 1 && |r| - start > maxLen
    ensures var d := Decide(r, start, maxLen);
            d.Extended? || d.Reopens() ==> d.tentative == Tentative(r, start, maxLen)
  {
  }

  /** An iteration that closes and reopens the block cuts behind the fence that opens it. */
  predicate CutsBehindFence(r: string, start: nat, maxLen: Limit)
    requires |r| - start > maxLen
  {
    var d := Decide(r, start, maxLen);
    d.Reopens() ==> OpenedAt(r, start, maxLen) + 3 <= d.cut
  }

  /** From a limit of 10 on it always does. */
  lemma CutsBehindFenceFromTen(r: string, start: nat, maxLen: Limit)
    requires maxLen >= 10 && |r| - start > maxLen
    ensures CutsBehindFence(r, start, maxLen)
  {
    SplitTermination.InsideCutIsFar(r, start, maxLen);
    if OpenedAt(r, start, maxLen) >= 0 {
      var fence := SplitTermination.OpenFence(r, start, maxLen);
    }
  }

  lemma CleanReopenBalance(r: string, start: nat, maxLen: Limit)
    requires |r| - start > maxLen && OutsideBackticks(r, Tentative(r, start, maxLen))
    requires Decide(r, start, maxLen).Reopens()
    ensures Balanced(ChunkOf(r, start, Decide(r, start, maxLen))) <==> CutsBehindFence(r, start, maxLen)
  {
    InjectedBalance(r, start, maxLen);
    if maxLen >= 10 {
      CutsBehindFenceFromTen(r, start, maxLen);
      CleanWhenOutside(r, start, Tentative(r, start, maxLen), Decide(r, start, maxLen).cut);
    }
  }

  lemma CleanWhenOutside(r: string, start: nat, t: nat, cut: nat)
    requires start <= t <= cut <= |r| && OutsideBackticks(r, t)
    ensures CleanCut(r, start, t, cut)
  {
    EdgeAtCleanCut(r, start, t, cut);
  }

  /** For every limit: with a tentative cut outside a run of backticks every chunk is balanced
      unless the loop falls back to a blank before the block, or, with a limit below 10, cuts
      into the opening fence itself - and then it is not. */
  lemma CleanCutsBalance(r: string, start: nat, maxLen: Limit)
    requires |r| - start > maxLen && OutsideBackticks(r, Tentative(r, start, maxLen))
    ensures var d := Decide(r, start, maxLen);
            d.Before? || (Balanced(ChunkOf(r, start, d)) <==> CutsBehindFence(r, start, maxLen))
  {
    TentativeIsRemembered(r, start, maxLen);
    var d := Decide(r, start, maxLen);
    if d.Extended? {
      ExtendedBalance(r, start, maxLen);
    } else if d.Reopens() {
      CleanReopenBalance(r, start, maxLen);
    } else {
      UncutBlocksBalance(r, start, maxLen);
    }
  }

  lemma BeforeCutsAtBlank(r: string, start: nat, maxLen: int)
    requires maxLen >= 1 && |r| - start > maxLen
    requires Decide(r, start, maxLen).Before?
    ensures var cut, fence := Decide(r, start, maxLen).cut, Unclosed(r, start, Tentative(r, start, maxLen), false, -1);
            start < cut < fence <= |r| && r[cut] != '`' && Count(r, start, fence) % 2 == 0
  {
    UnclosedMeaning(r, start, Tentative(r, start, maxLen), false, -1);
  }

  lemma CleanSliceBalance(r: string, start: nat, cut: nat, end: nat)
    requires start < cut < end <= |r| && r[cut] != '`' && Count(r, start, end) % 2 == 0
    ensures Balanced(r[start..cut]) <==> Balanced(r[cut..end])
  {
    FencesOfSlice(r, start, cut);
    FencesOfSlice(r, cut, end);
    EdgeAtCleanCut(r, start, cut, end);
    CountSplits(r, start, cut, end);
  }

  /** A chunk cut at a blank before the open block is balanced exactly when the text skipped
      between the blank and that block is. */
  lemma BeforeBalance(r: string, start: nat, maxLen: int)
    requires maxLen >= 1 && |r| - start > maxLen
    requires Decide(r, start, maxLen).Before?
    ensures var d, fence := Decide(r, start, maxLen), Unclosed(r, start, Tentative(r, start, maxLen), false, -1);
            && start < d.cut < fence <= |r|
            && (Balanced(ChunkOf(r, start, d)) <==> Balanced(r[d.cut..fence]))
  {
    BeforeCutsAtBlank(r, start, maxLen);
    var fence := Unclosed(r, start, Tentative(r, start, maxLen), false, -1);
    CleanSliceBalance(r, start, Decide(r, start, maxLen).cut, fence);
  }

  /** Such a chunk can come out unbalanced: the blank may lie inside an earlier block. */
  lemma BeforeMayUnbalance(r: string)
    requires |r| == 23 && r[..11] == "``` `````` " && forall i :: 11 <= i < 23 ==> r[i] != '`' && r[i] != '\n'
    ensures Decide(r, 0, 22) == Before(3) && !Balanced(ChunkOf(r, 0, Before(3)))
  {
    assert forall i :: 0 <= i < 11 ==> r[i] == r[..11][i];
    assert r[0] == r[1] == r[2] == r[4] == r[5] == r[6] == r[7] == r[8] == r[9] == '`' && r[3] == r[10] == ' ';
    LastInIsLast(r, 0, 11, true);
    LastInIsLast(r, 0, 7, true);
    LastInIsLast(r, 0, 7, false);
    assert Tentative(r, 0, 22) == 10;
    assert Unclosed(r, 7, 10, false, 0) == 7;
    assert Unclosed(r, 3, 10, true, 0) == Unclosed(r, 4, 10, true, 0) == 7;
    assert Unclosed(r, 0, 10, false, -1) == 7;
    NoClosing(r, 10, 23);
    NextNewlineIs(r, 7, -1);
    assert Count(r, 0, 3) == 1 + Count(r, 3, 3);
    FencesOfSlice(r, 0, 3);
  }

  /** A cut below 10 can be unbalanced: the chunk is cut off before the block is even open. */
  lemma SmallLimitMayUnbalance(r: string)
    requires |r| > 5 && r[..4] == "```x" && NextNewline(r, 0) == -1
    ensures Decide(r, 0, 5) == LastResort(0, 3, "```") && !Balanced(ChunkOf(r, 0, Decide(r, 0, 5)))
  {
    assert forall i :: 0 <= i < 4 ==> r[i] == r[..4][i];
    assert r[0] == r[1] == r[2] == '`' && r[3] == 'x';
    assert EffectiveLimit(5) == 3;
    LastInIsLast(r, 0, 3, true);
    LastInIsLast(r, 0, 3, false);
    assert Tentative(r, 0, 5) == 3;
    assert Unclosed(r, 3, 3, true, 0) == 0;
    assert Unclosed(r, 0, 3, false, -1) == 0;
    NextClosingIsFirst(r, 3, |r|);
    TrimKeeps(r[0..3], UnicodeSpace);
    assert r[0..3] == "```";
    InjectedBalance(r, 0, 5);
  }

  /** A cut inside a run of backticks can unbalance a chunk that is extended ... */
  lemma StraddledExtensionUnbalances(r: string)
    requires r == "``````x```yyy"
    ensures Decide(r, 0, 10) == Extended(10, 5) && !Balanced(ChunkOf(r, 0, Extended(10, 5)))
  {
    LastInIsLast(r, 0, 5, true);
    LastInIsLast(r, 0, 5, false);
    assert EffectiveLimit(10) == 5 && Tentative(r, 0, 10) == 5;
    UnclosedNone(r, 3, 5, 0);
    assert Unclosed(r, 0, 5, false, -1) == 0;
    assert NextClosing(r, 7, 13) == 10;
    assert NextClosing(r, 5, 13) == NextClosing(r, 6, 13) == NextClosing(r, 7, 13);
    assert Count(r, 7, 10) == 1 + Count(r, 10, 10);
    assert Count(r, 3, 10) == 1 + Count(r, 6, 10) && Count(r, 6, 10) == Count(r, 7, 10);
    assert Count(r, 0, 10) == 3;
    FencesOfSlice(r, 0, 10);
  }

  /** ... and one that is closed by an injected fence. */
  lemma StraddledInjectionUnbalances(r: string)
    requires |r| == 15 && r[..9] == "```xxx```" && forall i :: 9 <= i < 15 ==> r[i] == 'x'
    ensures Decide(r, 0, 14) == LastResort(9, 7, "```") && !Balanced(ChunkOf(r, 0, Decide(r, 0, 14)))
  {
    assert forall i :: 0 <= i < 9 ==> r[i] == r[..9][i];
    assert r[0] == r[1] == r[2] == r[6] == r[7] == r[8] == '`' && r[3] == r[4] == r[5] == 'x';
    LastInIsLast(r, 0, 7, true);
    LastInIsLast(r, 0, 7, false);
    assert EffectiveLimit(14) == 7 && Tentative(r, 0, 14) == 7;
    UnclosedNone(r, 3, 7, 0);
    assert Unclosed(r, 0, 7, false, -1) == 0;
    NoClosing(r, 7, 15);
    NextNewlineIs(r, 0, -1);
    TrimKeeps(r[0..3], UnicodeSpace);
    assert r[0..3] == "```";
    FirstFenceCounts(r, 3, 6, 9);
    assert Count(r, 0, 9) == 2;
    InjectedCount(r, 0, 9);
  }

  /** Only a window without any newline or blank to cut at can end inside a backtick run. */
  lemma BlankCutsAreClean(r: string, start: nat, maxLen: int)
    requires maxLen >= 1 && |r| - start > maxLen
    requires Tentative(r, start, maxLen) < start + EffectiveLimit(maxLen)
    ensures r[Tentative(r, start, maxLen)] != '`'
  {
  }

  /** An iteration that cuts cuts outside backtick runs, not at a blank before the block, and
      behind the fence of a block it reopens. */
  ghost predicate CutsCleanly(p: Progress, maxLen: Limit) {
    p.Valid() && !p.done && |p.cells| - p.start > maxLen ==>
      && OutsideBackticks(Chars(p.cells), Tentative(Chars(p.cells), p.start, maxLen))
      && !Decide(Chars(p.cells), p.start, maxLen).Before?
      && CutsBehindFence(Chars(p.cells), p.start, maxLen)
  }

  /** All chunks emitted so far are balanced, but for the remainder that ends the message. */
  ghost predicate AllBalanced(p: Progress) {
    forall k :: 0 <= k < |p.pieces| && (p.done ==> k < |p.pieces| - 1) ==> Balanced(Chars(p.pieces[k]))
  }

  ghost predicate StaysBalanced(p: Progress) {
    p.Valid() && AllBalanced(p)
  }

  lemma IterationBalances(p: Progress, q: Progress, maxLen: Limit)
    requires StaysBalanced(p) && CutsCleanly(p, maxLen) && q == Advance(p, maxLen)
    ensures StaysBalanced(q)
  {
    if !p.done && |p.cells| - p.start > maxLen {
      AdvanceEmits(p, maxLen);
      CleanCutsBalance(Chars(p.cells), p.start, maxLen);
      assert forall k :: 0 <= k < |p.pieces| ==> q.pieces[k] == q.pieces[..|p.pieces|][k];
    }
  }

  /** Over the whole loop: while every cut is clean, every chunk emitted has an even number of
      fences; only the remainder that ends the message may not. */
  lemma EveryCutChunkBalances(content: string, maxLen: Limit, n: nat)
    requires forall m: nat :: m < n ==> CutsCleanly(Run(content, maxLen, m), maxLen)
    ensures AllBalanced(Run(content, maxLen, n))
  {
    var ok, inv := (p: Progress) => CutsCleanly(p, maxLen), (p: Progress) => StaysBalanced(p);
    forall p: Progress | inv(p) && ok(p) ensures inv(Step(maxLen)(p)) {
      IterationBalances(p, Advance(p, maxLen), maxLen);
    }
    forall m: nat | m < n ensures ok(Iteration.Iterate(Step(maxLen), Initial(content), m)) {
      assert CutsCleanly(Run(content, maxLen, m), maxLen);
    }
    Iteration.InvariantWhile(Step(maxLen), ok, inv, Initial(content), n);
  }
}

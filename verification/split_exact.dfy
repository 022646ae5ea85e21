/** Exactly when `SplitMessage` ends: a run that does not end comes to a trap. The lines that
    are left are weighed by powers of three, so that a long line weighs more than its header
    and what is cut off it together; a text may grow, but then it gets lighter. */
module SplitExact {
  import opened GoStrings
  import opened SplitScan
  import opened SplitModel
  import opened SplitTermination
  import opened SplitDivergence
  import Iteration

  // ------------------------------------------------------------ the weight of a text

  function Power(n: nat): (p: nat)
    ensures p >= 1
  {
    if n == 0 then 1 else 3 * Power(n - 1)
  }

  lemma {:induction false} PowerGrows(a: nat, b: nat)
    requires a <= b
    ensures Power(a) <= Power(b)
    decreases b
  {
    if a < b {
      PowerGrows(a, b - 1);
    }
  }

  /** A line of `n` runes, which counts when it has at least `k`. */
  function Line(n: nat, k: int): nat {
    if n >= k then Power(n) else 0
  }

  lemma LineGrows(a: nat, b: nat, k: int)
    requires a <= b
    ensures Line(a, k) <= Line(b, k)
  {
    PowerGrows(a, b);
  }

  /** The runes from `i` to the end of its line. */
  function Span(s: string, i: nat): nat
    requires i <= |s|
  {
    if NextNewline(s, i) == -1 then |s| - i else NextNewline(s, i) - i
  }

  /** The sum of the lines of s[i..]. */
  function Weight(s: string, i: nat, k: int): nat
    requires i <= |s|
    decreases |s| - i
  {
    Line(Span(s, i), k) + (if NextNewline(s, i) == -1 then 0 else Weight(s, NextNewline(s, i) + 1, k))
  }

  /** What lies behind the line of `i`. */
  function Below(s: string, i: nat, k: int): nat
    requires i <= |s|
  {
    if NextNewline(s, i) == -1 then 0 else Weight(s, NextNewline(s, i) + 1, k)
  }

  /** One rune less: a newline falls away, or the first line is shorter by one. */
  lemma WeightOfNext(s: string, i: nat, k: int)
    requires i < |s|
    ensures Weight(s, i + 1, k) <= Weight(s, i, k)
    ensures s[i] != '\n' && Span(s, i) >= k ==>
      Span(s, i) > 0 && Weight(s, i + 1, k) + 2 * Power(Span(s, i) - 1) <= Weight(s, i, k)
  {
    if s[i] != '\n' {
      assert NextNewline(s, i) == NextNewline(s, i + 1);
      LineGrows(Span(s, i + 1), Span(s, i), k);
    }
  }

  lemma {:induction false} WeightFalls(s: string, i: nat, j: nat, k: int)
    requires i <= j <= |s|
    ensures Weight(s, j, k) <= Weight(s, i, k)
    decreases j - i
  {
    if i < j {
      WeightOfNext(s, i, k);
      WeightFalls(s, i + 1, j, k);
    }
  }

  /** On one line the weights differ by the first line only. */
  lemma {:induction false} SameLine(s: string, i: nat, j: nat, k: int)
    requires i <= j <= |s| && forall x :: i <= x < j ==> s[x] != '\n'
    ensures NextNewline(s, i) == NextNewline(s, j)
    decreases j - i
  {
    if i < j {
      SameLine(s, i + 1, j, k);
    }
  }

  /** A copy that may end earlier weighs no more. */
  lemma {:induction false} CopyWeighsNoMore(t: string, j: nat, r: string, d: int, k: int)
    requires j <= |t| && 0 <= j + d && |t| + d <= |r|
    requires forall x :: j <= x < |t| ==> t[x] == r[x + d]
    ensures Weight(t, j, k) <= Weight(r, j + d, k)
    decreases |t| - j
  {
    var nl := NextNewline(t, j);
    NextNewlineIsFirst(t, j);
    NextNewlineIsFirst(r, j + d);
    if nl == -1 {
      assert forall x :: j + d <= x < |t| + d ==> r[x] == t[x - d];
      LineGrows(Span(t, j), Span(r, j + d), k);
    } else {
      assert forall x :: j + d <= x < nl + d ==> r[x] == t[x - d];
      NextNewlineIs(r, j + d, nl + d);
      CopyWeighsNoMore(t, nl + 1, r, d, k);
    }
  }

  /** A rebuilt text weighs its header line and at most what is behind the cut. */
  lemma RebuiltWeight(t: string, r: string, h: string, cut: nat, k: int)
    requires cut <= |r| && Reopened(t, r, h, cut) && forall x :: 0 <= x < |h| ==> h[x] != '\n'
    ensures |t| == |h| ==> NextNewline(t, 0) == -1 && Weight(t, 0, k) == Line(|h|, k)
    ensures |t| > |h| ==> NextNewline(t, 0) == |h|
    ensures |t| > |h| ==> Weight(t, |h| + 1, k) <= Weight(r, cut, k)
    ensures |t| > |h| ==> Weight(t, 0, k) <= Line(|h|, k) + Weight(r, cut, k)
  {
    if |t| > |h| {
      NextNewlineIs(t, 0, |h|);
      CopyWeighsNoMore(t, |h| + 1, r, cut - |h| - 1, k);
    } else {
      NextNewlineIs(t, 0, -1);
    }
  }

  // --------------------------------------------------- what a rebuilding iteration does

  /** The text begins with a fence line of `h` runes, without whitespace at the end of that
      line or of the text: what every rebuilt text looks like. */
  ghost predicate Flagged(r: string, h: nat) {
    && 3 <= h < |r| && FenceAt(r, 0, |r|) && NextNewline(r, 0) == h
    && !IsSpace(r[h - 1]) && !IsSpace(r[|r| - 1])
  }

  /** `t` is what is left when the block opened at `fence` is cut at `cut` and re-opened with
      header `h`. */
  ghost predicate Repeats(r: string, start: nat, fence: nat, h: string, cut: nat, t: string) {
    && start <= fence && fence + 3 <= |r| && start <= cut <= |r|
    && 3 <= |h| <= Span(r, fence)
    && (|h| > 3 ==> NextNewline(r, fence) == fence + Span(r, fence))
    && (forall i :: 0 <= i < |h| ==> h[i] != '\n')
    && Reopened(t, r, h, cut)
    && (|t| > |h| ==> Flagged(t, |h|))
  }

  lemma RebuiltIsFlagged(r: string, fence: nat, cut: nat)
    requires FenceAt(r, fence, |r|) && cut <= |r|
    ensures var h := Header(r, fence); var t := TrimSpace(h + "\n" + r[cut..]);
            Reopened(t, r, h, cut) && (|t| > |h| ==> Flagged(t, |h|))
  {
    var h := Header(r, fence);
    var t := TrimSpace(h + "\n" + r[cut..]);
    HeaderShape(r, fence);
    ReopenedTextShape(r, fence, cut);
    var m := ReopenedText(r, fence, cut);
    RebuiltWeight(t, r, h, cut, 0);
    assert t[0] == h[0] && t[1] == h[1] && t[2] == h[2] && t[|h| - 1] == h[|h| - 1];
    assert r[fence] == '`' && r[fence + 1] == '`' && r[fence + 2] == '`';
  }

  lemma RebuildingStep(p: Progress, maxLen: Limit) returns (fence: nat)
    requires p.Valid() && !p.done && |p.cells| - p.start > maxLen
    requires Decide(Chars(p.cells), p.start, maxLen).Reopens()
    ensures var q, r := Advance(p, maxLen), Chars(p.cells);
            var d := Decide(r, p.start, maxLen);
            && q.start == 0 && !q.done
            && fence == Unclosed(r, p.start, Tentative(r, p.start, maxLen), false, -1)
            && fence + 3 <= Tentative(r, p.start, maxLen)
            && FenceAt(r, fence, |r|) && d.header == Header(r, fence)
            && Repeats(r, p.start, fence, d.header, d.cut, Chars(q.cells))
  {
    var r := Chars(p.cells);
    var d := Decide(r, p.start, maxLen);
    fence := OpenFence(r, p.start, maxLen);
    OpenBlockFacts(r, p.start, maxLen, Tentative(r, p.start, maxLen), fence);
    ReopenedChars(p, d.cut, d.header);
    RebuiltIsFlagged(r, fence, d.cut);
    HeaderShape(r, fence);
  }

  /** Where a rebuilding decision cuts, and how long the header can be. */
  lemma RebuildBounds(r: string, start: nat, maxLen: Limit, fence: nat)
    requires |r| - start > maxLen && Decide(r, start, maxLen).Reopens()
    requires fence == Unclosed(r, start, Tentative(r, start, maxLen), false, -1)
    ensures var d := Decide(r, start, maxLen);
            && maxLen >= 5
            && (d.LastResort? ==> d.cut == start + maxLen - 5)
            && (d.SplitInside? ==> maxLen >= 10 && |d.header| <= maxLen - 7 && d.cut > start + |d.header| + 1)
  {
    var f := OpenFence(r, start, maxLen);
    HeaderShape(r, fence);
    OpenBlockFacts(r, start, maxLen, Tentative(r, start, maxLen), fence);
    if maxLen >= 10 {
      InsideCutIsFar(r, start, maxLen);
    }
  }

  lemma CutBounds(r: string, start: nat, maxLen: Limit, fence: nat)
    requires maxLen >= 10 && |r| - start > maxLen && Decide(r, start, maxLen).Reopens()
    requires fence == Unclosed(r, start, Tentative(r, start, maxLen), false, -1)
    ensures var d := Decide(r, start, maxLen);
            && (|d.header| <= maxLen - 7 ==> d.cut > start + |d.header| + 1)
            && (|d.header| > maxLen - 7 ==> d.LastResort? && fence + 3 <= d.cut <= fence + maxLen - 5)
  {
    var f := OpenFence(r, start, maxLen);
    RebuildBounds(r, start, maxLen, fence);
  }

  // ------------------------------------------------------------- limits from 10 on

  /** A rebuilt text is worth a third of its first line less than it weighs. */
  ghost function Bonus(r: string, start: nat, k: int): nat {
    var h := NextNewline(r, 0);
    if start == 0 && h > 0 && h >= k && Flagged(r, h) then Power(h - 1) else 0
  }

  ghost function Worth(r: string, start: nat, k: int): int
    requires start <= |r|
  {
    Weight(r, start, k) - Bonus(r, start, k)
  }

  /** Whatever is consumed, what is behind it weighs no more than the whole was worth. */
  lemma BehindIsLighter(r: string, start: nat, j: nat, k: int)
    requires start < j <= |r|
    ensures Weight(r, j, k) <= Worth(r, start, k)
  {
    var h := NextNewline(r, 0);
    if start == 0 && h > 0 && h >= k && Flagged(r, h) {
      assert r[0] == '`';
      WeightOfNext(r, 0, k);
      WeightFalls(r, 1, j, k);
    } else {
      WeightFalls(r, start, j, k);
    }
  }

  lemma WorthIsNatural(r: string, start: nat, k: int)
    requires start <= |r|
    ensures 0 <= Worth(r, start, k) <= Weight(r, start, k)
  {
    if start < |r| {
      BehindIsLighter(r, start, start + 1, k);
    } else {
      assert Bonus(r, start, k) > 0 ==> start == 0;
    }
  }

  /** The step of a run loses worth, or runes and no worth. */
  ghost predicate Lighter(t: string, i: nat, r: string, start: nat, k: int)
    requires i <= |t| && start <= |r|
  {
    Iteration.Lowers(Worth(t, i, k), |t| - i, Worth(r, start, k), |r| - start)
  }

  lemma ConsumingIsLighter(r: string, start: nat, j: nat, k: int)
    requires start < j <= |r|
    ensures Lighter(r, j, r, start, k)
  {
    BehindIsLighter(r, start, j, k);
    WorthIsNatural(r, j, k);
    WorthIsNatural(r, start, k);
  }

  /** Repeating a header that does not count as a line. */
  lemma ShortHeaderIsLighter(r: string, start: nat, fence: nat, h: string, cut: nat, t: string, k: int)
    requires Repeats(r, start, fence, h, cut, t) && |h| < k && cut > start + |h| + 1
    ensures Lighter(t, 0, r, start, k)
  {
    RebuiltWeight(t, r, h, cut, k);
    BehindIsLighter(r, start, cut, k);
    WorthIsNatural(t, 0, k);
    WorthIsNatural(r, start, k);
  }

  /** What is behind the cut of a last resort with a long header: at most the line of the
      fence, three runes shorter, and what is below it. */
  lemma TailOfLongLine(r: string, fence: nat, cut: nat, k: int)
    requires fence + 3 <= cut <= |r| && NextNewline(r, fence) >= cut - 1 && Span(r, fence) >= 3
    ensures Weight(r, cut, k) <= Power(Span(r, fence) - 3) + Below(r, fence, k)
  {
    var nl := NextNewline(r, fence);
    if cut <= nl {
      NextNewlineIsFirst(r, fence);
      SameLine(r, fence, cut, k);
      PowerGrows(nl - cut, Span(r, fence) - 3);
    }
  }

  /** What the text was worth: a rebuilt text is worth less than it weighs, but then its block
      is not opened by its first runes. */
  lemma WorthOfLongLine(r: string, start: nat, fence: nat, k: int)
    requires start <= fence <= |r| && Span(r, fence) >= k
    requires fence == start ==> Bonus(r, start, k) == 0
    ensures Power(Span(r, fence)) + Below(r, fence, k) <= Worth(r, start, k)
  {
    assert Weight(r, fence, k) == Line(Span(r, fence), k) + Below(r, fence, k);
    if fence > start {
      BehindIsLighter(r, start, fence, k);
    }
  }

  lemma PowerSum(x: nat, span: nat)
    requires 3 <= x <= span
    ensures Power(x) - Power(x - 1) + Power(span - 3) < Power(span) && Power(x) <= Power(span)
  {
    PowerGrows(x - 1, span - 1);
    assert Power(span - 1) == 3 * Power(span - 2) && Power(span - 2) == 3 * Power(span - 3);
  }

  /** Repeating a long header, other than the trap's. */
  lemma LongHeaderIsLighter(r: string, start: nat, fence: nat, h: string, cut: nat, t: string, k: int)
    requires Repeats(r, start, fence, h, cut, t) && |h| >= k > 3
    requires fence + 3 <= cut <= fence + k + 1
    requires fence == start ==> Bonus(r, start, k) == 0
    ensures Lighter(t, 0, r, start, k)
  {
    TailOfLongLine(r, fence, cut, k);
    WorthOfLongLine(r, start, fence, k);
    RebuiltWeight(t, r, h, cut, k);
    WorthIsNatural(r, start, k);
    PowerSum(|h|, Span(r, fence));
    if |t| > |h| {
      assert Bonus(t, 0, k) == Power(|h| - 1);
    } else {
      WorthIsNatural(t, 0, k);
    }
  }

  /** The loop stands at a trap. */
  ghost predicate Trapped(p: Progress, maxLen: Limit) {
    exists h: nat :: h >= maxLen - 6 && Stuck(p, h, maxLen)
  }

  /** A rebuilt text whose first runes open the block of a last resort is a trap. */
  lemma FlaggedIsTrapped(p: Progress, h: nat, maxLen: Limit)
    requires p.Valid() && !p.done && p.start == 0 && |p.cells| > maxLen && h >= maxLen - 6
    requires Flagged(Chars(p.cells), h) && GivesUpAtStart(Chars(p.cells), maxLen)
    ensures Trapped(p, maxLen)
  {
    assert Stuck(p, h, maxLen);
  }

  /** At the start of a rebuilt text that is no trap, the last resort re-opens another block. */
  lemma NoBonusAtTheFence(p: Progress, maxLen: Limit)
    requires p.Valid() && !p.done && |p.cells| - p.start > maxLen && !Trapped(p, maxLen)
    requires var r := Chars(p.cells);
             && Decide(r, p.start, maxLen).LastResort?
             && Unclosed(r, p.start, Tentative(r, p.start, maxLen), false, -1) == p.start
    ensures Bonus(Chars(p.cells), p.start, maxLen - 6) == 0
  {
    if Bonus(Chars(p.cells), p.start, maxLen - 6) > 0 {
      FlaggedIsTrapped(p, NextNewline(Chars(p.cells), 0), maxLen);
    }
  }

  lemma RepeatingIsLighter(r: string, start: nat, fence: nat, h: string, cut: nat, t: string, k: int)
    requires k > 3 && Repeats(r, start, fence, h, cut, t)
    requires |h| < k ==> cut > start + |h| + 1
    requires |h| >= k ==> fence + 3 <= cut <= fence + k + 1 && (fence == start ==> Bonus(r, start, k) == 0)
    ensures Lighter(t, 0, r, start, k)
  {
    if |h| < k {
      ShortHeaderIsLighter(r, start, fence, h, cut, t, k);
    } else {
      LongHeaderIsLighter(r, start, fence, h, cut, t, k);
    }
  }

  ghost predicate LighterState(q: Progress, p: Progress, k: int) {
    p.Valid() && q.Valid() && Lighter(Chars(q.cells), q.start, Chars(p.cells), p.start, k)
  }

  /** The loop goes from `p` to `q` by repeating `h`, and it is either short, or long and not
      that of a trap. */
  ghost predicate GoesOn(p: Progress, q: Progress, fence: nat, h: string, cut: nat, k: int) {
    && p.Valid() && q.Valid() && q.start == 0
    && Repeats(Chars(p.cells), p.start, fence, h, cut, Chars(q.cells))
    && (|h| < k ==> cut > p.start + |h| + 1)
    && (|h| >= k ==> fence + 3 <= cut <= fence + k + 1)
    && (|h| >= k && fence == p.start ==> Bonus(Chars(p.cells), p.start, k) == 0)
  }

  lemma GoingOnIsLighter(p: Progress, q: Progress, fence: nat, h: string, cut: nat, k: int)
    requires k > 3 && GoesOn(p, q, fence, h, cut, k)
    ensures LighterState(q, p, k)
  {
    RepeatingIsLighter(Chars(p.cells), p.start, fence, h, cut, Chars(q.cells), k);
  }

  lemma RebuildingGoesOn(p: Progress, maxLen: Limit) returns (fence: nat, h: string, cut: nat)
    requires maxLen >= 10 && p.Valid() && !p.done && |p.cells| - p.start > maxLen && !Trapped(p, maxLen)
    requires Decide(Chars(p.cells), p.start, maxLen).Reopens()
    ensures GoesOn(p, Advance(p, maxLen), fence, h, cut, maxLen - 6)
  {
    var r := Chars(p.cells);
    fence := RebuildingStep(p, maxLen);
    CutBounds(r, p.start, maxLen, fence);
    h, cut := Decide(r, p.start, maxLen).header, Decide(r, p.start, maxLen).cut;
    if |h| > maxLen - 7 && fence == p.start {
      NoBonusAtTheFence(p, maxLen);
    }
  }

  lemma StepIsLighter(p: Progress, maxLen: Limit)
    requires maxLen >= 10 && p.Valid() && !Trapped(p, maxLen) && !Advance(p, maxLen).done
    ensures LighterState(Advance(p, maxLen), p, maxLen - 6)
  {
    var d := Decide(Chars(p.cells), p.start, maxLen);
    if d.Reopens() {
      var fence, h, cut := RebuildingGoesOn(p, maxLen);
      GoingOnIsLighter(p, Advance(p, maxLen), fence, h, cut, maxLen - 6);
    } else {
      ConsumingIsLighter(Chars(p.cells), p.start, Advance(p, maxLen).start, maxLen - 6);
    }
  }

  /** From any state the loop ends or comes to a trap. */
  lemma EndsOrIsTrapped(p: Progress, maxLen: Limit) returns (n: nat)
    requires maxLen >= 10 && p.Valid()
    ensures var q := Iteration.Iterate(Step(maxLen), p, n); q.done || Trapped(q, maxLen)
  {
    var inv, goal := (p: Progress) => p.Valid(), (p: Progress) => p.done || Trapped(p, maxLen);
    var worth := (p: Progress) => if p.Valid() then Worth(Chars(p.cells), p.start, maxLen - 6) else 0;
    var left := (p: Progress) => |p.cells| - p.start;
    forall p: Progress | inv(p) && !goal(p)
      ensures var q := Step(maxLen)(p);
              inv(q) && (goal(q) || Iteration.Lowers(worth(q), left(q), worth(p), left(p)))
    {
      if !Advance(p, maxLen).done {
        StepIsLighter(p, maxLen);
      }
    }
    n := Iteration.Reaches(Step(maxLen), inv, goal, worth, left, p);
  }

  // ------------------------------------------------------------ limits from 5 to 9

  type SmallLimit = n: Limit | 5 <= n <= 9 witness 5

  /** The loop stands at the beginning of a text as a last resort leaves it. */
  ghost predicate JustRebuilt(p: Progress) {
    && p.Valid() && p.start == 0 && !p.done
    && NextNewline(Chars(p.cells), 0) >= 0 && Flagged(Chars(p.cells), NextNewline(Chars(p.cells), 0))
  }

  /** The window is too narrow for a second fence: the block of the first runes is open. */
  lemma OpenedByFirstRunes(r: string, maxLen: SmallLimit)
    requires |r| > maxLen && FenceAt(r, 0, |r|)
    ensures 3 <= Tentative(r, 0, maxLen) <= EffectiveLimit(maxLen) <= 5
    ensures Unclosed(r, 0, Tentative(r, 0, maxLen), false, -1) == 0
  {
    var t := Tentative(r, 0, maxLen);
    assert r[0] == '`' && r[1] == '`' && r[2] == '`';
    assert FenceAt(r, 0, t);
    UnclosedNone(r, 3, t, 0);
  }

  /** So such a text is a trap, or its block is closed within the chunk. */
  lemma RebuiltConsumes(q: Progress, maxLen: SmallLimit)
    requires JustRebuilt(q) && !Trapped(q, maxLen) && |q.cells| > maxLen
    ensures Decide(Chars(q.cells), 0, maxLen).Extended?
  {
    var r := Chars(q.cells);
    OpenedByFirstRunes(r, maxLen);
    assert HeaderEnd(r, 0) == NextNewline(r, 0);
    if Decide(r, 0, maxLen).LastResort? {
      FlaggedIsTrapped(q, NextNewline(r, 0), maxLen);
    }
  }

  lemma {:induction false} ShiftedLastIn(t: string, lo: int, hi: int, r: string, d: nat, newline: bool)
    requires 0 <= lo && hi <= |t| && hi + d <= |r| && forall i :: lo <= i < hi ==> t[i] == r[i + d]
    ensures var i := LastIn(t, lo, hi, newline);
            LastIn(r, lo + d, hi + d, newline) == if i == -1 then -1 else i + d
    decreases hi - lo
  {
    if lo < hi {
      ShiftedLastIn(t, lo, hi - 1, r, d, newline);
    }
  }

  /** Equal windows have equal tentative cuts. */
  lemma ShiftedTentative(t: string, r: string, start: nat, maxLen: SmallLimit)
    requires |t| > maxLen && |r| - start > maxLen
    requires forall i :: 0 <= i < EffectiveLimit(maxLen) ==> t[i] == r[i + start]
    ensures Tentative(r, start, maxLen) == start + Tentative(t, 0, maxLen)
  {
    ShiftedLastIn(t, 0, EffectiveLimit(maxLen), r, start, true);
    ShiftedLastIn(t, 0, EffectiveLimit(maxLen), r, start, false);
  }

  /** A header that closes its own block within the chunk would have closed it before, too:
      then the block cut was not the one at the start. */
  lemma ClosedBefore(r: string, start: nat, h: string, t: string, maxLen: SmallLimit, c: nat)
    requires |r| - start > maxLen && |t| > maxLen
    requires start + |h| <= |r| && |h| <= |t| && forall i :: 0 <= i < |h| ==> t[i] == h[i] == r[start + i]
    requires c <= |h| && c <= maxLen && c - 3 >= Tentative(t, 0, maxLen) >= 3 && FenceAt(t, c - 3, |t|)
    ensures !Decide(r, start, maxLen).LastResort?
  {
    ShiftedTentative(t, r, start, maxLen);
    var tr := Tentative(r, start, maxLen);
    NextClosingIsFirst(r, tr, |r|);
    assert FenceAt(r, start + c - 3, |r|);
  }

  /** What the second of the two iterations leaves, when the block is closed behind the header:
      only runes from behind the cut. */
  lemma ClosedBehindHeader(r: string, start: nat, fence: nat, h: string, cut: nat, t: string, c: nat)
    requires Repeats(r, start, fence, h, cut, t) && |h| < c <= |t| && c >= 3 && FenceAt(t, c - 3, |t|)
    ensures c >= |h| + 4 && Weight(t, c, 1) <= Weight(r, start, 1)
  {
    assert t[|h|] == '\n';
    RebuiltWeight(t, r, h, cut, 1);
    WeightFalls(t, |h| + 1, c, 1);
    WeightFalls(r, start, cut, 1);
  }

  lemma SumOfTwo(a: nat, b: nat, span: nat)
    requires a < span && b < span
    ensures Power(a) + Power(b) < Power(span)
  {
    PowerGrows(a, span - 1);
    PowerGrows(b, span - 1);
  }

  /** ... and when it is closed within the header: two lines shorter than the fence's. */
  lemma ClosedWithinHeader(r: string, start: nat, fence: nat, h: string, cut: nat, t: string, c: nat)
    requires Repeats(r, start, fence, h, cut, t) && |t| > |h| && 0 < c <= |h| && |h| > 3
    requires fence < cut <= fence + 3
    ensures Weight(t, c, 1) < Weight(r, start, 1)
  {
    var span := Span(r, fence);
    RebuiltWeight(t, r, h, cut, 1);
    NextNewlineIsFirst(t, 0);
    SameLine(t, 0, c, 1);
    NextNewlineIsFirst(r, fence);
    SameLine(r, fence, cut, 1);
    PowerGrows(0, |h| - c);
    SumOfTwo(|h| - c, span - (cut - fence), span);
    WeightFalls(r, start, fence, 1);
  }

  lemma SmallWindow(maxLen: SmallLimit)
    ensures EffectiveLimit(maxLen) == if maxLen <= 6 then 3 else if maxLen <= 8 then 4 else 5
  {
  }

  /** What a rebuilding iteration does at a small limit. */
  ghost predicate SmallRebuild(r: string, start: nat, maxLen: SmallLimit, fence: nat, h: string, cut: nat, t: string) {
    && |r| - start > maxLen && Decide(r, start, maxLen).LastResort?
    && Repeats(r, start, fence, h, cut, t)
    && (fence > start ==> fence < cut <= fence + 3)
    && fence + |h| <= |r| && forall i :: 0 <= i < |h| ==> h[i] == r[fence + i]
  }

  lemma SmallRebuilding(p: Progress, maxLen: SmallLimit) returns (fence: nat, h: string, cut: nat)
    requires p.Valid() && !p.done && |p.cells| - p.start > maxLen
    requires Decide(Chars(p.cells), p.start, maxLen).Reopens()
    ensures Advance(p, maxLen).start == 0 && !Advance(p, maxLen).done
    ensures SmallRebuild(Chars(p.cells), p.start, maxLen, fence, h, cut, Chars(Advance(p, maxLen).cells))
  {
    var r := Chars(p.cells);
    fence := RebuildingStep(p, maxLen);
    h, cut := Decide(r, p.start, maxLen).header, Decide(r, p.start, maxLen).cut;
    RebuildBounds(r, p.start, maxLen, fence);
    HeaderShape(r, fence);
    SmallWindow(maxLen);
  }

  /** `c` is behind a fence that closes, within the chunk, the block of the first runes. */
  ghost predicate ClosesAt(t: string, maxLen: SmallLimit, c: nat) {
    && |t| > maxLen && 3 <= Tentative(t, 0, maxLen) <= c - 3 && c <= maxLen && FenceAt(t, c - 3, |t|)
  }

  lemma ExtendedCloses(t: string, maxLen: SmallLimit)
    requires |t| > maxLen && FenceAt(t, 0, |t|) && Decide(t, 0, maxLen).Extended?
    ensures ClosesAt(t, maxLen, Decide(t, 0, maxLen).cut)
  {
    OpenedByFirstRunes(t, maxLen);
  }

  lemma ClosingIsWithinHeader(r: string, start: nat, maxLen: SmallLimit, fence: nat, h: string, cut: nat, t: string,
                              c: nat)
    requires SmallRebuild(r, start, maxLen, fence, h, cut, t) && |t| > |h| && ClosesAt(t, maxLen, c) && c <= |h|
    ensures Weight(t, c, 1) < Weight(r, start, 1)
  {
    if fence == start {
      ClosedBefore(r, start, h, t, maxLen, c);
    }
    ClosedWithinHeader(r, start, fence, h, cut, t, c);
  }

  /** The two iterations that follow a last resort, when the second one is at a closing fence:
      they lower the weight, or keep it and lower the runes that are left. */
  lemma ClosingLowers(r: string, start: nat, maxLen: SmallLimit, fence: nat, h: string, cut: nat, t: string, c: nat)
    requires SmallRebuild(r, start, maxLen, fence, h, cut, t) && |t| > |h| && ClosesAt(t, maxLen, c)
    ensures Weight(t, c, 1) <= Weight(r, start, 1)
    ensures Weight(t, c, 1) == Weight(r, start, 1) ==> |t| - c < |r| - start
  {
    if c > |h| {
      ClosedBehindHeader(r, start, fence, h, cut, t, c);
    } else {
      ClosingIsWithinHeader(r, start, maxLen, fence, h, cut, t, c);
    }
  }

  /** Where the loop stands when the iteration after a last resort is done as well. */
  ghost function Ahead(p: Progress, maxLen: Limit): Progress {
    if JustRebuilt(p) then Advance(p, maxLen) else p
  }

  ghost function Left(p: Progress, maxLen: Limit): int {
    2 * (|Ahead(p, maxLen).cells| - Ahead(p, maxLen).start) + (if JustRebuilt(p) then 1 else 0)
  }

  ghost function WeightLeft(p: Progress, maxLen: Limit): int {
    var a := Ahead(p, maxLen);
    if a.Valid() then Weight(Chars(a.cells), a.start, 1) else 0
  }

  ghost predicate LowersTo(q: Progress, p: Progress, maxLen: Limit) {
    Iteration.Lowers(WeightLeft(q, maxLen), Left(q, maxLen), WeightLeft(p, maxLen), Left(p, maxLen))
  }

  lemma WeightAtEnd(s: string, i: nat)
    requires i <= |s|
    ensures i == |s| ==> Weight(s, i, 1) == 0
  {
  }

  /** A rebuilt text that is no trap is consumed next. */
  lemma TwoStepsLower(p: Progress, q: Progress, maxLen: SmallLimit, fence: nat, h: string, cut: nat)
    requires p.Valid() && !JustRebuilt(p) && q.Valid() && q.start == 0 && !q.done && !Trapped(q, maxLen)
    requires SmallRebuild(Chars(p.cells), p.start, maxLen, fence, h, cut, Chars(q.cells)) && |q.cells| > |h|
    ensures LowersTo(q, p, maxLen)
  {
    var r, t, u := Chars(p.cells), Chars(q.cells), Advance(q, maxLen);
    RebuiltWeight(t, r, h, cut, 1);
    assert JustRebuilt(q);
    if |t| > maxLen {
      RebuiltConsumes(q, maxLen);
      ExtendedCloses(t, maxLen);
      var c := Decide(t, 0, maxLen).cut;
      ClosingLowers(r, p.start, maxLen, fence, h, cut, t, c);
      WeightFalls(t, c, u.start, 1);
    } else {
      WeightAtEnd(t, u.start);
    }
  }

  /** A rebuilt text that is all header has no line behind it. */
  lemma HeaderAloneLowers(p: Progress, q: Progress, maxLen: SmallLimit, fence: nat, h: string, cut: nat)
    requires p.Valid() && !JustRebuilt(p) && q.Valid() && q.start == 0
    requires SmallRebuild(Chars(p.cells), p.start, maxLen, fence, h, cut, Chars(q.cells)) && |q.cells| == |h|
    ensures LowersTo(q, p, maxLen)
  {
    var r := Chars(p.cells);
    RebuiltWeight(Chars(q.cells), r, h, cut, 1);
    PowerGrows(|h|, Span(r, fence));
    WeightFalls(r, p.start, fence, 1);
  }

  lemma ConsumingLowers(p: Progress, maxLen: SmallLimit)
    requires p.Valid() && !Advance(p, maxLen).done && !Decide(Chars(p.cells), p.start, maxLen).Reopens()
    ensures LowersTo(Advance(p, maxLen), p, maxLen)
  {
    WeightFalls(Chars(p.cells), p.start, Advance(p, maxLen).start, 1);
  }

  lemma SmallStepLowers(p: Progress, maxLen: SmallLimit)
    requires p.Valid() && !Trapped(p, maxLen) && !Advance(p, maxLen).done && !Trapped(Advance(p, maxLen), maxLen)
    ensures LowersTo(Advance(p, maxLen), p, maxLen)
  {
    if JustRebuilt(p) {
      RebuiltConsumes(p, maxLen);
    }
    if Decide(Chars(p.cells), p.start, maxLen).Reopens() {
      var q := Advance(p, maxLen);
      var fence, h, cut := SmallRebuilding(p, maxLen);
      if |q.cells| > |h| {
        TwoStepsLower(p, q, maxLen, fence, h, cut);
      } else {
        HeaderAloneLowers(p, q, maxLen, fence, h, cut);
      }
    } else {
      ConsumingLowers(p, maxLen);
    }
  }

  lemma SmallEndsOrIsTrapped(p: Progress, maxLen: SmallLimit) returns (n: nat)
    requires p.Valid()
    ensures var q := Iteration.Iterate(Step(maxLen), p, n); q.done || Trapped(q, maxLen)
  {
    var inv, goal := (p: Progress) => p.Valid(), (p: Progress) => p.done || Trapped(p, maxLen);
    var weight, left := (p: Progress) => WeightLeft(p, maxLen), (p: Progress) => Left(p, maxLen);
    forall p: Progress | inv(p) && !goal(p)
      ensures var q := Step(maxLen)(p);
              inv(q) && (goal(q) || Iteration.Lowers(weight(q), left(q), weight(p), left(p)))
    {
      if !goal(Advance(p, maxLen)) {
        SmallStepLowers(p, maxLen);
      }
    }
    n := Iteration.Reaches(Step(maxLen), inv, goal, weight, left, p);
  }

  // ------------------------------------------------------------------- the theorem

  lemma DoneStays(content: string, maxLen: Limit, m: nat, k: nat)
    ensures Run(content, maxLen, m).done ==> Run(content, maxLen, m + k).done
  {
    Iteration.Adds(Step(maxLen), Initial(content), m, k);
    if Run(content, maxLen, m).done {
      Iteration.Invariant(Step(maxLen), (p: Progress) => p.done, Run(content, maxLen, m), k);
    }
  }

  /** The loop does not end if and only if it comes to a trap with a long fence line, for every
      text and every limit: there is no other way to go on for ever. */
  lemma NeverEndsIffTrapped(content: string, maxLen: Limit)
    ensures NeverEnds(content, maxLen) <==>
            exists n: nat, h: nat :: h >= maxLen - 6 && Stuck(Run(content, maxLen, n), h, maxLen)
  {
    if n: nat, h: nat :| h >= maxLen - 6 && Stuck(Run(content, maxLen, n), h, maxLen) {
      forall m: nat ensures !Run(content, maxLen, m).done {
        if m < n {
          DoneStays(content, maxLen, m, n - m);
        } else {
          OnceTrappedNeverEnds(content, maxLen, n, h, m - n);
        }
      }
    }
    if NeverEnds(content, maxLen) {
      var n: nat;
      if maxLen >= 10 {
        n := EndsOrIsTrapped(Initial(content), maxLen);
      } else if maxLen >= 5 {
        n := SmallEndsOrIsTrapped(Initial(content), maxLen);
      } else {
        n := |content| + 1;
        Terminates(content, maxLen);
      }
      assert !Run(content, maxLen, n).done;
    }
  }
}

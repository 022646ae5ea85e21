/** When `SplitMessage` ends. Every iteration but one kind shortens what is left; the last
    resort puts the block's header back, and shortens it only if that header is short. */
module SplitTermination {
  import opened GoStrings
  import opened SplitScan
  import opened SplitModel
  import Iteration

  /** From a fence to the end of its line, or just the fence when no newline follows. */
  function HeaderSpan(r: string, fence: nat): int
    requires fence <= |r|
  {
    var newline := NextNewline(r, fence);
    if newline == -1 then 3 else newline - fence
  }

  /** Every fence line is short enough to be repeated in each chunk of its block. No fence
      fits in a window when maxLen is at most 4. */
  ghost predicate ShortHeaders(r: string, maxLen: int) {
    maxLen <= 4 || forall i: nat {:trigger FenceAt(r, i, |r|)} ::
      i < |r| && FenceAt(r, i, |r|) ==> HeaderSpan(r, i) <= maxLen - 7
  }

  lemma TrimAfterFence(line: string) returns (n: nat)
    requires FenceAt(line, 0, |line|)
    ensures 3 <= n <= |line| && TrimSpace(line) == line[..n] && !IsSpace(line[n - 1])
  {
    n := TrimmedLen(line, UnicodeSpace);
    TrimmedLenFacts(line, UnicodeSpace);
    assert !IsSpace(line[0]) && !IsSpace(line[2]);
    assert forall i :: n <= i < |line| ==> In(UnicodeSpace, line[i]);
    TrimKeeps(line, UnicodeSpace);
  }

  lemma HeaderShape(r: string, fence: nat)
    requires FenceAt(r, fence, |r|)
    ensures var h := Header(r, fence);
            && 3 <= |h| <= HeaderSpan(r, fence)
            && fence + |h| <= HeaderEnd(r, fence) <= |r|
            && h == r[fence..fence + |h|]
            && (NextNewline(r, fence) == -1 ==> |h| == 3)
            && h[0] == '`' && !IsSpace(h[|h| - 1])
            && forall k :: 0 <= k < |h| ==> h[k] != '\n'
  {
    var newline := NextNewline(r, fence);
    var end := if newline == -1 then fence + 3 else newline;
    assert r[fence] == '`' && r[fence + 1] == '`' && r[fence + 2] == '`';
    NextNewlineIsFirst(r, fence);
    var n := TrimAfterFence(r[fence..end]);
    assert r[fence..end][..n] == r[fence..fence + n];
  }

  /** The second newline search never lands before the tentative cut: the two 200-rune
      windows overlap, or the second one starts beyond the first result. */
  lemma SecondSearchNotBefore(r: string, start: nat, maxLen: int)
    requires maxLen >= 10 && |r| - start > maxLen
    ensures var better := LastInWindow(r, start, start + maxLen - 5, 200, true);
            better <= start || better >= Tentative(r, start, maxLen)
  {
    WindowsOverlap(r, start, start + EffectiveLimit(maxLen), start + maxLen - 5);
  }

  lemma WindowsOverlap(r: string, start: nat, end: nat, limit: nat)
    requires start < end <= limit <= |r|
    ensures var first := LastInWindow(r, start, end, 200, true);
            var better := LastInWindow(r, start, limit, 200, true);
            better <= start || better >= (if first > start then first else end)
  {
    var first := LastIn(r, Max(end - 200, start), end, true);
    var better := LastIn(r, Max(limit - 200, start), limit, true);
    assert better >= 0 ==> Wanted(r[better], true);
    assert first >= 0 ==> Wanted(r[first], true);
    LastInIsLast(r, Max(end - 200, start), end, true);
    LastInIsLast(r, Max(limit - 200, start), limit, true);
  }

  /** What a reopened text is: header, newline, and the runes after the cut, except for
      whitespace at the very end. */
  lemma ReopenedText(r: string, fence: nat, cut: nat) returns (m: nat)
    requires FenceAt(r, fence, |r|) && cut <= |r|
    ensures var h := Header(r, fence); var whole := h + "\n" + r[cut..];
            && |h| <= m <= |whole|
            && TrimSpace(whole) == whole[..m]
            && (m > 0 ==> !IsSpace(whole[m - 1]))
            && forall i :: m <= i < |whole| ==> IsSpace(whole[i])
  {
    HeaderShape(r, fence);
    var h := Header(r, fence);
    var whole := h + "\n" + r[cut..];
    m := TrimmedLen(whole, UnicodeSpace);
    TrimmedLenFacts(whole, UnicodeSpace);
    assert whole[0] == h[0] && whole[|h| - 1] == h[|h| - 1];
    assert forall i :: m <= i < |whole| ==> In(UnicodeSpace, whole[i]);
    TrimKeeps(whole, UnicodeSpace);
  }

  /** `t` is a header, a newline and the runes of `r` after `cut`, cut short at the end. */
  ghost predicate Reopened(t: string, r: string, h: string, cut: nat) {
    && |h| <= |t| <= |h| + 1 + |r| - cut
    && (forall k :: 0 <= k < |h| ==> t[k] == h[k])
    && (|t| > |h| ==> t[|h|] == '\n')
    && (forall k :: |h| < k < |t| ==> t[k] == r[k + cut - |h| - 1])
  }

  /** Every fence of a reopened text is a fence of the old text, with a header no longer. */
  lemma FenceComesFrom(r: string, fence: nat, cut: nat, t: string, j: nat)
    requires FenceAt(r, fence, |r|) && cut <= |r|
    requires Reopened(t, r, Header(r, fence), cut)
    requires j < |t| && FenceAt(t, j, |t|)
    ensures var h := Header(r, fence);
            var i := if j < |h| then fence + j else cut + j - |h| - 1;
            j != |h| && 0 <= i < |r| && FenceAt(r, i, |r|) && HeaderSpan(t, j) <= HeaderSpan(r, i)
  {
    HeaderShape(r, fence);
    var h := Header(r, fence);
    if j < |h| {
      FenceInHeader(r, fence, t, h, j);
    } else {
      FenceInTail(r, t, j, cut - |h| - 1);
    }
  }

  lemma JoinedShape(h: string, r: string, cut: nat, m: nat)
    requires cut <= |r| && |h| <= m <= |h + "\n" + r[cut..]|
    ensures Reopened((h + "\n" + r[cut..])[..m], r, h, cut)
  {
  }

  lemma ReopenedTextShape(r: string, fence: nat, cut: nat)
    requires FenceAt(r, fence, |r|) && cut <= |r|
    ensures Reopened(TrimSpace(Header(r, fence) + "\n" + r[cut..]), r, Header(r, fence), cut)
  {
    var m := ReopenedText(r, fence, cut);
    JoinedShape(Header(r, fence), r, cut, m);
  }

  lemma ReopeningKeepsShortHeaders(r: string, fence: nat, cut: nat, t: string, maxLen: int)
    requires FenceAt(r, fence, |r|) && cut <= |r|
    requires Reopened(t, r, Header(r, fence), cut)
    requires ShortHeaders(r, maxLen)
    ensures ShortHeaders(t, maxLen)
  {
    if maxLen > 4 {
      forall j: nat | j < |t| && FenceAt(t, j, |t|) ensures HeaderSpan(t, j) <= maxLen - 7 {
        FenceComesFrom(r, fence, cut, t, j);
      }
    }
  }

  lemma FenceInHeader(r: string, fence: nat, t: string, h: string, j: nat)
    requires fence + |h| <= |r| && h == r[fence..fence + |h|]
    requires NextNewline(r, fence) == -1 ==> |h| == 3
    requires j < |h| <= |t| && FenceAt(t, j, |t|)
    requires forall k :: 0 <= k < |h| ==> t[k] == h[k]
    requires |t| > |h| ==> t[|h|] == '\n'
    requires forall k :: 0 <= k < |h| ==> h[k] != '\n'
    ensures FenceAt(r, fence + j, |r|) && HeaderSpan(t, j) <= HeaderSpan(r, fence + j)
  {
    assert j + 3 <= |h|;
    assert forall k :: 0 <= k < |h| ==> h[k] == r[fence + k];
    HeaderNewline(t, h, j);
    var nl := NextNewline(r, fence + j);
    NextNewlineIsFirst(r, fence + j);
    NextNewlineIsFirst(r, fence);
    assert nl == -1 || nl >= fence + |h|;
    assert NextNewline(r, fence) >= 0 ==> r[NextNewline(r, fence)] == '\n';
  }

  lemma FenceInTail(r: string, t: string, j: nat, d: int)
    requires 0 <= j + d && |t| + d <= |r|
    requires j < |t| && FenceAt(t, j, |t|)
    requires forall k :: j <= k < |t| ==> t[k] == r[k + d]
    ensures FenceAt(r, j + d, |r|) && HeaderSpan(t, j) <= HeaderSpan(r, j + d)
  {
    assert r[j + d] == '`' && r[j + 1 + d] == '`' && r[j + 2 + d] == '`';
    var nl := NextNewline(r, j + d);
    NextNewlineIsFirst(r, j + d);
    if nl != -1 && nl - d < |t| {
      assert t[nl - d] == '\n';
      NextNewlineIs(t, j, nl - d);
    } else {
      NextNewlineIs(t, j, -1);
    }
  }

  lemma HeaderNewline(t: string, h: string, j: nat)
    requires j + 3 <= |h| <= |t|
    requires forall k :: 0 <= k < |h| ==> t[k] == h[k]
    requires |t| > |h| ==> t[|h|] == '\n'
    requires forall k :: 0 <= k < |h| ==> h[k] != '\n'
    ensures HeaderSpan(t, j) <= |h| - j
  {
    if |t| > |h| {
      NextNewlineIs(t, j, |h|);
    } else {
      NextNewlineIs(t, j, -1);
    }
  }

  /** What a reopening decision rests on: an open fence, and how far the cut lies beyond
      its header. */
  lemma OpenFence(r: string, start: nat, maxLen: int) returns (fence: nat)
    requires maxLen >= 1 && |r| - start > maxLen
    requires Unclosed(r, start, Tentative(r, start, maxLen), false, -1) >= 0
    ensures fence == Unclosed(r, start, Tentative(r, start, maxLen), false, -1)
    ensures start <= fence && fence + 3 <= Tentative(r, start, maxLen)
    ensures FenceAt(r, fence, |r|) && EvenBefore(r, start, fence, false)
  {
    var t := Tentative(r, start, maxLen);
    UnclosedMeaning(r, start, t, false, -1);
    fence := Unclosed(r, start, t, false, -1);
    assert FenceAt(r, fence, t);
  }

  lemma InsideCutIsFar(r: string, start: nat, maxLen: int)
    requires maxLen >= 10 && |r| - start > maxLen
    ensures var d := Decide(r, start, maxLen);
            d.Reopens() ==> d.cut >= d.tentative == Tentative(r, start, maxLen)
  {
    SecondSearchNotBefore(r, start, maxLen);
    if Unclosed(r, start, Tentative(r, start, maxLen), false, -1) >= 0 {
      var fence := OpenFence(r, start, maxLen);
      HeaderShape(r, fence);
    }
  }

  lemma ReopenFacts(r: string, start: nat, maxLen: int) returns (fence: nat)
    requires maxLen >= 1 && |r| - start > maxLen
    requires Decide(r, start, maxLen).Reopens()
    ensures var d := Decide(r, start, maxLen);
            && start <= fence && FenceAt(r, fence, |r|)
            && d.header == Header(r, fence)
            && (d.LastResort? ==> d.cut == start + maxLen - 5)
            && (d.SplitInside? ==> d.cut > HeaderEnd(r, fence) + 20)
  {
    fence := OpenFence(r, start, maxLen);
    OpenBlockFacts(r, start, maxLen, Tentative(r, start, maxLen), fence);
    if maxLen >= 10 {
      InsideCutIsFar(r, start, maxLen);
    }
  }

  lemma OpenBlockFacts(r: string, start: nat, maxLen: int, t: nat, fence: nat)
    requires maxLen >= 5 && |r| - start > maxLen
    requires start <= fence && fence + 3 <= t <= start + EffectiveLimit(maxLen) && FenceAt(r, fence, |r|)
    ensures var d := CutOpenBlock(r, start, maxLen, t, fence);
            && (d.Reopens() ==> d.header == Header(r, fence))
            && (d.LastResort? ==> d.cut == start + maxLen - 5)
            && (d.SplitInside? ==> d.tentative == t > HeaderEnd(r, fence) + 20 && maxLen >= 10)
  {
    HeaderShape(r, fence);
  }

  /** Every reopening shortens the text, as long as headers are short; splitting well inside
      a block always does. */
  lemma ReopeningShrinks(r: string, start: nat, maxLen: int)
    requires maxLen >= 1 && |r| - start > maxLen
    requires Decide(r, start, maxLen).Reopens()
    ensures var d := Decide(r, start, maxLen);
            var rest := TrimSpace(d.header + "\n" + r[d.cut..]);
            && (d.SplitInside? || ShortHeaders(r, maxLen) ==> |rest| < |r| - start)
            && (ShortHeaders(r, maxLen) ==> ShortHeaders(rest, maxLen))
  {
    var d := Decide(r, start, maxLen);
    var fence := ReopenFacts(r, start, maxLen);
    HeaderShape(r, fence);
    ReopenedTextShape(r, fence, d.cut);
    if ShortHeaders(r, maxLen) {
      ReopeningKeepsShortHeaders(r, fence, d.cut, TrimSpace(d.header + "\n" + r[d.cut..]), maxLen);
    }
  }

  ghost predicate Safe(p: Progress, maxLen: int) {
    ShortHeaders(Chars(p.cells), maxLen)
  }

  lemma ReopenedChars(p: Progress, cut: nat, header: string)
    requires p.Valid() && p.start <= cut <= |p.cells|
    ensures Chars(CloseAndReopen(p, cut, header).cells) == TrimSpace(header + "\n" + Chars(p.cells)[cut..])
  {
    var whole := Inject(header + "\n") + p.cells[cut..];
    CharsTrim(whole, UnicodeSpace);
    CharsConcat(Inject(header + "\n"), p.cells[cut..]);
    CharsInject(header + "\n");
    CharsPrefix(p.cells, cut);
  }

  /** The variant of the loop: what is left strictly shrinks on every iteration that goes
      on, including those that rebuild the text, and the hypothesis is kept. */
  lemma EveryIterationShrinks(p: Progress, maxLen: Limit)
    requires p.Valid() && !p.done && p.start < |p.cells|
    requires Safe(p, maxLen)
    ensures var q := Advance(p, maxLen);
            Safe(q, maxLen) && (q.done || |q.cells| - q.start < |p.cells| - p.start)
  {
    var r := Chars(p.cells);
    if |r| - p.start > maxLen {
      var d := Decide(r, p.start, maxLen);
      if d.Reopens() {
        ReopenedChars(p, d.cut, d.header);
        ReopeningShrinks(r, p.start, maxLen);
      }
    }
  }

  /** The loop ends within one iteration per rune. */
  lemma Terminates(content: string, maxLen: Limit)
    requires ShortHeaders(content, maxLen)
    ensures Run(content, maxLen, |content| + 1).done
  {
    CharsTagged(content);
    var inv := (p: Progress) => p.Valid() && Safe(p, maxLen);
    var done := (p: Progress) => p.done;
    var left := (p: Progress) => |p.cells| - p.start;
    forall p: Progress | inv(p)
      ensures var q := Step(maxLen)(p);
              inv(q) && (done(p) ==> done(q)) && (done(q) || 0 <= left(q) < left(p))
    {
      if !p.done && p.start < |p.cells| {
        EveryIterationShrinks(p, maxLen);
      }
    }
    Iteration.Exhausts(Step(maxLen), inv, done, left, Initial(content), |content| + 1);
  }
}

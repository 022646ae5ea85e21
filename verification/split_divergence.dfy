/** The header condition is needed: a text at whose opening fence the loop falls to its last
    resort, with a fence line that fills the chunk, is re-opened for ever. */
module SplitDivergence {
  import opened GoStrings
  import opened SplitScan
  import opened SplitModel
  import opened SplitTermination
  import Iteration

  /** The first decision is the last resort, because of the block opened by the first runes. */
  ghost predicate GivesUpAtStart(r: string, maxLen: Limit)
    requires |r| > maxLen
  {
    && Decide(r, 0, maxLen).LastResort?
    && Unclosed(r, 0, Tentative(r, 0, maxLen), false, -1) == 0
  }

  /** A text too long for one message, without whitespace at its end, that begins with a fence
      line of `h` runes, without whitespace at the end of that line, and falls to the last
      resort there. What follows is arbitrary. */
  ghost predicate Trap(r: string, h: nat, maxLen: Limit) {
    && 3 <= h < |r| && |r| > maxLen
    && FenceAt(r, 0, |r|) && NextNewline(r, 0) == h
    && !IsSpace(r[h - 1]) && !IsSpace(r[|r| - 1])
    && GivesUpAtStart(r, maxLen)
  }

  // ----------------------------------------------- decisions look no further than this

  lemma {:induction false} SameLastIn(r: string, q: string, lo: int, hi: int, newline: bool)
    requires 0 <= lo && hi <= |r| && hi <= |q| && forall k :: 0 <= k < hi ==> q[k] == r[k]
    ensures LastIn(q, lo, hi, newline) == LastIn(r, lo, hi, newline)
    decreases hi - lo
  {
    if lo < hi {
      SameLastIn(r, q, lo, hi - 1, newline);
    }
  }

  lemma SameTentative(r: string, q: string, maxLen: Limit)
    requires |r| > maxLen && |q| > maxLen && forall k :: 0 <= k < EffectiveLimit(maxLen) ==> q[k] == r[k]
    ensures Tentative(q, 0, maxLen) == Tentative(r, 0, maxLen)
  {
    var end := EffectiveLimit(maxLen);
    SameLastIn(r, q, Max(end - 200, 0), end, true);
    SameLastIn(r, q, Max(end - 100, 0), end, false);
  }

  lemma {:induction false} SameUnclosed(r: string, q: string, i: int, end: int, inBlock: bool, open: int)
    requires 0 <= i && end <= |r| && end <= |q| && forall k :: 0 <= k < end ==> q[k] == r[k]
    ensures Unclosed(q, i, end, inBlock, open) == Unclosed(r, i, end, inBlock, open)
    decreases end - i
  {
    if i < end {
      if FenceAt(r, i, end) {
        SameUnclosed(r, q, i + 3, end, !inBlock, if inBlock then open else i);
      } else {
        SameUnclosed(r, q, i + 1, end, inBlock, open);
      }
    }
  }

  lemma TrapHeader(r: string, h: nat, maxLen: Limit)
    requires Trap(r, h, maxLen)
    ensures Header(r, 0) == r[..h] && HeaderEnd(r, 0) == h
  {
    assert r[0..h] == r[..h];
    TrimKeeps(r[..h], UnicodeSpace);
  }

  /** What the last resort at the start rests on. */
  lemma TrapScan(r: string, h: nat, maxLen: Limit)
    requires Trap(r, h, maxLen)
    ensures var t, d := Tentative(r, 0, maxLen), Decide(r, 0, maxLen);
            && maxLen >= 5 && 3 <= t <= EffectiveLimit(maxLen) && t <= h + 20
            && d == LastResort(maxLen - 5, t, r[..h])
            && forall j :: t <= j && j + 3 <= maxLen ==> !FenceAt(r, j, |r|)
  {
    var t := Tentative(r, 0, maxLen);
    var fence := OpenFence(r, 0, maxLen);
    TrapHeader(r, h, maxLen);
    NextClosingIsFirst(r, t, |r|);
  }

  /** Conversely: an open block at the start, no fence that would close it within the chunk,
      and little text behind the fence line. */
  lemma GivesUp(r: string, h: nat, maxLen: Limit, t: nat)
    requires maxLen >= 5 && |r| > maxLen && FenceAt(r, 0, |r|) && HeaderEnd(r, 0) == h
    requires t == Tentative(r, 0, maxLen) && 3 <= t <= h + 20 && Unclosed(r, 0, t, false, -1) == 0
    requires forall j :: t <= j && j + 3 <= maxLen ==> !FenceAt(r, j, |r|)
    ensures GivesUpAtStart(r, maxLen)
  {
  }

  // ----------------------------------------------------------------- for ever

  /** Behind the rebuilt line every rune stood no further on before. */
  lemma NoCloserBehindLine(r: string, h: nat, maxLen: Limit, q: string, j: nat)
    requires Trap(r, h, maxLen) && maxLen >= 5 && h >= maxLen - 6 && q == r[..h] + "\n" + r[maxLen - 5..]
    requires h < j && Tentative(r, 0, maxLen) <= j && j + 3 <= maxLen && j + 3 <= |q|
    ensures !FenceAt(q, j, |q|)
  {
    TrapScan(r, h, maxLen);
    assert r[h] == '\n';
    var i := j + maxLen - 6 - h;
    assert q[j] == r[i] && q[j + 1] == r[i + 1] && q[j + 2] == r[i + 2];
    assert i >= Tentative(r, 0, maxLen) || i <= h <= i + 2;
    assert !FenceAt(r, i, |r|);
  }

  /** The rebuilt text repeats the window and moves the fences behind it no nearer. */
  lemma RebuiltHasNoCloser(r: string, h: nat, maxLen: Limit, q: string, j: nat)
    requires Trap(r, h, maxLen) && maxLen >= 5 && h >= maxLen - 6 && q == r[..h] + "\n" + r[maxLen - 5..]
    requires Tentative(r, 0, maxLen) <= j && j + 3 <= maxLen && j + 3 <= |q|
    ensures !FenceAt(q, j, |q|)
  {
    assert r[h] == '\n' && q[h] == '\n';
    if j < h {
      TrapScan(r, h, maxLen);
      assert !FenceAt(r, j, |r|);
      assert q[j] == r[j] && (j + 1 <= h ==> q[j + 1] == r[j + 1]) && (j + 2 <= h ==> q[j + 2] == r[j + 2]);
    } else if j > h {
      NoCloserBehindLine(r, h, maxLen, q, j);
    }
  }

  lemma WindowFits(maxLen: Limit, h: nat)
    requires maxLen >= 5 && h >= 3 && h >= maxLen - 5
    ensures EffectiveLimit(maxLen) <= h + 1
  {
  }

  lemma RebuiltAgrees(r: string, h: nat, maxLen: Limit, q: string)
    requires Trap(r, h, maxLen) && maxLen >= 5 && h >= maxLen - 6 && q == r[..h] + "\n" + r[maxLen - 5..]
    ensures |q| > maxLen && forall k :: 0 <= k < EffectiveLimit(maxLen) ==> q[k] == r[k]
  {
    NextNewlineIsFirst(r, 0);
    assert r[h] == '\n' && q[h] == '\n';
    if h == maxLen - 6 {
      assert forall k :: h < k < |q| ==> q[k] == r[k];
    } else {
      WindowFits(maxLen, h);
    }
  }

  lemma RebuiltGivesUp(r: string, h: nat, maxLen: Limit, q: string)
    requires Trap(r, h, maxLen) && maxLen >= 5 && h >= maxLen - 6 && q == r[..h] + "\n" + r[maxLen - 5..]
    requires |q| > maxLen && FenceAt(q, 0, |q|) && HeaderEnd(q, 0) == h
    ensures GivesUpAtStart(q, maxLen)
  {
    var t := Tentative(r, 0, maxLen);
    RebuiltAgrees(r, h, maxLen, q);
    TrapScan(r, h, maxLen);
    SameTentative(r, q, maxLen);
    SameUnclosed(r, q, 0, t, false, -1);
    forall j | t <= j && j + 3 <= maxLen ensures !FenceAt(q, j, |q|) {
      RebuiltHasNoCloser(r, h, maxLen, q, j);
    }
    GivesUp(q, h, maxLen, t);
  }

  lemma RebuiltIsTrap(r: string, h: nat, maxLen: Limit)
    requires Trap(r, h, maxLen) && maxLen >= 5 && h >= maxLen - 6
    ensures Trap(TrimSpace(r[..h] + "\n" + r[maxLen - 5..]), h, maxLen)
  {
    var q := r[..h] + "\n" + r[maxLen - 5..];
    RebuiltAgrees(r, h, maxLen, q);
    RebuiltOpens(r, h, maxLen, q);
    RebuiltGivesUp(r, h, maxLen, q);
  }

  lemma RebuiltOpens(r: string, h: nat, maxLen: Limit, q: string)
    requires Trap(r, h, maxLen) && maxLen >= 5 && q == r[..h] + "\n" + r[maxLen - 5..]
    ensures TrimSpace(q) == q && !IsSpace(q[|q| - 1])
    ensures FenceAt(q, 0, |q|) && NextNewline(q, 0) == h && HeaderEnd(q, 0) == h
  {
    assert r[0] == '`' && r[1] == '`' && r[2] == '`';
    assert q[0] == '`' && q[1] == '`' && q[2] == '`';
    assert q[|q| - 1] == r[|r| - 1];
    TrimKeeps(q, UnicodeSpace);
    NextNewlineIsFirst(r, 0);
    NextNewlineIs(q, 0, h);
  }

  ghost predicate Stuck(p: Progress, h: nat, maxLen: Limit) {
    p.Valid() && p.start == 0 && !p.done && Trap(Chars(p.cells), h, maxLen)
  }

  lemma StaysStuck(p: Progress, h: nat, maxLen: Limit)
    requires h >= maxLen - 6 && Stuck(p, h, maxLen)
    ensures Stuck(Advance(p, maxLen), h, maxLen)
  {
    TrapScan(Chars(p.cells), h, maxLen);
    ReopenedIsStuck(p, h, maxLen);
  }

  lemma ReopenedIsStuck(p: Progress, h: nat, maxLen: Limit)
    requires maxLen >= 5 && h >= maxLen - 6 && Stuck(p, h, maxLen)
    ensures Stuck(CloseAndReopen(p, maxLen - 5, Chars(p.cells)[..h]), h, maxLen)
  {
    RebuiltIsTrap(Chars(p.cells), h, maxLen);
    ReopenedChars(p, maxLen - 5, Chars(p.cells)[..h]);
  }

  lemma StuckForEver(p: Progress, h: nat, maxLen: Limit, m: nat)
    requires h >= maxLen - 6 && Stuck(p, h, maxLen)
    ensures !Iteration.Iterate(Step(maxLen), p, m).done
  {
    var inv := (p: Progress) => Stuck(p, h, maxLen);
    forall p: Progress | inv(p) ensures inv(Step(maxLen)(p)) {
      StaysStuck(p, h, maxLen);
    }
    Iteration.Invariant(Step(maxLen), inv, p, m);
  }

  /** Once the loop stands at the beginning of such a text with a long fence line, it never
      ends. */
  lemma OnceTrappedNeverEnds(content: string, maxLen: Limit, n: nat, h: nat, m: nat)
    requires h >= maxLen - 6 && Stuck(Run(content, maxLen, n), h, maxLen)
    ensures !Run(content, maxLen, n + m).done
  {
    StuckForEver(Run(content, maxLen, n), h, maxLen, m);
    Iteration.Adds(Step(maxLen), Initial(content), n, m);
  }

  ghost predicate NeverEnds(content: string, maxLen: Limit) {
    forall n :: !Run(content, maxLen, n).done
  }

  /** So a message of that shape is never sent. */
  lemma LongHeaderNeverEnds(content: string, h: nat, maxLen: Limit)
    requires h >= maxLen - 6 && Trap(content, h, maxLen)
    ensures NeverEnds(content, maxLen)
  {
    CharsTagged(content);
    forall n ensures !Run(content, maxLen, n).done {
      StuckForEver(Initial(content), h, maxLen, n);
    }
  }

  // ---------------------------------------------------------- exactly when it ends

  /** Every fence line but the first is short. */
  ghost predicate OthersShort(r: string, maxLen: int) {
    forall i: nat {:trigger FenceAt(r, i, |r|)} ::
      3 <= i < |r| && FenceAt(r, i, |r|) ==> HeaderSpan(r, i) <= maxLen - 7
  }

  lemma AllHeadersShort(r: string, h: nat, maxLen: Limit)
    requires Trap(r, h, maxLen) && OthersShort(r, maxLen) && h <= maxLen - 7
    ensures ShortHeaders(r, maxLen)
  {
    NextNewlineIsFirst(r, 0);
    forall i: nat | i < |r| && FenceAt(r, i, |r|) ensures HeaderSpan(r, i) <= maxLen - 7 {
      if i < 3 {
        assert r[0] == '`' && r[1] == '`' && r[2] == '`';
        NextNewlineIs(r, i, h);
      }
    }
  }

  /** For a text as in `Trap` - longer than a chunk, no whitespace at the end of the text or of
      its opening fence line, and the loop falling to its last resort at that line - whose other
      fence lines are short, the opening line decides: the loop ends if and only if it leaves
      seven runes of the chunk. */
  lemma OpeningLineDecides(content: string, h: nat, maxLen: Limit)
    requires Trap(content, h, maxLen) && OthersShort(content, maxLen)
    ensures !NeverEnds(content, maxLen) <==> h <= maxLen - 7
  {
    if h <= maxLen - 7 {
      AllHeadersShort(content, h, maxLen);
      Terminates(content, maxLen);
    } else {
      LongHeaderNeverEnds(content, h, maxLen);
    }
  }

  /** A fence line of `maxLen + 3` runes without further backticks, and one rune below it. */
  lemma LongLineIsTrap(content: string, maxLen: Limit, h: nat)
    requires maxLen >= 5 && h == maxLen + 3 && |content| == h + 2
    requires FenceAt(content, 0, |content|) && content[h] == '\n' && content[h + 1] == 'y'
    requires forall k :: 3 <= k < h ==> content[k] == 'x'
    ensures Trap(content, h, maxLen)
  {
    assert content[0] == '`' && content[1] == '`' && content[2] == '`';
    NextNewlineIs(content, 0, h);
    assert content[0..h] == content[..h];
    var end := EffectiveLimit(maxLen);
    assert forall k :: 0 <= k < end ==> !Wanted(content[k], true) && !Wanted(content[k], false);
    assert Tentative(content, 0, maxLen) == end;
    UnclosedNone(content, 3, end, 0);
    assert FenceAt(content, 0, end);
    GivesUp(content, h, maxLen, end);
  }

  /** Which limits are dangerous: from 5 on there is a text on which the loop never ends, below
      it always ends. */
  lemma DivergesForSomeText(maxLen: Limit)
    ensures (exists content :: NeverEnds(content, maxLen)) <==> maxLen >= 5
  {
    if maxLen >= 5 {
      var content := "```" + seq(maxLen, _ => 'x') + "\n" + "y";
      LongLineIsTrap(content, maxLen, maxLen + 3);
      LongHeaderNeverEnds(content, maxLen + 3, maxLen);
    } else {
      forall content: string ensures !NeverEnds(content, maxLen) {
        Terminates(content, maxLen);
      }
    }
  }
}

/** One iteration of `SplitMessage` as a function, over runes that remember where they
    came from. */
module SplitModel {
  import opened GoStrings
  import opened SplitScan
  import Iteration

  /** A maximal chunk length for which the loop is entered. */
  type Limit = n: int | n >= 1 witness 1

  // ---------------------------------------------------------------- the decision

  /** Where an iteration cuts. `tentative` is the cut chosen before fences are looked at. */
  datatype Decision =
    | Natural(cut: nat)                                        // no open block
    | Extended(cut: nat, tentative: nat)                       // up to the closing fence
    | Before(cut: nat)                                         // at a blank before the block
    | AtFence(cut: nat)                                        // right at the opening fence
    | SplitInside(cut: nat, tentative: nat, header: string)    // close and reopen the block
    | LastResort(cut: nat, tentative: nat, header: string)     // same, with nothing better
  {
    predicate Reopens() { SplitInside? || LastResort? }
  }

  /** The window that leaves room for a closing fence. */
  function EffectiveLimit(maxLen: int): (n: int)
    requires maxLen >= 1
    ensures 1 <= n <= maxLen
    ensures maxLen <= 4 ==> n <= 2
    ensures maxLen >= 10 ==> n <= maxLen - 5
  {
    var buffer := Max(maxLen / 10, 50);
    var capped := if buffer > maxLen / 2 then maxLen / 2 else buffer;
    Max(maxLen - capped, maxLen / 2)
  }

  function Tentative(r: string, start: nat, maxLen: int): (t: int)
    requires maxLen >= 1 && |r| - start > maxLen
    ensures start < t <= start + EffectiveLimit(maxLen)
  {
    var end := start + EffectiveLimit(maxLen);
    var newline := LastInWindow(r, start, end, 200, true);
    if newline > start then newline
    else
      var blank := LastInWindow(r, start, end, 100, false);
      if blank > start then blank else end
  }

  /** The opening fence with its info string, as it is repeated in the next chunk. */
  function Header(r: string, fence: nat): (h: string)
    requires FenceAt(r, fence, |r|)
  {
    var newline := NextNewline(r, fence);
    if newline == -1 then TrimSpace(r[fence..fence + 3]) else TrimSpace(r[fence..newline])
  }

  function HeaderEnd(r: string, fence: nat): int
    requires FenceAt(r, fence, |r|)
  {
    var newline := NextNewline(r, fence);
    if newline == -1 then fence + |Header(r, fence)| else newline
  }

  /** The cut when a block is open whose closing fence does not fit. */
  function CutOpenBlock(r: string, start: nat, maxLen: int, t: nat, fence: nat): (d: Decision)
    requires maxLen >= 5 && |r| - start > maxLen
    requires start <= fence && fence + 3 <= t <= start + EffectiveLimit(maxLen) && FenceAt(r, fence, |r|)
    ensures start <= d.cut <= start + maxLen
    ensures !d.Reopens() ==> start < d.cut
    ensures d.Reopens() ==> d.cut <= start + maxLen - 5
  {
    var limit := Min(start + maxLen - 5, |r|);
    if t > HeaderEnd(r, fence) + 20 then
      var better := LastInWindow(r, start, limit, 200, true);
      SplitInside(if better > HeaderEnd(r, fence) then better else limit, t, Header(r, fence))
    else
      var newline := LastInWindow(r, start, fence, 200, true);
      var split := if newline <= start then LastInWindow(r, start, fence, 100, false) else newline;
      if split > start then Before(split)
      else if fence - start > 20 then AtFence(fence)
      else LastResort(limit, t, Header(r, fence))
  }

  function Decide(r: string, start: nat, maxLen: int): (d: Decision)
    requires maxLen >= 1 && |r| - start > maxLen
    ensures start <= d.cut <= start + maxLen
    ensures !d.Reopens() ==> start < d.cut
    ensures d.Reopens() ==> maxLen >= 5 && d.cut <= start + maxLen - 5
  {
    var t := Tentative(r, start, maxLen);
    UnclosedMeaning(r, start, t, false, -1);
    var fence := Unclosed(r, start, t, false, -1);
    if fence < 0 then Natural(t)
    else
      var closing := NextClosing(r, t, |r|);
      if closing > 0 && closing - start <= maxLen then Extended(closing, t)
      else CutOpenBlock(r, start, maxLen, t, fence)
  }

  // --------------------------------------------------------------- tagged runes

  datatype Origin = Source(index: nat) | Injected
  datatype Cell = Cell(ch: char, origin: Origin)

  function Chars(cs: seq<Cell>): (s: string)
    ensures |s| == |cs|
  {
    seq(|cs|, i requires 0 <= i < |cs| => cs[i].ch)
  }

  function Inject(s: string): (cs: seq<Cell>)
    ensures |cs| == |s|
  {
    seq(|s|, i requires 0 <= i < |s| => Cell(s[i], Injected))
  }

  function Tagged(content: string): (cs: seq<Cell>)
    ensures |cs| == |content|
  {
    seq(|content|, i requires 0 <= i < |content| => Cell(content[i], Source(i)))
  }

  function TrimRightCells(cs: seq<Cell>, k: Cutset): seq<Cell> {
    cs[..TrimmedLen(Chars(cs), k)]
  }

  function TrimCells(cs: seq<Cell>, k: Cutset): seq<Cell> {
    TrimRightCells(cs[LeadingLen(Chars(cs), k)..], k)
  }

  lemma CharsConcat(a: seq<Cell>, b: seq<Cell>)
    ensures Chars(a + b) == Chars(a) + Chars(b)
  {
  }

  lemma CharsSlice(a: seq<Cell>, i: nat, j: nat)
    requires i <= j <= |a|
    ensures Chars(a[i..j]) == Chars(a)[i..j]
  {
  }

  lemma CharsInject(s: string)
    ensures Chars(Inject(s)) == s
  {
  }

  lemma CharsPrefix(a: seq<Cell>, n: nat)
    requires n <= |a|
    ensures Chars(a[..n]) == Chars(a)[..n]
    ensures Chars(a[n..]) == Chars(a)[n..]
  {
  }

  lemma CharsTrimRight(a: seq<Cell>, k: Cutset)
    ensures Chars(TrimRightCells(a, k)) == TrimRight(Chars(a), k)
  {
    CharsPrefix(a, TrimmedLen(Chars(a), k));
  }

  lemma CharsTrim(a: seq<Cell>, k: Cutset)
    ensures Chars(TrimCells(a, k)) == Trim(Chars(a), k)
  {
    var n := LeadingLen(Chars(a), k);
    CharsPrefix(a, n);
    CharsTrimRight(a[n..], k);
  }

  lemma CharsTagged(content: string)
    ensures Chars(Tagged(content)) == content
  {
  }

  // -------------------------------------------------------------- the iteration

  /** Everything the loop has emitted, and what it still works on. */
  datatype Progress = Progress(pieces: seq<seq<Cell>>, cells: seq<Cell>, start: nat, done: bool) {
    predicate Valid() { start <= |cells| }

    /** The part of the working text not yet emitted. */
    function Rest(): seq<Cell> requires Valid() { cells[start..] }
  }

  /** The first index at or after `from` that is not a space, tab, newline or return. */
  function SkipBlank(r: string, from: nat): (i: nat)
    requires from <= |r|
    ensures from <= i <= |r|
    decreases |r| - from
  {
    if from < |r| && In(AsciiBlank, r[from]) then SkipBlank(r, from + 1) else from
  }

  lemma {:induction false} SkipBlankFacts(r: string, from: nat)
    requires from <= |r|
    ensures var i := SkipBlank(r, from);
            && (forall j :: from <= j < i ==> In(AsciiBlank, r[j]))
            && (i < |r| ==> !In(AsciiBlank, r[i]))
    decreases |r| - from
  {
    if from < |r| && In(AsciiBlank, r[from]) {
      SkipBlankFacts(r, from + 1);
    }
  }

  function CloseAndReopen(p: Progress, cut: nat, header: string): (q: Progress)
    requires p.Valid() && p.start <= cut <= |p.cells|
    ensures q.Valid()
  {
    var chunk := TrimRightCells(p.cells[p.start..cut], AsciiBlank) + Inject("\n```");
    var rest := TrimCells(Inject(header + "\n") + p.cells[cut..], UnicodeSpace);
    Progress(p.pieces + [chunk], rest, 0, false)
  }

  function Advance(p: Progress, maxLen: Limit): (q: Progress)
    ensures p.Valid() ==> q.Valid()
  {
    if p.done || p.start >= |p.cells| then p.(done := true)
    else if |p.cells| - p.start <= maxLen then
      Progress(p.pieces + [p.cells[p.start..]], p.cells, |p.cells|, true)
    else
      var d := Decide(Chars(p.cells), p.start, maxLen);
      if d.Reopens() then CloseAndReopen(p, d.cut, d.header)
      else
        Progress(p.pieces + [p.cells[p.start..d.cut]], p.cells, SkipBlank(Chars(p.cells), d.cut), false)
  }

  function Initial(content: string): Progress {
    Progress([], Tagged(content), 0, false)
  }

  function Step(maxLen: Limit): Progress -> Progress {
    p => Advance(p, maxLen)
  }

  /** The loop after `n` iterations, whether or not it would ever end. */
  function Run(content: string, maxLen: Limit, n: nat): Progress {
    Iteration.Iterate(Step(maxLen), Initial(content), n)
  }
}

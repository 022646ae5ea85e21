/** Where `SplitMessage` cuts, said without its searches: by what stands in the windows before
    the end of the room that a chunk has. */
module SplitCuts {
  import opened GoStrings
  import opened SplitScan
  import opened SplitModel
  import opened SplitTermination
  import opened SplitConservation
  import opened Splitter
  import Iteration

  /** The runes of a chunk that leave room for a closing fence: half of the limit, all but 50,
      or nine tenths of it, as the limit grows. */
  function Room(maxLen: Limit): (n: nat)
    ensures 1 <= n <= maxLen
  {
    if maxLen < 100 then (maxLen + 1) / 2 else if maxLen < 500 then maxLen - 50 else maxLen - maxLen / 10
  }

  datatype Kind = Newline | Blank

  predicate Is(kind: Kind, c: char) {
    match kind
    case Newline => c == '\n'
    case Blank => c == ' ' || c == '\t'
  }

  /** No rune of a kind lies behind `start` among the last `window` ones before `end`. */
  ghost predicate NoneBefore(r: string, start: int, end: int, window: nat, kind: Kind)
    requires 0 <= start && end <= |r|
  {
    forall j :: start < j < end && end - window <= j ==> !Is(kind, r[j])
  }

  /** `i` is the last of them. */
  ghost predicate LastBefore(r: string, start: int, end: int, window: nat, kind: Kind, i: int)
    requires 0 <= start && end <= |r|
  {
    && start < i < end && end - window <= i && Is(kind, r[i])
    && forall j :: i < j < end ==> !Is(kind, r[j])
  }

  /** The natural cut before `end`: the last newline of 200 runes, without one the last blank
      of 100, without either `end` itself. */
  ghost predicate NaturalCut(r: string, start: int, end: int, c: int)
    requires 0 <= start && end <= |r|
  {
    || LastBefore(r, start, end, 200, Newline, c)
    || (NoneBefore(r, start, end, 200, Newline) && LastBefore(r, start, end, 100, Blank, c))
    || (NoneBefore(r, start, end, 200, Newline) && NoneBefore(r, start, end, 100, Blank) && c == end)
  }

  lemma NaturalCutIsUnique(r: string, start: int, end: int, c: int, d: int)
    requires 0 <= start < end <= |r| && NaturalCut(r, start, end, c) && NaturalCut(r, start, end, d)
    ensures start < c <= end && c == d
  {
  }

  /** What the backward searches of the source find behind `start`. */
  lemma SearchIsLast(r: string, start: int, end: int, window: nat, kind: Kind)
    requires 0 <= start <= end <= |r|
    ensures var i := LastInWindow(r, start, end, window, kind.Newline?);
            if i > start then LastBefore(r, start, end, window, kind, i) else NoneBefore(r, start, end, window, kind)
  {
    LastInIsLast(r, Max(end - window, start), end, kind.Newline?);
  }

  lemma RoomIsTheWindow(maxLen: Limit)
    ensures EffectiveLimit(maxLen) == Room(maxLen)
  {
  }

  lemma TentativeIsNatural(r: string, start: nat, maxLen: Limit)
    requires |r| - start > maxLen
    ensures NaturalCut(r, start, start + Room(maxLen), Tentative(r, start, maxLen))
  {
    RoomIsTheWindow(maxLen);
    var end := start + Room(maxLen);
    SearchIsLast(r, start, end, 200, Newline);
    SearchIsLast(r, start, end, 100, Blank);
  }

  // ------------------------------------------------------------------ no block is open

  /** The runes skipped between two chunks. */
  predicate IsSkipped(c: char) {
    c == ' ' || c == '\t' || c == '\n' || c == '\r'
  }

  /** The loop goes from `p` to `q` by emitting the runes up to `c`, and skips what is blank
      behind them. */
  ghost predicate CutsAt(p: Progress, q: Progress, c: nat) {
    && p.Valid() && q.Valid() && p.start < c <= |p.cells|
    && q.pieces == p.pieces + [p.cells[p.start..c]] && q.cells == p.cells && !q.done
    && c <= q.start && (forall j :: c <= j < q.start ==> IsSkipped(p.cells[j].ch))
    && (q.start < |q.cells| ==> !IsSkipped(q.cells[q.start].ch))
  }

  lemma CuttingStep(p: Progress, maxLen: Limit)
    requires p.Valid() && !p.done && |p.cells| - p.start > maxLen && !Decide(Chars(p.cells), p.start, maxLen).Reopens()
    ensures CutsAt(p, Advance(p, maxLen), Decide(Chars(p.cells), p.start, maxLen).cut)
  {
    var r := Chars(p.cells);
    SkipBlankFacts(r, Decide(r, p.start, maxLen).cut);
    assert forall j :: 0 <= j < |r| ==> r[j] == p.cells[j].ch && (In(AsciiBlank, r[j]) <==> IsSkipped(r[j]));
  }

  lemma RunIsValid(content: string, maxLen: Limit, n: nat)
    ensures Run(content, maxLen, n).Valid()
  {
    EveryRunConserves(content, maxLen, n);
  }

  lemma NoBlockDecides(r: string, start: nat, maxLen: Limit)
    requires |r| - start > maxLen && Count(r, start, Tentative(r, start, maxLen)) % 2 == 0
    ensures Decide(r, start, maxLen) == Natural(Tentative(r, start, maxLen))
  {
    UnclosedMeaning(r, start, Tentative(r, start, maxLen), false, -1);
  }

  lemma NaturalStep(p: Progress, maxLen: Limit) returns (c: nat)
    requires p.Valid() && !p.done && |p.cells| - p.start > maxLen
    ensures var r, end := Chars(p.cells), p.start + Room(maxLen);
            && p.start < c <= end && NaturalCut(r, p.start, end, c)
            && (Count(r, p.start, c) % 2 == 0 ==> CutsAt(p, Advance(p, maxLen), c))
  {
    var r := Chars(p.cells);
    c := Tentative(r, p.start, maxLen);
    TentativeIsNatural(r, p.start, maxLen);
    NaturalCutIsUnique(r, p.start, p.start + Room(maxLen), c, c);
    if Count(r, p.start, c) % 2 == 0 {
      NoBlockDecides(r, p.start, maxLen);
      CuttingStep(p, maxLen);
    }
  }

  /** In every iteration that still has more than a chunk before it there is exactly one natural
      cut, and when no block is open there the loop cuts at it. */
  lemma CutsNaturally(content: string, maxLen: Limit, n: nat) returns (c: nat)
    requires var p := Run(content, maxLen, n); !p.done && |p.cells| - p.start > maxLen
    ensures var p := Run(content, maxLen, n);
            var r, end := Chars(p.cells), p.start + Room(maxLen);
            && p.start < c <= end && NaturalCut(r, p.start, end, c)
            && (Count(r, p.start, c) % 2 == 0 ==> CutsAt(p, Run(content, maxLen, n + 1), c))
  {
    var p := Run(content, maxLen, n);
    RunIsValid(content, maxLen, n);
    OneMore(content, maxLen, n);
    c := NaturalStep(p, maxLen);
  }

  /** What fits into one chunk is emitted whole, and then the loop is over. */
  lemma RestIsEmittedWhole(content: string, maxLen: Limit, n: nat)
    requires var p := Run(content, maxLen, n); !p.done && |p.cells| - p.start <= maxLen
    ensures var p, q := Run(content, maxLen, n), Run(content, maxLen, n + 1);
            && q.done && p.start <= |p.cells|
            && q.pieces == p.pieces + (if p.start < |p.cells| then [p.cells[p.start..]] else [])
  {
    RunIsValid(content, maxLen, n);
    OneMore(content, maxLen, n);
    assert Run(content, maxLen, n).pieces + [] == Run(content, maxLen, n).pieces;
  }

  /** So a text that fits is its only chunk. */
  lemma FittingTextIsWhole(content: string, maxLen: Limit, n: nat)
    requires |content| <= maxLen && EndsBy(content, maxLen, n)
    ensures Texts(Run(content, maxLen, n).pieces) == if content == "" then [] else [content]
  {
    CharsTagged(content);
    var one := Run(content, maxLen, 1);
    RestIsEmittedWhole(content, maxLen, 0);
    assert EndsBy(content, maxLen, 1);
    SplitIsUnique(content, maxLen, n, 1);
    assert Tagged(content)[0..] == Tagged(content);
    if content != "" {
      assert one.pieces == [Tagged(content)];
      assert Texts(one.pieces) == [content];
    }
  }

  predicate IsWordRune(c: char) {
    c != ' ' && c != '\t' && c != '\n'
  }

  /** Such a cut falls inside a word only when neither window holds a newline or a blank. */
  lemma WordsAreCutOnlyAtNeed(content: string, maxLen: Limit, n: nat, c: nat)
    requires var p := Run(content, maxLen, n); !p.done && |p.cells| - p.start > maxLen
    requires var p := Run(content, maxLen, n);
             NaturalCut(Chars(p.cells), p.start, p.start + Room(maxLen), c) && c < |p.cells|
    requires var p := Run(content, maxLen, n); IsWordRune(p.cells[c - 1].ch) && IsWordRune(p.cells[c].ch)
    ensures var p := Run(content, maxLen, n);
            var r, end := Chars(p.cells), p.start + Room(maxLen);
            c == end && NoneBefore(r, p.start, end, 200, Newline) && NoneBefore(r, p.start, end, 100, Blank)
  {
    var p := Run(content, maxLen, n);
    assert Chars(p.cells)[c] == p.cells[c].ch;
  }

  // --------------------------------------------------------------------- a block is open

  /** `fence` is the last fence the scanner meets before `c`, and opens a block. */
  ghost predicate OpensAt(r: string, start: nat, c: int, fence: nat)
    requires c <= |r|
  {
    start <= fence && FenceAt(r, fence, c) && Count(r, start, fence) % 2 == 0 && Count(r, fence + 3, c) == 0
  }

  lemma {:induction false} UnclosedIsLast(r: string, i: int, end: int, inBlock: bool, open: int)
    requires 0 <= i && end <= |r| && (inBlock ==> 0 <= open)
    ensures var u := Unclosed(r, i, end, inBlock, open);
            u < 0 || (inBlock && u == open && Count(r, i, end) == 0) || (i <= u && Count(r, u + 3, end) == 0)
    decreases end - i
  {
    if i < end {
      if FenceAt(r, i, end) {
        UnclosedIsLast(r, i + 3, end, !inBlock, if inBlock then open else i);
      } else {
        UnclosedIsLast(r, i + 1, end, inBlock, open);
      }
    }
  }

  /** The natural cut, and the block open there. */
  lemma OpenBlockIs(r: string, start: nat, maxLen: Limit) returns (fence: nat)
    requires |r| - start > maxLen && Count(r, start, Tentative(r, start, maxLen)) % 2 == 1
    ensures var c := Tentative(r, start, maxLen);
            && NaturalCut(r, start, start + Room(maxLen), c) && OpensAt(r, start, c, fence)
            && fence == Unclosed(r, start, c, false, -1) && maxLen >= 5
  {
    var c := Tentative(r, start, maxLen);
    TentativeIsNatural(r, start, maxLen);
    UnclosedMeaning(r, start, c, false, -1);
    UnclosedIsLast(r, start, c, false, -1);
    fence := OpenFence(r, start, maxLen);
    assert FenceAt(r, fence, c);
  }

  /** `e` is the end of the line of a fence: its newline, or the end of the fence when no
      newline follows. */
  ghost predicate LineEndsAt(r: string, fence: nat, e: nat)
    requires fence + 3 <= |r|
  {
    || (fence <= e < |r| && r[e] == '\n' && forall j :: fence <= j < e ==> r[j] != '\n')
    || (e == fence + 3 && forall j :: fence <= j < |r| ==> r[j] != '\n')
  }

  lemma HeaderEndEndsLine(r: string, fence: nat)
    requires FenceAt(r, fence, |r|)
    ensures HeaderEnd(r, fence) >= 0 && LineEndsAt(r, fence, HeaderEnd(r, fence))
    ensures HeaderEnd(r, fence) <= |r| && Header(r, fence) == TrimSpace(r[fence..HeaderEnd(r, fence)])
  {
    HeaderShape(r, fence);
    NextNewlineIsFirst(r, fence);
  }

  /** The next fence at or after `c` starts at `j`, and ends within the chunk. */
  ghost predicate ClosesAt(r: string, start: nat, maxLen: Limit, c: nat, j: nat) {
    c <= j && FenceAt(r, j, |r|) && j + 3 - start <= maxLen && forall k :: c <= k < j ==> !FenceAt(r, k, |r|)
  }

  ghost predicate NeverCloses(r: string, start: nat, maxLen: Limit, c: nat) {
    forall k :: c <= k && k + 3 - start <= maxLen ==> !FenceAt(r, k, |r|)
  }

  lemma ClosedBlockCut(r: string, start: nat, maxLen: Limit, j: nat)
    requires |r| - start > maxLen && Count(r, start, Tentative(r, start, maxLen)) % 2 == 1
    requires ClosesAt(r, start, maxLen, Tentative(r, start, maxLen), j)
    ensures Decide(r, start, maxLen) == Extended(j + 3, Tentative(r, start, maxLen))
  {
    var c := Tentative(r, start, maxLen);
    UnclosedMeaning(r, start, c, false, -1);
    NextClosingIsFirst(r, c, |r|);
    var closing := NextClosing(r, c, |r|);
    assert !FenceAt(r, j, |r|) || closing == j + 3;
  }

  /** A block that does not close within the chunk is cut by `CutOpenBlock`. */
  lemma LongBlockCut(r: string, start: nat, maxLen: Limit, fence: nat)
    requires |r| - start > maxLen && maxLen >= 5
    requires fence == Unclosed(r, start, Tentative(r, start, maxLen), false, -1)
    requires start <= fence && fence + 3 <= Tentative(r, start, maxLen) && FenceAt(r, fence, |r|)
    requires NeverCloses(r, start, maxLen, Tentative(r, start, maxLen))
    ensures Decide(r, start, maxLen) == CutOpenBlock(r, start, maxLen, Tentative(r, start, maxLen), fence)
  {
    var c := Tentative(r, start, maxLen);
    var closing := NextClosing(r, c, |r|);
    assert closing > 0 ==> FenceAt(r, closing - 3, |r|);
  }

  /** Before the block: the last newline behind `start`, without one the last blank. */
  ghost predicate BlankBefore(r: string, start: nat, fence: nat, b: nat)
    requires fence <= |r|
  {
    || LastBefore(r, start, fence, 200, Newline, b)
    || (NoneBefore(r, start, fence, 200, Newline) && LastBefore(r, start, fence, 100, Blank, b))
  }

  ghost predicate NoBlankBefore(r: string, start: nat, fence: nat)
    requires fence <= |r|
  {
    NoneBefore(r, start, fence, 200, Newline) && NoneBefore(r, start, fence, 100, Blank)
  }

  /** Inside the block: the last newline below its first line, without one the end. */
  ghost predicate InnerCut(r: string, start: nat, e: nat, end: nat, b: nat)
    requires end <= |r|
  {
    || (LastBefore(r, start, end, 200, Newline, b) && b > e)
    || (b == end && forall j :: start < j < end && end - 200 <= j && r[j] == '\n' ==> j <= e)
  }

  lemma InnerSearch(r: string, start: nat, e: nat, end: nat)
    requires start <= e && start <= end <= |r|
    ensures var better := LastInWindow(r, start, end, 200, true);
            InnerCut(r, start, e, end, if better > e then better else end)
  {
    SearchIsLast(r, start, end, 200, Newline);
    var better := LastInWindow(r, start, end, 200, true);
    assert better > start ==> forall j :: better < j < end ==> r[j] != '\n';
  }

  lemma BlankSearch(r: string, start: nat, fence: nat) returns (split: int)
    requires start <= fence <= |r|
    ensures var newline := LastInWindow(r, start, fence, 200, true);
            split == if newline <= start then LastInWindow(r, start, fence, 100, false) else newline
    ensures split > start ==> BlankBefore(r, start, fence, split)
    ensures split <= start ==> NoBlankBefore(r, start, fence)
  {
    var newline := LastInWindow(r, start, fence, 200, true);
    split := if newline <= start then LastInWindow(r, start, fence, 100, false) else newline;
    SearchIsLast(r, start, fence, 200, Newline);
    SearchIsLast(r, start, fence, 100, Blank);
  }

  lemma BlankIsUnique(r: string, start: nat, fence: nat, a: nat, b: nat)
    requires fence <= |r| && BlankBefore(r, start, fence, a)
    ensures a > start && !NoBlankBefore(r, start, fence)
    ensures BlankBefore(r, start, fence, b) ==> a == b
  {
  }

  /** A block whose first line ends well before the natural cut is cut inside. */
  lemma CutInside(r: string, start: nat, maxLen: Limit, c: nat, fence: nat)
    requires maxLen >= 5 && |r| - start > maxLen
    requires start <= fence && fence + 3 <= c <= start + EffectiveLimit(maxLen) && FenceAt(r, fence, |r|)
    requires HeaderEnd(r, fence) + 20 < c
    ensures var d, e := CutOpenBlock(r, start, maxLen, c, fence), HeaderEnd(r, fence);
            && e >= 0 && d == SplitInside(d.cut, c, Header(r, fence))
            && InnerCut(r, start, e, start + maxLen - 5, d.cut)
  {
    HeaderEndEndsLine(r, fence);
    HeaderShape(r, fence);
    InnerSearch(r, start, HeaderEnd(r, fence), start + maxLen - 5);
  }

  /** A block is cut before its fence, at a blank, at the fence, or by last resort. */
  ghost predicate DecidesBefore(r: string, start: nat, end: nat, c: nat, fence: nat, h: string, d: Decision)
    requires fence <= |r|
  {
    && (forall b: nat :: BlankBefore(r, start, fence, b) ==> d == Before(b))
    && (NoBlankBefore(r, start, fence) && fence - start > 20 ==> d == AtFence(fence))
    && (NoBlankBefore(r, start, fence) && fence - start <= 20 ==> d == LastResort(end, c, h))
  }

  /** That is where another block goes. */
  lemma CutBefore(r: string, start: nat, maxLen: Limit, c: nat, fence: nat)
    requires maxLen >= 5 && |r| - start > maxLen
    requires start <= fence && fence + 3 <= c <= start + EffectiveLimit(maxLen) && FenceAt(r, fence, |r|)
    requires HeaderEnd(r, fence) + 20 >= c
    ensures DecidesBefore(r, start, start + maxLen - 5, c, fence, Header(r, fence),
                          CutOpenBlock(r, start, maxLen, c, fence))
  {
    var split := BlankSearch(r, start, fence);
    if split > start {
      BlankIsUnique(r, start, fence, split, split);
      assert CutOpenBlock(r, start, maxLen, c, fence) == Before(split);
      forall b: nat | BlankBefore(r, start, fence, b) ensures b == split {
        BlankIsUnique(r, start, fence, split, b);
      }
    } else {
      forall b: nat ensures !BlankBefore(r, start, fence, b) {
        if BlankBefore(r, start, fence, b) {
          BlankIsUnique(r, start, fence, b, b);
        }
      }
    }
  }

  /** The loop goes from `p` to `q` by closing the block at `c` and opening it again with `h`. */
  ghost predicate ReopensAt(p: Progress, q: Progress, c: nat, h: string) {
    && p.Valid() && q.Valid() && p.start <= c <= |p.cells| && q.start == 0 && !q.done
    && |q.pieces| == |p.pieces| + 1 && q.pieces[..|p.pieces|] == p.pieces
    && Chars(q.pieces[|p.pieces|]) == TrimRight(Chars(p.cells)[p.start..c], AsciiBlank) + "\n```"
    && Chars(q.cells) == TrimSpace(h + "\n" + Chars(p.cells)[c..])
  }

  lemma ReopeningStep(p: Progress, maxLen: Limit)
    requires p.Valid() && !p.done && |p.cells| - p.start > maxLen && Decide(Chars(p.cells), p.start, maxLen).Reopens()
    ensures var d := Decide(Chars(p.cells), p.start, maxLen); ReopensAt(p, Advance(p, maxLen), d.cut, d.header)
  {
    var d := Decide(Chars(p.cells), p.start, maxLen);
    var x := p.cells[p.start..d.cut];
    ReopenedChars(p, d.cut, d.header);
    CharsSlice(p.cells, p.start, d.cut);
    CharsTrimRight(x, AsciiBlank);
    CharsConcat(TrimRightCells(x, AsciiBlank), Inject("\n```"));
    CharsInject("\n```");
  }

  /** Where the loop goes from a block, opened at `fence` with its first line up to `e`, that is
      open at the natural cut `c` and does not close within the chunk. */
  ghost predicate GoesFromLongBlock(p: Progress, q: Progress, maxLen: Limit, c: nat, fence: nat, e: nat)
    requires |p.cells| - p.start > maxLen >= 5 && fence <= e <= |p.cells|
  {
    var r, end := Chars(p.cells), p.start + maxLen - 5;
    var h := TrimSpace(r[fence..e]);
    && (c > e + 20 ==> exists b: nat :: InnerCut(r, p.start, e, end, b) && ReopensAt(p, q, b, h))
    && (c <= e + 20 ==>
          && (forall b: nat :: BlankBefore(r, p.start, fence, b) ==> CutsAt(p, q, b))
          && (NoBlankBefore(r, p.start, fence) && fence - p.start > 20 ==> CutsAt(p, q, fence))
          && (NoBlankBefore(r, p.start, fence) && fence - p.start <= 20 ==> ReopensAt(p, q, end, h)))
  }

  /** The loop goes from `p` to `q` as decided. */
  ghost predicate GoesBy(p: Progress, q: Progress, d: Decision) {
    if d.Reopens() then ReopensAt(p, q, d.cut, d.header) else CutsAt(p, q, d.cut)
  }

  lemma StepGoesBy(p: Progress, maxLen: Limit)
    requires p.Valid() && !p.done && |p.cells| - p.start > maxLen
    ensures GoesBy(p, Advance(p, maxLen), Decide(Chars(p.cells), p.start, maxLen))
  {
    if Decide(Chars(p.cells), p.start, maxLen).Reopens() {
      ReopeningStep(p, maxLen);
    } else {
      CuttingStep(p, maxLen);
    }
  }

  /** A fence that is open at `c`, and what `CutOpenBlock` decides about it. */
  ghost predicate IsLongBlock(r: string, start: nat, maxLen: Limit, c: nat, fence: nat, d: Decision) {
    && maxLen >= 5 && |r| - start > maxLen
    && start <= fence && fence + 3 <= c <= start + EffectiveLimit(maxLen) && FenceAt(r, fence, |r|)
    && d == CutOpenBlock(r, start, maxLen, c, fence)
  }

  lemma InsideGoes(p: Progress, q: Progress, maxLen: Limit, c: nat, fence: nat, d: Decision, e: nat)
    requires IsLongBlock(Chars(p.cells), p.start, maxLen, c, fence, d) && GoesBy(p, q, d)
    requires HeaderEnd(Chars(p.cells), fence) == e && e + 20 < c
    ensures fence <= e <= |p.cells| && GoesFromLongBlock(p, q, maxLen, c, fence, e)
  {
    var r := Chars(p.cells);
    HeaderEndEndsLine(r, fence);
    HeaderShape(r, fence);
    CutInside(r, p.start, maxLen, c, fence);
    assert ReopensAt(p, q, d.cut, TrimSpace(r[fence..e]));
  }

  lemma BeforeGoes(p: Progress, q: Progress, maxLen: Limit, c: nat, fence: nat, d: Decision, e: nat)
    requires |p.cells| - p.start > maxLen >= 5 && fence <= e <= |p.cells| && e + 20 >= c
    requires GoesBy(p, q, d)
    requires var r := Chars(p.cells);
             DecidesBefore(r, p.start, p.start + maxLen - 5, c, fence, TrimSpace(r[fence..e]), d)
    ensures GoesFromLongBlock(p, q, maxLen, c, fence, e)
  {
    var r := Chars(p.cells);
    forall b: nat | BlankBefore(r, p.start, fence, b) ensures CutsAt(p, q, b) {
      assert d == Before(b);
    }
  }

  lemma LineEndExists(r: string, fence: nat) returns (e: nat)
    requires FenceAt(r, fence, |r|)
    ensures fence <= e <= |r| && LineEndsAt(r, fence, e)
  {
    HeaderShape(r, fence);
    HeaderEndEndsLine(r, fence);
    e := HeaderEnd(r, fence);
  }

  lemma LongBlockGoes(p: Progress, q: Progress, maxLen: Limit, c: nat, fence: nat, d: Decision) returns (e: nat)
    requires IsLongBlock(Chars(p.cells), p.start, maxLen, c, fence, d) && GoesBy(p, q, d)
    ensures fence <= e <= |p.cells| && LineEndsAt(Chars(p.cells), fence, e)
    ensures GoesFromLongBlock(p, q, maxLen, c, fence, e)
  {
    var r := Chars(p.cells);
    HeaderEndEndsLine(r, fence);
    HeaderShape(r, fence);
    e := HeaderEnd(r, fence);
    if e + 20 < c {
      InsideGoes(p, q, maxLen, c, fence, d, e);
    } else {
      CutBefore(r, p.start, maxLen, c, fence);
      BeforeGoes(p, q, maxLen, c, fence, d, e);
    }
  }

  /** The decision about a block that is open at `c`. */
  ghost predicate DecidesBlock(r: string, start: nat, maxLen: Limit, c: nat, fence: nat, d: Decision)
    requires c <= |r|
  {
    && OpensAt(r, start, c, fence) && maxLen >= 5
    && (forall j: nat :: ClosesAt(r, start, maxLen, c, j) ==> d == Extended(j + 3, c))
    && (NeverCloses(r, start, maxLen, c) ==> IsLongBlock(r, start, maxLen, c, fence, d))
  }

  lemma OpenBlockDecides(r: string, start: nat, maxLen: Limit) returns (fence: nat)
    requires |r| - start > maxLen && Count(r, start, Tentative(r, start, maxLen)) % 2 == 1
    ensures DecidesBlock(r, start, maxLen, Tentative(r, start, maxLen), fence, Decide(r, start, maxLen))
  {
    var c := Tentative(r, start, maxLen);
    fence := OpenBlockIs(r, start, maxLen);
    forall j: nat | ClosesAt(r, start, maxLen, c, j) ensures Decide(r, start, maxLen) == Extended(j + 3, c) {
      ClosedBlockCut(r, start, maxLen, j);
    }
    if NeverCloses(r, start, maxLen, c) {
      LongBlockCut(r, start, maxLen, fence);
    }
  }

  /** Where the loop goes from a block, opened at `fence` with its first line up to `e`, that is
      open at the natural cut `c`: to the end of the closing fence when that fits. */
  ghost predicate GoesFromBlock(p: Progress, q: Progress, maxLen: Limit, c: nat, fence: nat, e: nat) {
    var r := Chars(p.cells);
    && maxLen >= 5 && |p.cells| - p.start > maxLen && c <= |r| && OpensAt(r, p.start, c, fence)
    && fence <= e <= |r| && LineEndsAt(r, fence, e)
    && (forall j: nat :: ClosesAt(r, p.start, maxLen, c, j) ==> CutsAt(p, q, j + 3))
    && (NeverCloses(r, p.start, maxLen, c) ==> GoesFromLongBlock(p, q, maxLen, c, fence, e))
  }

  lemma BlockGoes(p: Progress, q: Progress, maxLen: Limit, c: nat, fence: nat, d: Decision) returns (e: nat)
    requires |p.cells| - p.start > maxLen && c <= |p.cells|
    requires DecidesBlock(Chars(p.cells), p.start, maxLen, c, fence, d) && GoesBy(p, q, d)
    ensures GoesFromBlock(p, q, maxLen, c, fence, e)
  {
    var r := Chars(p.cells);
    if NeverCloses(r, p.start, maxLen, c) {
      e := LongBlockGoes(p, q, maxLen, c, fence, d);
    } else {
      e := LineEndExists(r, fence);
    }
  }

  /** In every iteration in which a block is open at the natural cut `c`: the loop goes on to
      the end of the closing fence when that fits, and otherwise cuts inside or before the
      block. */
  lemma OpenBlocksAreCut(content: string, maxLen: Limit, n: nat, c: nat) returns (fence: nat, e: nat)
    requires var p := Run(content, maxLen, n);
             && !p.done && |p.cells| - p.start > maxLen
             && NaturalCut(Chars(p.cells), p.start, p.start + Room(maxLen), c)
             && c <= |p.cells| && Count(Chars(p.cells), p.start, c) % 2 == 1
    ensures GoesFromBlock(Run(content, maxLen, n), Run(content, maxLen, n + 1), maxLen, c, fence, e)
  {
    var p := Run(content, maxLen, n);
    var r := Chars(p.cells);
    RunIsValid(content, maxLen, n);
    OneMore(content, maxLen, n);
    TentativeIsNatural(r, p.start, maxLen);
    NaturalCutIsUnique(r, p.start, p.start + Room(maxLen), c, Tentative(r, p.start, maxLen));
    fence := OpenBlockDecides(r, p.start, maxLen);
    StepGoesBy(p, maxLen);
    e := BlockGoes(p, Advance(p, maxLen), maxLen, c, fence, Decide(r, p.start, maxLen));
  }
}

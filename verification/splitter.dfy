/** `SplitMessage`, pkg/channels/split.go. */
module Splitter {
  import opened GoStrings
  import opened SplitScan
  import opened SplitModel
  import opened SplitTermination
  import opened SplitConservation
  import Iteration

  method TentativeCut(runes: string, start: nat, maxLen: int) returns (msgEnd: int)
    requires maxLen >= 1 && |runes| - start > maxLen
    ensures msgEnd == Tentative(runes, start, maxLen)
  {
    var codeBlockBuffer := Max(maxLen / 10, 50);
    if codeBlockBuffer > maxLen / 2 {
      codeBlockBuffer := maxLen / 2;
    }
    var effectiveLimit := Max(maxLen - codeBlockBuffer, maxLen / 2);
    assert effectiveLimit == EffectiveLimit(maxLen);
    var end := start + effectiveLimit;
    msgEnd := FindLastNewlineInRange(runes, start, end, 200);
    if msgEnd <= start {
      msgEnd := FindLastSpaceInRange(runes, start, end, 100);
    }
    if msgEnd <= start {
      msgEnd := end;
    }
  }

  method OpenBlockCut(runes: string, start: nat, maxLen: int, msgEnd: nat, unclosedIdx: nat) returns (d: Decision)
    requires maxLen >= 5 && |runes| - start > maxLen
    requires start <= unclosedIdx && unclosedIdx + 3 <= msgEnd <= start + EffectiveLimit(maxLen)
    requires FenceAt(runes, unclosedIdx, |runes|)
    ensures d == CutOpenBlock(runes, start, maxLen, msgEnd, unclosedIdx)
  {
    var totalLen := |runes|;
    var headerEnd := FindNewlineFrom(runes, unclosedIdx);
    var header: string;
    if headerEnd == -1 {
      header := TrimSpace(runes[unclosedIdx..unclosedIdx + 3]);
    } else {
      header := TrimSpace(runes[unclosedIdx..headerEnd]);
    }
    var headerEndIdx := unclosedIdx + |header|;
    if headerEnd != -1 {
      headerEndIdx := headerEnd;
    }
    assert header == Header(runes, unclosedIdx) && headerEndIdx == HeaderEnd(runes, unclosedIdx);
    if msgEnd > headerEndIdx + 20 {
      var innerLimit := Min(start + maxLen - 5, totalLen);
      var betterEnd := FindLastNewlineInRange(runes, start, innerLimit, 200);
      if betterEnd > headerEndIdx {
        return SplitInside(betterEnd, msgEnd, header);
      }
      return SplitInside(innerLimit, msgEnd, header);
    }
    var newEnd := FindLastNewlineInRange(runes, start, unclosedIdx, 200);
    if newEnd <= start {
      newEnd := FindLastSpaceInRange(runes, start, unclosedIdx, 100);
    }
    if newEnd > start {
      return Before(newEnd);
    }
    if unclosedIdx - start > 20 {
      return AtFence(unclosedIdx);
    }
    return LastResort(Min(start + maxLen - 5, totalLen), msgEnd, header);
  }

  /** The cut of one iteration, with the scans of the source. */
  method NextCut(runes: string, start: nat, maxLen: int) returns (d: Decision)
    requires maxLen >= 1 && |runes| - start > maxLen
    ensures d == Decide(runes, start, maxLen)
  {
    var msgEnd := TentativeCut(runes, start, maxLen);
    var unclosedIdx := FindLastUnclosedCodeBlockInRange(runes, start, msgEnd);
    if unclosedIdx < 0 {
      return Natural(msgEnd);
    }
    ghost var fence := OpenFence(runes, start, maxLen);
    var closingIdx := FindNextClosingCodeBlockInRange(runes, msgEnd, |runes|);
    if closingIdx > 0 && closingIdx - start <= maxLen {
      return Extended(closingIdx, msgEnd);
    }
    d := OpenBlockCut(runes, start, maxLen, msgEnd, unclosedIdx);
  }

  function Texts(pieces: seq<seq<Cell>>): seq<string> {
    seq(|pieces|, i requires 0 <= i < |pieces| => Chars(pieces[i]))
  }

  method SkipLeadingBlank(runes: string, from: nat) returns (start: nat)
    requires from <= |runes|
    ensures start == SkipBlank(runes, from)
  {
    start := from;
    while start < |runes| &&
          (runes[start] == ' ' || runes[start] == '\t' || runes[start] == '\n' || runes[start] == '\r')
      invariant from <= start <= |runes|
      invariant SkipBlank(runes, from) == SkipBlank(runes, start)
    {
      start := start + 1;
    }
  }

  // ------------------------------------------- the loop and its tagged shadow

  /** The variables of the loop are those of `p` without the origins. */
  ghost predicate Mirrors(p: Progress, runes: string, start: int, messages: seq<string>, done: bool) {
    Chars(p.cells) == runes && p.start == start && messages == Texts(p.pieces) && p.done == done
  }

  lemma TextsSnoc(pieces: seq<seq<Cell>>, piece: seq<Cell>)
    ensures Texts(pieces + [piece]) == Texts(pieces) + [Chars(piece)]
  {
  }

  lemma MirrorsLast(p: Progress, maxLen: Limit, runes: string, messages: seq<string>)
    requires p.Valid() && Mirrors(p, runes, p.start, messages, false)
    requires 0 < |runes| - p.start <= maxLen
    ensures Mirrors(Advance(p, maxLen), runes, |runes|, messages + [runes[p.start..]], true)
  {
    CharsPrefix(p.cells, p.start);
    TextsSnoc(p.pieces, p.cells[p.start..]);
  }

  lemma MirrorsCut(p: Progress, maxLen: Limit, runes: string, messages: seq<string>)
    requires p.Valid() && Mirrors(p, runes, p.start, messages, false)
    requires |runes| - p.start > maxLen && !Decide(runes, p.start, maxLen).Reopens()
    ensures var cut := Decide(runes, p.start, maxLen).cut;
            Mirrors(Advance(p, maxLen), runes, SkipBlank(runes, cut), messages + [runes[p.start..cut]], false)
  {
    var cut := Decide(runes, p.start, maxLen).cut;
    CharsSlice(p.cells, p.start, cut);
    TextsSnoc(p.pieces, p.cells[p.start..cut]);
  }

  lemma MirrorsReopen(p: Progress, maxLen: Limit, runes: string, messages: seq<string>)
    requires p.Valid() && Mirrors(p, runes, p.start, messages, false)
    requires |runes| - p.start > maxLen && Decide(runes, p.start, maxLen).Reopens()
    ensures var d := Decide(runes, p.start, maxLen);
            Mirrors(Advance(p, maxLen), TrimSpace(d.header + "\n" + runes[d.cut..]), 0,
                    messages + [TrimRight(runes[p.start..d.cut], AsciiBlank) + "\n```"], false)
  {
    var d := Decide(runes, p.start, maxLen);
    ReopenedMirrors(p, d.cut, d.header);
  }

  lemma ReopenedMirrors(p: Progress, cut: nat, header: string)
    requires p.Valid() && p.start <= cut <= |p.cells|
    ensures var runes := Chars(p.cells);
            Mirrors(CloseAndReopen(p, cut, header), TrimSpace(header + "\n" + runes[cut..]), 0,
                    Texts(p.pieces) + [TrimRight(runes[p.start..cut], AsciiBlank) + "\n```"], false)
  {
    ReopenedChars(p, cut, header);
    var x := p.cells[p.start..cut];
    CharsSlice(p.cells, p.start, cut);
    CharsTrimRight(x, AsciiBlank);
    CharsConcat(TrimRightCells(x, AsciiBlank), Inject("\n```"));
    CharsInject("\n```");
    TextsSnoc(p.pieces, TrimRightCells(x, AsciiBlank) + Inject("\n```"));
  }

  lemma MirrorsStart(content: string)
    ensures Mirrors(Initial(content), content, 0, [], false)
  {
    CharsTagged(content);
  }

  // ------------------------------------------------------- when the loop is over

  lemma OneMore(content: string, maxLen: Limit, n: nat)
    ensures Run(content, maxLen, n + 1) == Advance(Run(content, maxLen, n), maxLen)
  {
    Iteration.Adds(Step(maxLen), Initial(content), n, 1);
    var p := Run(content, maxLen, n);
    assert Iteration.Iterate(Step(maxLen), p, 1) == Iteration.Iterate(Step(maxLen), Step(maxLen)(p), 0);
  }

  /** Nothing is left to emit. */
  ghost predicate Finished(p: Progress) {
    p.done || p.start >= |p.cells|
  }

  /** The loop leaves after at most `n` iterations. */
  ghost predicate EndsBy(content: string, maxLen: int, n: nat) {
    maxLen >= 1 && Finished(Run(content, maxLen, n))
  }

  /** The loop ends. `SplitTermination` and `SplitDivergence` say for which texts. */
  ghost predicate Ends(content: string, maxLen: int) {
    exists n: nat :: EndsBy(content, maxLen, n)
  }

  lemma ShortHeadersEnd(content: string, maxLen: Limit)
    requires ShortHeaders(content, maxLen)
    ensures EndsBy(content, maxLen, |content| + 1) && Ends(content, maxLen)
  {
    Terminates(content, maxLen);
    assert EndsBy(content, maxLen, |content| + 1);
  }

  /** Iterations after the loop has nothing left add nothing. */
  lemma ExtraIterations(p: Progress, maxLen: Limit, n: nat)
    requires Finished(p)
    ensures Iteration.Iterate(Step(maxLen), p, n).pieces == p.pieces
  {
    var inv := (q: Progress) => Finished(q) && q.pieces == p.pieces;
    Iteration.Invariant(Step(maxLen), inv, p, n);
  }

  /** The chunks do not depend on when one looks, once the loop has ended. */
  lemma SplitIsUnique(content: string, maxLen: Limit, m: nat, n: nat)
    requires EndsBy(content, maxLen, m) && EndsBy(content, maxLen, n)
    ensures Run(content, maxLen, m).pieces == Run(content, maxLen, n).pieces
  {
    Iteration.Adds(Step(maxLen), Initial(content), m, n);
    Iteration.Adds(Step(maxLen), Initial(content), n, m);
    ExtraIterations(Run(content, maxLen, m), maxLen, n);
    ExtraIterations(Run(content, maxLen, n), maxLen, m);
  }

  /** The chunks of a loop that has ended: the content, each within the limit. */
  lemma FinishedSplit(content: string, maxLen: Limit, n: nat)
    requires EndsBy(content, maxLen, n)
    ensures Conserves(Flatten(Run(content, maxLen, n).pieces), content)
    ensures Fit(Run(content, maxLen, n), maxLen)
  {
    OneMore(content, maxLen, n);
    FinishedRunConserves(content, maxLen, n + 1);
    EveryChunkFits(content, maxLen, n);
  }

  /** The chunks of a message: those of every run of the loop to its end, each within the
      limit, and together the message minus whitespace plus injected runes. */
  ghost predicate IsSplit(content: string, maxLen: Limit, pieces: seq<seq<Cell>>) {
    && (forall n: nat :: EndsBy(content, maxLen, n) ==> pieces == Run(content, maxLen, n).pieces)
    && Conserves(Flatten(pieces), content)
    && forall k :: 0 <= k < |pieces| ==> |Texts(pieces)[k]| <= maxLen
  }

  lemma SplitIs(content: string, maxLen: Limit, n: nat)
    requires EndsBy(content, maxLen, n)
    ensures IsSplit(content, maxLen, Run(content, maxLen, n).pieces)
  {
    FinishedSplit(content, maxLen, n);
    forall m: nat | EndsBy(content, maxLen, m)
      ensures Run(content, maxLen, n).pieces == Run(content, maxLen, m).pieces
    {
      SplitIsUnique(content, maxLen, m, n);
    }
  }

  // ------------------------------------------------------------------ the loop

  /** The chunks of a message on which the loop ends. `pieces` are the same chunks with the
      origin of every rune. */
  method SplitMessage(content: string, maxLen: int) returns (messages: seq<string>, ghost pieces: seq<seq<Cell>>)
    requires maxLen >= 1 ==> Ends(content, maxLen)
    ensures maxLen <= 0 ==> messages == (if content == "" then [] else [content])
    ensures maxLen >= 1 ==>
      messages == Texts(pieces) && IsSplit(content, maxLen, pieces)
  {
    if maxLen <= 0 {
      if content == "" {
        return [], [];
      }
      return [content], [];
    }
    var runes, start, done := content, 0, false;
    messages := [];
    ghost var p := Initial(content);
    MirrorsStart(content);
    ghost var n: nat, last: nat := 0, *;
    last :| EndsBy(content, maxLen, last);
    while !done && start < |runes|
      invariant p.Valid() && Mirrors(p, runes, start, messages, done)
      invariant n <= last && p == Run(content, maxLen, n)
      decreases last - n
    {
      if |runes| - start <= maxLen {
        MirrorsLast(p, maxLen, runes, messages);
        messages := messages + [runes[start..]];
        start, done := |runes|, true;
      } else {
        var d := NextCut(runes, start, maxLen);
        if d.Reopens() {
          MirrorsReopen(p, maxLen, runes, messages);
          var chunk := TrimRight(runes[start..d.cut], AsciiBlank) + "\n```";
          messages := messages + [chunk];
          runes := TrimSpace(d.header + "\n" + runes[d.cut..]);
          start := 0;
        } else {
          MirrorsCut(p, maxLen, runes, messages);
          messages := messages + [runes[start..d.cut]];
          start := SkipLeadingBlank(runes, d.cut);
        }
      }
      OneMore(content, maxLen, n);
      p, n := Advance(p, maxLen), n + 1;
    }
    pieces := p.pieces;
    SplitIs(content, maxLen, n);
  }
}

/** What `SplitMessage` keeps: the length bound, and every rune of the content. Both hold
    after any number of iterations, whether or not the loop would end. */
module SplitConservation {
  import opened GoStrings
  import opened SplitScan
  import opened SplitModel
  import Iteration
  import Sequences

  // -------------------------------------------------------------------- length

  ghost predicate Fit(p: Progress, maxLen: Limit) {
    forall i :: 0 <= i < |p.pieces| ==> |p.pieces[i]| <= maxLen
  }

  lemma AdvanceFits(p: Progress, maxLen: Limit)
    requires p.Valid() && Fit(p, maxLen)
    ensures Fit(Advance(p, maxLen), maxLen)
  {
  }

  lemma EveryChunkFits(content: string, maxLen: Limit, n: nat)
    ensures Fit(Run(content, maxLen, n), maxLen)
  {
    var inv := (p: Progress) => p.Valid() && Fit(p, maxLen);
    forall p: Progress | inv(p) ensures inv(Step(maxLen)(p)) {
      AdvanceFits(p, maxLen);
    }
    Iteration.Invariant(Step(maxLen), inv, Initial(content), n);
  }

  // -------------------------------------------------------------- conservation

  /** The runes of the original content that are not whitespace, with their positions. */
  function Kept(cs: seq<Cell>): seq<Cell> {
    if cs == [] then []
    else if cs[0].origin.Source? && !IsSpace(cs[0].ch) then [cs[0]] + Kept(cs[1..])
    else Kept(cs[1..])
  }

  function Flatten(pieces: seq<seq<Cell>>): seq<Cell> {
    if pieces == [] then [] else Flatten(pieces[..|pieces| - 1]) + pieces[|pieces| - 1]
  }

  /** Runes of the content appear in their original order, none of them twice. */
  ghost predicate Ordered(cs: seq<Cell>) {
    forall i, j :: 0 <= i < j < |cs| && cs[i].origin.Source? && cs[j].origin.Source? ==>
      cs[i].origin.index < cs[j].origin.index
  }

  /** A rune said to come from the content is the content's rune at that position. */
  ghost predicate Faithful(cs: seq<Cell>, content: string) {
    forall c <- cs :: c.origin.Source? ==> c.origin.index < |content| && c.ch == content[c.origin.index]
  }

  /** `cs` is `content` with only whitespace missing and only injected runes added. */
  ghost predicate Conserves(cs: seq<Cell>, content: string) {
    Kept(cs) == Kept(Tagged(content)) && Ordered(cs) && Faithful(cs, content)
  }

  lemma {:induction false} KeptConcat(a: seq<Cell>, b: seq<Cell>)
    ensures Kept(a + b) == Kept(a) + Kept(b)
    decreases |a|
  {
    if a == [] {
      assert a + b == b;
    } else {
      KeptConcat(a[1..], b);
      assert (a + b)[1..] == a[1..] + b && (a + b)[0] == a[0];
      Sequences.Assoc([a[0]], Kept(a[1..]), Kept(b));
    }
  }

  lemma {:induction false} KeptNothing(cs: seq<Cell>)
    requires forall c <- cs :: c.origin.Injected? || IsSpace(c.ch)
    ensures Kept(cs) == []
    decreases |cs|
  {
    if cs != [] {
      assert cs[0] in cs;
      KeptNothing(cs[1..]);
    }
  }

  lemma KeptMiddle(a: seq<Cell>, b: seq<Cell>, c: seq<Cell>)
    requires forall x <- b :: x.origin.Injected? || IsSpace(x.ch)
    ensures Kept(a + b + c) == Kept(a + c)
  {
    KeptConcat(a + b, c);
    KeptConcat(a, b);
    KeptConcat(a, c);
    KeptNothing(b);
  }

  lemma OrderedDrop(a: seq<Cell>, b: seq<Cell>, c: seq<Cell>)
    requires Ordered(a + b + c)
    ensures Ordered(a + c)
  {
    var s, t := a + b + c, a + c;
    forall i, j | 0 <= i < j < |t| && t[i].origin.Source? && t[j].origin.Source?
      ensures t[i].origin.index < t[j].origin.index
    {
      var i' := if i < |a| then i else i + |b|;
      var j' := if j < |a| then j else j + |b|;
      assert s[i'] == t[i] && s[j'] == t[j];
    }
  }

  lemma OrderedInsert(a: seq<Cell>, b: seq<Cell>, c: seq<Cell>)
    requires Ordered(a + c)
    requires forall x <- b :: x.origin.Injected?
    ensures Ordered(a + b + c)
  {
    var s, t := a + c, a + b + c;
    forall i, j | 0 <= i < j < |t| && t[i].origin.Source? && t[j].origin.Source?
      ensures t[i].origin.index < t[j].origin.index
    {
      assert forall k :: |a| <= k < |a| + |b| ==> t[k] == b[k - |a|] && t[k] in b;
      var i' := if i < |a| then i else i - |b|;
      var j' := if j < |a| then j else j - |b|;
      assert s[i'] == t[i] && s[j'] == t[j];
    }
  }

  /** Dropping whitespace keeps the account. */
  lemma ConservesDrop(a: seq<Cell>, b: seq<Cell>, c: seq<Cell>, content: string)
    requires Conserves(a + b + c, content)
    requires forall x <- b :: IsSpace(x.ch)
    ensures Conserves(a + c, content)
  {
    KeptMiddle(a, b, c);
    OrderedDrop(a, b, c);
    forall x | x in a + c ensures x in a + b + c { }
  }

  /** So does injecting runes. */
  lemma ConservesInsert(a: seq<Cell>, s: string, c: seq<Cell>, content: string)
    requires Conserves(a + c, content)
    ensures Conserves(a + Inject(s) + c, content)
  {
    KeptMiddle(a, Inject(s), c);
    OrderedInsert(a, Inject(s), c);
    forall x | x in a + Inject(s) + c && x.origin.Source? ensures x in a + c { }
  }

  lemma BlankIsSpace(c: char)
    ensures In(AsciiBlank, c) ==> IsSpace(c)
  {
  }

  /** Emitted runes followed by the working text: what an iteration must account for. */
  function All(p: Progress): seq<Cell>
    requires p.Valid()
  {
    Flatten(p.pieces) + p.Rest()
  }

  lemma FlattenSnoc(pieces: seq<seq<Cell>>, piece: seq<Cell>)
    ensures Flatten(pieces + [piece]) == Flatten(pieces) + piece
  {
    assert (pieces + [piece])[..|pieces|] == pieces;
  }

  lemma SkippedIsSpace(cs: seq<Cell>, cut: nat)
    requires cut <= |cs|
    ensures forall y <- cs[cut..SkipBlank(Chars(cs), cut)] :: IsSpace(y.ch)
  {
    var next := SkipBlank(Chars(cs), cut);
    SkipBlankFacts(Chars(cs), cut);
    forall y | y in cs[cut..next] ensures IsSpace(y.ch) {
      var k :| cut <= k < next && cs[k] == y;
      assert In(AsciiBlank, Chars(cs)[k]);
      BlankIsSpace(y.ch);
    }
  }

  lemma SplitInThree(f: seq<Cell>, cs: seq<Cell>, i: nat, j: nat, k: nat)
    requires i <= j <= k <= |cs|
    ensures f + cs[i..] == (f + cs[i..j]) + cs[j..k] + cs[k..]
  {
  }

  lemma CutConserves(p: Progress, cut: nat, content: string)
    requires p.Valid() && p.start <= cut <= |p.cells|
    requires Conserves(Flatten(p.pieces) + p.cells[p.start..], content)
    ensures var next := SkipBlank(Chars(p.cells), cut);
            Conserves(Flatten(p.pieces + [p.cells[p.start..cut]]) + p.cells[next..], content)
  {
    var next := SkipBlank(Chars(p.cells), cut);
    var f, x := Flatten(p.pieces), p.cells[p.start..cut];
    SplitInThree(f, p.cells, p.start, cut, next);
    SkippedIsSpace(p.cells, cut);
    ConservesDrop(f + x, p.cells[cut..next], p.cells[next..], content);
    FlattenSnoc(p.pieces, x);
  }

  lemma TakeDrop(a: seq<Cell>, x: seq<Cell>, n: nat, c: seq<Cell>)
    requires n <= |x|
    ensures a + x + c == (a + x[..n]) + x[n..] + c
  {
  }

  /** Trimming at the end only drops whitespace. */
  lemma TrimRightConserves(a: seq<Cell>, x: seq<Cell>, c: seq<Cell>, k: Cutset, content: string)
    requires Conserves(a + x + c, content) && k != DoubleQuote
    ensures Conserves(a + TrimRightCells(x, k) + c, content)
  {
    var n := TrimmedLen(Chars(x), k);
    TrimmedLenFacts(Chars(x), k);
    var b := x[n..];
    TakeDrop(a, x, n, c);
    forall y | y in b ensures IsSpace(y.ch) {
      var i :| 0 <= i < |b| && b[i] == y;
      assert In(k, Chars(x)[n + i]);
      BlankIsSpace(y.ch);
    }
    ConservesDrop(a + x[..n], b, c, content);
  }

  lemma TrimConserves(a: seq<Cell>, x: seq<Cell>, k: Cutset, content: string)
    requires Conserves(a + x, content) && k != DoubleQuote
    ensures Conserves(a + TrimCells(x, k), content)
  {
    var n := LeadingLen(Chars(x), k);
    LeadingLenFacts(Chars(x), k);
    var b := x[..n];
    assert a + x == a + b + x[n..] by { assert x == b + x[n..]; }
    forall y | y in b ensures IsSpace(y.ch) {
      var i :| 0 <= i < |b| && b[i] == y;
      assert In(k, Chars(x)[i]);
      BlankIsSpace(y.ch);
    }
    ConservesDrop(a, b, x[n..], content);
    assert a + x[n..] + [] == a + x[n..];
    TrimRightConserves(a, x[n..], [], k, content);
    assert a + TrimCells(x, k) + [] == a + TrimCells(x, k);
  }

  /** Closing a chunk: the blanks at its end go, and a fence is added. */
  lemma ClosingConserves(f: seq<Cell>, x: seq<Cell>, y: seq<Cell>, fence: string, content: string)
    requires Conserves(f + x + y, content)
    ensures Conserves(f + (TrimRightCells(x, AsciiBlank) + Inject(fence)) + y, content)
  {
    TrimRightConserves(f, x, y, AsciiBlank, content);
    var x' := TrimRightCells(x, AsciiBlank);
    ConservesInsert(f + x', fence, y, content);
    Sequences.Assoc(f, x', Inject(fence));
  }

  /** Rebuilding the rest: the header is put in front, and blanks at both ends go. */
  lemma RebuildingConserves(emitted: seq<Cell>, header: string, y: seq<Cell>, content: string)
    requires Conserves(emitted + y, content)
    ensures Conserves(emitted + TrimCells(Inject(header) + y, UnicodeSpace), content)
  {
    ConservesInsert(emitted, header, y, content);
    Sequences.Assoc(emitted, Inject(header), y);
    TrimConserves(emitted, Inject(header) + y, UnicodeSpace, content);
  }

  lemma ReopenConserves(p: Progress, cut: nat, header: string, content: string)
    requires p.Valid() && p.start <= cut <= |p.cells|
    requires Conserves(All(p), content)
    ensures Conserves(All(CloseAndReopen(p, cut, header)), content)
  {
    var f, x, y := Flatten(p.pieces), p.cells[p.start..cut], p.cells[cut..];
    assert All(p) == f + x + y by { assert p.Rest() == x + y; }
    ClosingConserves(f, x, y, "\n```", content);
    var chunk := TrimRightCells(x, AsciiBlank) + Inject("\n```");
    RebuildingConserves(f + chunk, header + "\n", y, content);
    FlattenSnoc(p.pieces, chunk);
    var q := CloseAndReopen(p, cut, header);
    assert q.Rest() == q.cells;
  }

  lemma AdvanceConserves(p: Progress, maxLen: Limit, content: string)
    requires p.Valid()
    requires Conserves(All(p), content)
    ensures Conserves(All(Advance(p, maxLen)), content)
  {
    var q := Advance(p, maxLen);
    if p.done || p.start >= |p.cells| {
      assert All(q) == All(p);
    } else if |p.cells| - p.start <= maxLen {
      FlattenSnoc(p.pieces, p.Rest());
      assert q.Rest() == [];
      assert All(q) == All(p);
    } else {
      var d := Decide(Chars(p.cells), p.start, maxLen);
      if d.Reopens() {
        ReopenConserves(p, d.cut, d.header, content);
      } else {
        CutConserves(p, d.cut, content);
      }
    }
  }

  ghost predicate Accounted(p: Progress, content: string) {
    p.Valid() && Conserves(All(p), content)
  }

  lemma TaggedConserves(content: string)
    ensures Conserves(Tagged(content), content)
  {
  }

  lemma InitialConserves(content: string)
    ensures Accounted(Initial(content), content)
  {
    TaggedConserves(content);
    assert Initial(content).Rest() == Tagged(content) && Flatten([]) == [];
    assert All(Initial(content)) == Tagged(content);
  }

  lemma EveryRunConserves(content: string, maxLen: Limit, n: nat)
    ensures Accounted(Run(content, maxLen, n), content)
  {
    InitialConserves(content);
    var inv := (p: Progress) => Accounted(p, content);
    forall p: Progress | inv(p) ensures inv(Step(maxLen)(p)) {
      AdvanceConserves(p, maxLen, content);
    }
    Iteration.Invariant(Step(maxLen), inv, Initial(content), n);
  }

  /** Once the loop has ended the chunks alone account for the whole content. */
  lemma FinishedRunConserves(content: string, maxLen: Limit, n: nat)
    requires Run(content, maxLen, n).done
    ensures Conserves(Flatten(Run(content, maxLen, n).pieces), content)
  {
    EveryRunConserves(content, maxLen, n);
    DoneMeansNothingLeft(content, maxLen, n);
    var p := Run(content, maxLen, n);
    assert All(p) == Flatten(p.pieces);
  }

  ghost predicate DoneIsDone(p: Progress) {
    p.done ==> p.start == |p.cells|
  }

  lemma AdvanceDone(p: Progress, maxLen: Limit)
    requires p.Valid() && DoneIsDone(p)
    ensures DoneIsDone(Advance(p, maxLen))
  {
  }

  lemma DoneMeansNothingLeft(content: string, maxLen: Limit, n: nat)
    ensures DoneIsDone(Run(content, maxLen, n))
  {
    var inv := (p: Progress) => p.Valid() && DoneIsDone(p);
    forall p: Progress | inv(p) ensures inv(Step(maxLen)(p)) {
      AdvanceDone(p, maxLen);
    }
    Iteration.Invariant(Step(maxLen), inv, Initial(content), n);
  }

  lemma {:induction false} KeptMember(cs: seq<Cell>, c: Cell)
    ensures c in Kept(cs) <==> c in cs && c.origin.Source? && !IsSpace(c.ch)
    decreases |cs|
  {
    if cs != [] {
      KeptMember(cs[1..], c);
      assert cs == [cs[0]] + cs[1..];
    }
  }

  /** Read rune by rune: every rune of the content that is not whitespace stands at exactly
      one place of the output, and no rune of the content stands at two. */
  lemma EachRuneOnce(cs: seq<Cell>, content: string, i: nat)
    requires Conserves(cs, content) && i < |content|
    ensures !IsSpace(content[i]) ==> exists k :: 0 <= k < |cs| && cs[k] == Cell(content[i], Source(i))
    ensures forall k, l :: 0 <= k < |cs| && 0 <= l < |cs| && cs[k].origin == Source(i) && cs[l].origin == Source(i)
              ==> k == l
  {
    var c := Cell(content[i], Source(i));
    assert Tagged(content)[i] == c;
    KeptMember(Tagged(content), c);
    KeptMember(cs, c);
  }
}

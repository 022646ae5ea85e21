/** What reaches a channel: in every run of the pipeline each thing it is asked to send is a
    text of a message that was accepted for it, and fits. */
module PipelinePieces {
  import opened Outbound
  import opened Sequences
  import SplitModel
  import opened Splitter
  import opened PipelineWorker
  import opened Pipeline
  import opened Wrappers
  import Iteration

  /** A posted message stands where only the messages for a channel belong. */
  predicate IsFor(p: Posted, accepted: seq<Posted>, ch: string) {
    p in accepted && p.msg.channel == ch && ch != "cli" && ch != "system" && ch != "subagent"
  }

  ghost predicate PieceFor(piece: Piece, limit: nat, accepted: seq<Posted>, ch: string) {
    IsFor(piece.posted, accepted, ch) && IsTextOf(limit, piece.posted.msg.content, piece.text)
  }

  ghost predicate HoldsOnly(w: Worker, limit: nat, accepted: seq<Posted>, ch: string) {
    && (forall p <- w.queue :: IsFor(p, accepted, ch))
    && (w.splitting.Some? ==> IsFor(w.splitting.value, accepted, ch))
    && (forall piece <- w.todo :: PieceFor(piece, limit, accepted, ch))
    && (forall t <- w.log :: PieceFor(t.piece, limit, accepted, ch))
  }

  ghost predicate BusHoldsAccepted(s: Sys) {
    && (forall p <- s.bus :: p in s.accepted)
    && (s.held.Some? ==> s.held.value in s.accepted)
  }

  ghost predicate Inv(cfg: Config, s: Sys) {
    && s.workers.Keys == cfg.limits.Keys && BusHoldsAccepted(s)
    && forall ch <- cfg.limits :: HoldsOnly(s.workers[ch], cfg.limits[ch], s.accepted, ch)
  }

  lemma PiecesAreTexts(limit: nat, p: Posted)
    ensures forall piece <- PiecesOf(limit, p) ::
      piece.posted == p && IsTextOf(limit, p.msg.content, piece.text)
  {
    TextsAreTexts(limit, p.msg.content);
    var texts := TextsOf(limit, p.msg.content);
    forall piece | piece in PiecesOf(limit, p) ensures piece.posted == p && IsTextOf(limit, p.msg.content, piece.text) {
      var i :| 0 <= i < |texts| && piece == Piece(p, texts[i]);
      assert texts[i] in texts;
    }
  }

  lemma WorkHoldsOnly(w: Worker, limit: nat, j: Job, cancelled: bool, accepted: seq<Posted>, ch: string)
    requires HoldsOnly(w, limit, accepted, ch) && CanDo(limit, w, j, cancelled)
    ensures HoldsOnly(Do(limit, w, j, cancelled), limit, accepted, ch)
  {
    if j.Split? {
      PiecesAreTexts(limit, w.splitting.value);
    }
    assert w.todo != [] ==> w.todo[0] in w.todo;
  }

  /** More accepted messages do no harm. */
  lemma MoreAccepted(w: Worker, limit: nat, accepted: seq<Posted>, more: seq<Posted>, ch: string)
    requires HoldsOnly(w, limit, accepted, ch) && accepted <= more
    ensures HoldsOnly(w, limit, more, ch)
  {
  }

  lemma WorkersHoldOnly(cfg: Config, s: Sys, e: Event, ch: string)
    requires Inv(cfg, s) && Possible(cfg, s, e) && ch in cfg.limits
    ensures HoldsOnly(After(cfg, s, e).workers[ch], cfg.limits[ch], After(cfg, s, e).accepted, ch)
  {
    match e
    case Accept(_) => MoreAccepted(s.workers[ch], cfg.limits[ch], s.accepted, After(cfg, s, e).accepted, ch);
    case Work(c, j) => if c == ch { WorkHoldsOnly(s.workers[ch], cfg.limits[ch], j, s.cancelled, s.accepted, ch); }
    case _ =>
  }

  lemma BusStaysAccepted(cfg: Config, s: Sys, e: Event)
    requires BusHoldsAccepted(s) && s.workers.Keys == cfg.limits.Keys && Possible(cfg, s, e)
    ensures BusHoldsAccepted(After(cfg, s, e)) && After(cfg, s, e).workers.Keys == cfg.limits.Keys
  {
    match e
    case Publish(_, _) =>
    case Accept(p) => assert forall x <- s.bus :: x in s.accepted;
    case Refuse(_) =>
    case Receive =>
    case Enqueue =>
    case Work(_, _) =>
    case _ =>
  }

  lemma StepKeepsInv(cfg: Config, s: Sys, e: Event)
    requires Inv(cfg, s) && Possible(cfg, s, e)
    ensures Inv(cfg, After(cfg, s, e))
  {
    BusStaysAccepted(cfg, s, e);
    var t := After(cfg, s, e);
    forall ch | ch in cfg.limits ensures HoldsOnly(t.workers[ch], cfg.limits[ch], t.accepted, ch) {
      WorkersHoldOnly(cfg, s, e, ch);
    }
  }

  lemma EveryStateInv(cfg: Config, run: seq<Sys>)
    requires Iteration.IsRun((s, t) => Next(cfg, s, t), run) && Initial(cfg, run[0])
    ensures forall s <- run :: Inv(cfg, s)
  {
    var next, inv := (s, t) => Next(cfg, s, t), (s: Sys) => Inv(cfg, s);
    forall s: Sys, t: Sys | inv(s) && next(s, t) ensures inv(t) {
      var e :| Possible(cfg, s, e) && t == After(cfg, s, e);
      StepKeepsInv(cfg, s, e);
    }
    Iteration.RunKeeps(next, inv, run);
  }

  /** In every run, whatever a channel was asked to send or to edit belongs to a message that
      was accepted for that channel, which is no internal one, and no text is longer than the
      channel's limit; a content that fits is sent as it is. */
  lemma EveryEntryFits(cfg: Config, run: seq<Sys>, s: Sys, ch: string, t: Try)
    requires Iteration.IsRun((s, t) => Next(cfg, s, t), run) && Initial(cfg, run[0]) && s in run
    requires ch in cfg.limits && ch in s.workers && t in s.workers[ch].log
    ensures var limit, content, text := cfg.limits[ch], t.piece.posted.msg.content, t.piece.text;
            && t.piece.posted in s.accepted && t.piece.posted.msg.channel == ch
            && ch !in {"cli", "system", "subagent"}
            && (limit > 0 ==> |text| <= limit)
            && (limit == 0 || |content| <= limit ==> text == content)
  {
    EveryStateInv(cfg, run);
    assert PieceFor(t.piece, cfg.limits[ch], s.accepted, ch);
  }

  // -------------------------------------------------------------- no retry is left out

  /** An attempt that another one has to follow. */
  predicate MustRepeat(t: Try) {
    t.Attempt? && CallsForMore(t.result) && t.number < 3
  }

  predicate Repeats(t: Try, u: Try) {
    MustRepeat(t) ==> u.Attempt? && u.piece == t.piece && u.number == t.number + 1
  }

  /** Every failed attempt that calls for another has it behind it, or is about to. */
  ghost predicate Persists(w: Worker) {
    && (forall i :: 0 < i < |w.log| ==> Repeats(w.log[i - 1], w.log[i]))
    && (w.log != [] && MustRepeat(w.log[|w.log| - 1]) ==>
          var last := w.log[|w.log| - 1];
          && w.todo != [] && w.todo[0] == last.piece
          && (w.stage == Backing(last.number) || w.stage == Trying(last.number + 1)))
  }

  lemma LogPersists(log: seq<Try>, t: Try)
    requires forall i :: 0 < i < |log| ==> Repeats(log[i - 1], log[i])
    requires log != [] ==> Repeats(log[|log| - 1], t)
    ensures forall i :: 0 < i < |log + [t]| ==> Repeats((log + [t])[i - 1], (log + [t])[i])
  {
  }

  lemma WorkPersists(limit: nat, w: Worker, j: Job)
    requires Shape(w) && Persists(w) && CanDo(limit, w, j, false)
    ensures Persists(Do(limit, w, j, false))
  {
    match j
    case Edit => LogPersists(w.log, Edited(w.todo[0]));
    case Send(result) => LogPersists(w.log, Attempt(w.todo[0], w.stage.attempt, result));
    case _ =>
  }

  ghost predicate AllPersist(s: Sys) {
    !s.cancelled ==> forall ch <- s.workers :: Persists(s.workers[ch])
  }

  lemma WorkerPersists(cfg: Config, s: Sys, e: Event, ch: string)
    requires ch in cfg.limits && ch in s.workers && Shape(s.workers[ch]) && Persists(s.workers[ch])
    requires Possible(cfg, s, e) && !s.cancelled && ch in After(cfg, s, e).workers
    ensures Persists(After(cfg, s, e).workers[ch])
  {
    match e
    case Work(c, j) => if c == ch { WorkPersists(cfg.limits[ch], s.workers[ch], j); }
    case _ =>
      assert After(cfg, s, e).workers[ch].log == s.workers[ch].log;
  }

  lemma StepPersists(cfg: Config, s: Sys, e: Event)
    requires ChannelsInv(cfg, s) && AllPersist(s) && Possible(cfg, s, e)
    requires After(cfg, s, e).workers.Keys == cfg.limits.Keys
    ensures AllPersist(After(cfg, s, e))
  {
    var t := After(cfg, s, e);
    if !t.cancelled {
      assert !s.cancelled;
      forall ch | ch in t.workers ensures Persists(t.workers[ch]) {
        assert ChannelInv(cfg, s, ch);
        WorkerPersists(cfg, s, e, ch);
      }
    }
  }

  /** Until the context is cancelled no retry is left out: what follows an attempt that calls
      for another one is that other attempt. */
  lemma NoRetryIsLeftOut(cfg: Config, run: seq<Sys>, s: Sys, ch: string, i: nat)
    requires Iteration.IsRun((s, t) => Next(cfg, s, t), run) && Initial(cfg, run[0]) && s in run && !s.cancelled
    requires ch in s.workers && i + 1 < |s.workers[ch].log| && s.workers[ch].log[i].Attempt?
    requires CallsForMore(s.workers[ch].log[i].result) && s.workers[ch].log[i].number < 3
    ensures var t, u := s.workers[ch].log[i], s.workers[ch].log[i + 1];
            u.Attempt? && u.piece == t.piece && u.number == t.number + 1
  {
    Pipeline.InitialInv(cfg, run[0]);
    var next, inv := (s, t) => Next(cfg, s, t), (s: Sys) => ChannelsInv(cfg, s) && AllPersist(s);
    forall s: Sys, t: Sys | inv(s) && next(s, t) ensures inv(t) {
      var e :| Possible(cfg, s, e) && t == After(cfg, s, e);
      ChannelsKept(cfg, s, e);
      DispatcherKept(cfg, s, e);
      StepPersists(cfg, s, e);
    }
    Iteration.RunKeeps(next, inv, run);
    assert Repeats(s.workers[ch].log[i + 1 - 1], s.workers[ch].log[i + 1]);
  }

  // ------------------------------------------------------------- no message is left out

  /** A piece the channel was first asked to send, or to edit into a placeholder. */
  ghost predicate WasHeard(log: seq<Try>, piece: Piece) {
    exists t <- log :: t.piece == piece && (t.Edited? || t.number == 0)
  }

  lemma {:induction false} FirstsWereHeard(log: seq<Try>, piece: Piece)
    requires piece in Firsts(log)
    ensures WasHeard(log, piece)
    decreases |log|
  {
    var front, last := log[..|log| - 1], log[|log| - 1];
    if piece in Firsts(front) {
      FirstsWereHeard(front, piece);
      var t :| t in front && t.piece == piece && (t.Edited? || t.number == 0);
      assert t in log;
    } else {
      assert last in log && last.piece == piece;
    }
  }

  lemma {:induction false} PiecesOfEach(limit: nat, ps: seq<Posted>, p: Posted, piece: Piece)
    requires p in ps && piece in PiecesOf(limit, p)
    ensures piece in AllPieces(limit, ps)
    decreases |ps|
  {
    var front, last := ps[..|ps| - 1], ps[|ps| - 1];
    assert ps == front + [last];
    if p in front {
      PiecesOfEach(limit, front, p, piece);
    } else {
      assert p == last;
    }
  }

  lemma {:induction false} ForKeeps(ps: seq<Posted>, ch: string, p: Posted)
    requires p in ps && p.msg.channel == ch
    ensures p in Pipeline.For(ps, ch)
    decreases |ps|
  {
    var front, last := ps[..|ps| - 1], ps[|ps| - 1];
    assert ps == front + [last];
    if p in front {
      ForKeeps(front, ch, p);
    }
  }

  lemma TextIsPiece(limit: nat, p: Posted, text: string)
    requires text in TextsOf(limit, p.msg.content)
    ensures Piece(p, text) in PiecesOf(limit, p)
  {
    var texts := TextsOf(limit, p.msg.content);
    var i :| 0 <= i < |texts| && texts[i] == text;
    assert PiecesOf(limit, p)[i] == Piece(p, text);
  }

  /** When everything has come to rest, before any closing or cancellation, each accepted message
      for a registered channel that is no internal one, and whose worker runs, was sent: whole
      when it fits, and otherwise every chunk of it. */
  lemma EveryMessageWasSent(cfg: Config, run: seq<Sys>, s: Sys, ch: string, p: Posted, text: string)
    requires Iteration.IsRun((s, t) => Next(cfg, s, t), run) && Initial(cfg, run[0]) && s in run
    requires ch in cfg.channels && ch in cfg.limits && ch in s.workers && ch !in {"cli", "system", "subagent"}
    requires !s.closed && !s.cancelled
    requires s.bus == [] && s.held.None? && Idle(s.workers[ch]) && s.workers[ch].queue == []
    requires p in s.accepted && p.msg.channel == ch
    requires var limit, content := cfg.limits[ch], p.msg.content;
             if limit == 0 || |content| <= limit then text == content
             else exists n: nat :: EndsBy(content, limit, n) && text in Texts(SplitModel.Run(content, limit, n).pieces)
    ensures exists t <- s.workers[ch].log :: t.piece == Piece(p, text) && (t.Edited? || t.number == 0)
  {
    var limit, content := cfg.limits[ch], p.msg.content;
    AtRestAllWasHeard(cfg, run, s, ch);
    if limit == 0 || |content| <= limit {
      FittingIsWhole(limit, content);
    } else {
      var n: nat :| EndsBy(content, limit, n) && text in Texts(SplitModel.Run(content, limit, n).pieces);
      var m: nat :| EndsBy(content, limit, m)
        && TextsOf(limit, content) == Texts(SplitModel.Run(content, limit, m).pieces);
      SplitIsUnique(content, limit, m, n);
    }
    TextIsPiece(limit, p, text);
    ForKeeps(s.accepted, ch, p);
    PiecesOfEach(limit, Pipeline.For(s.accepted, ch), p, Piece(p, text));
    FirstsWereHeard(s.workers[ch].log, Piece(p, text));
  }
}

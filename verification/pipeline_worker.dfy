/** One channel worker of pkg/channels/manager.go, step by step: it takes a message, splits it,
    and sends the pieces one after the other. */
module PipelineWorker {
  import opened GoStrings
  import opened Outbound
  import opened Sequences
  import opened SplitModel
  import opened SplitTermination
  import opened SplitConservation
  import opened Splitter
  import opened Wrappers
  import Iteration

  /** A message as it was accepted by the bus: the `serial`-th one of a publisher. */
  datatype Posted = Posted(msg: Message, publisher: nat, serial: nat)

  /** One piece of a posted message. */
  datatype Piece = Piece(posted: Posted, text: string)

  // --------------------------------------------------------------------- pieces

  predicate TooLong(limit: nat, content: string) {
    limit > 0 && |content| > limit
  }

  /** The texts a worker sends for a message; `limit` 0 means the channel has none. */
  ghost function TextsOf(limit: nat, content: string): seq<string> {
    if !TooLong(limit, content) then [content]
    else if Ends(content, limit) then
      var n: nat :| EndsBy(content, limit, n);
      Texts(Run(content, limit, n).pieces)
    else []
  }

  /** For every message that is longer than the limit, and on which splitting ends, the pieces
      are what `SplitMessage` returns: each within the limit, and together the message. */
  lemma TextsAreTheSplit(limit: nat, content: string) returns (pieces: seq<seq<Cell>>)
    requires 0 < limit < |content| && Ends(content, limit)
    ensures TextsOf(limit, content) == Texts(pieces) && IsSplit(content, limit, pieces)
  {
    var n: nat :| EndsBy(content, limit, n) && TextsOf(limit, content) == Texts(Run(content, limit, n).pieces);
    SplitIs(content, limit, n);
    pieces := Run(content, limit, n).pieces;
  }

  /** Whatever its content, no text of a message is longer than a limit. */
  lemma TextsFit(limit: nat, content: string)
    requires limit >= 1
    ensures forall t <- TextsOf(limit, content) :: |t| <= limit
  {
    if |content| > limit && Ends(content, limit) {
      var pieces := TextsAreTheSplit(limit, content);
    }
  }

  /** A message within the limit, and any message where there is none, is sent whole. */
  lemma FittingIsWhole(limit: nat, content: string)
    requires limit == 0 || |content| <= limit
    ensures TextsOf(limit, content) == [content]
  {
  }

  /** A text of a message: its content when that fits, and a chunk of it otherwise. */
  ghost predicate IsTextOf(limit: nat, content: string, text: string) {
    if limit == 0 || |content| <= limit then text == content
    else |text| <= limit && exists n: nat :: EndsBy(content, limit, n) && text in Texts(Run(content, limit, n).pieces)
  }

  lemma TextsAreTexts(limit: nat, content: string)
    ensures forall t <- TextsOf(limit, content) :: IsTextOf(limit, content, t)
  {
    if limit == 0 || |content| <= limit {
      FittingIsWhole(limit, content);
    } else if Ends(content, limit) {
      TextsFit(limit, content);
      var n: nat :| EndsBy(content, limit, n) && TextsOf(limit, content) == Texts(Run(content, limit, n).pieces);
    }
  }

  ghost function PiecesOf(limit: nat, p: Posted): seq<Piece> {
    var texts := TextsOf(limit, p.msg.content);
    seq(|texts|, i requires 0 <= i < |texts| => Piece(p, texts[i]))
  }

  ghost function Cut(limit: nat): Posted -> seq<Piece> {
    (p: Posted) => PiecesOf(limit, p)
  }

  ghost function AllPieces(limit: nat, ps: seq<Posted>): seq<Piece> {
    FlatMap(Cut(limit), ps)
  }

  // --------------------------------------------------------------------- worker

  datatype Stage = Resting | Waiting | Trying(attempt: nat) | Backing(attempt: nat)

  datatype Try = Edited(piece: Piece) | Attempt(piece: Piece, number: nat, result: SendResult)

  /** `splitting` is the message being split, `todo` the pieces not dealt with yet; `stage` is
      about the first of them. `lost` says that a piece was skipped because of a
      cancellation. `log` is what the channel was asked to do. */
  datatype Worker = Worker(queue: seq<Posted>, splitting: Option<Posted>, todo: seq<Piece>, stage: Stage,
                           lost: bool, exited: bool, log: seq<Try>)

  datatype Job =
    | Take
    | Split
    | BeginWait
    | Skip
    | Edit
    | Admit
    | Send(result: SendResult)
    | Again
    | GiveUp
    | Exit

  predicate Idle(w: Worker) {
    !w.exited && w.splitting.None? && w.todo == []
  }

  ghost predicate CanDo(limit: nat, w: Worker, j: Job, cancelled: bool) {
    && !w.exited
    && match j
       case Take => Idle(w) && w.queue != []
       case Split =>
         w.splitting.Some? &&
         (TooLong(limit, w.splitting.value.msg.content) ==> Ends(w.splitting.value.msg.content, limit))
       case BeginWait => w.todo != [] && w.stage == Resting && !cancelled
       case Skip => w.todo != [] && (w.stage == Resting || w.stage == Waiting) && cancelled
       case Edit => w.todo != [] && w.stage == Waiting
       case Admit => w.todo != [] && w.stage == Waiting
       case Send(_) => w.todo != [] && w.stage.Trying?
       case Again => w.todo != [] && w.stage.Backing?
       case GiveUp => w.todo != [] && w.stage.Backing? && cancelled
       case Exit => Idle(w) && cancelled
  }

  function NextPiece(w: Worker): Worker
    requires w.todo != []
  {
    w.(todo := w.todo[1..], stage := Resting)
  }

  ghost function Do(limit: nat, w: Worker, j: Job, cancelled: bool): Worker
    requires CanDo(limit, w, j, cancelled)
  {
    match j
    case Take => w.(queue := w.queue[1..], splitting := Some(w.queue[0]))
    case Split => w.(splitting := None, todo := PiecesOf(limit, w.splitting.value))
    case BeginWait => w.(stage := Waiting)
    case Skip => NextPiece(w).(lost := true)
    case Edit => NextPiece(w).(log := w.log + [Edited(w.todo[0])])
    case Admit => w.(stage := Trying(0))
    case Send(result) =>
      var k := w.stage.attempt;
      (if IsFinal(result, k) then NextPiece(w) else w.(stage := Backing(k))).(
        log := w.log + [Attempt(w.todo[0], k, result)])
    case Again => w.(stage := Trying(w.stage.attempt + 1))
    case GiveUp => NextPiece(w)
    case Exit => w.(exited := true)
  }

  // ----------------------------------------------------------- order and conservation

  predicate IsFirst(t: Try) {
    t.Edited? || t.number == 0
  }

  /** The pieces in the order in which the channel first heard of them. */
  function Firsts(log: seq<Try>): seq<Piece> {
    if log == [] then []
    else Firsts(log[..|log| - 1]) + (if IsFirst(log[|log| - 1]) then [log[|log| - 1].piece] else [])
  }

  /** The pieces of the current message the channel has not heard of yet. */
  function Unheard(w: Worker): seq<Piece> {
    if w.todo != [] && (w.stage.Backing? || (w.stage.Trying? && w.stage.attempt > 0)) then w.todo[1..] else w.todo
  }

  ghost function InSplit(limit: nat, w: Worker): seq<Piece> {
    if w.splitting.Some? then PiecesOf(limit, w.splitting.value) else []
  }

  /** Everything a worker has sent and still has to send, in order. */
  ghost function Flow(limit: nat, w: Worker): seq<Piece> {
    Firsts(w.log) + (Unheard(w) + (InSplit(limit, w) + AllPieces(limit, w.queue)))
  }

  predicate Shape(w: Worker) {
    && (w.splitting.Some? ==> w.todo == [])
    && (w.todo == [] ==> w.stage == Resting)
  }

  lemma FirstsSnoc(log: seq<Try>, t: Try)
    ensures Firsts(log + [t]) == Firsts(log) + (if IsFirst(t) then [t.piece] else [])
  {
    assert (log + [t])[..|log|] == log;
  }

  lemma TakeKeepsFlow(limit: nat, w: Worker)
    requires Shape(w) && CanDo(limit, w, Take, false)
    ensures Flow(limit, Do(limit, w, Take, false)) == Flow(limit, w)
  {
    var first, rest := w.queue[0], w.queue[1..];
    FlatMapConcat(Cut(limit), [first], rest);
    FlatMapOne(Cut(limit), first);
    assert [first] + rest == w.queue;
    assert InSplit(limit, w) == [] && AllPieces(limit, w.queue) == PiecesOf(limit, first) + AllPieces(limit, rest);
    assert [] + AllPieces(limit, w.queue) == AllPieces(limit, w.queue);
  }

  /** The first piece moves from what is unheard to what was heard. */
  lemma HearingKeepsFlow(limit: nat, w: Worker, v: Worker, t: Try)
    requires w.todo != [] && Unheard(w) == w.todo && t.piece == w.todo[0] && IsFirst(t)
    requires v.log == w.log + [t] && Unheard(v) == w.todo[1..]
    requires v.splitting == w.splitting && v.queue == w.queue
    ensures Flow(limit, v) == Flow(limit, w)
  {
    FirstsSnoc(w.log, t);
    assert w.todo == [t.piece] + w.todo[1..];
    Regroup(Firsts(w.log), t.piece, w.todo[1..], InSplit(limit, w) + AllPieces(limit, w.queue));
  }

  lemma SendKeepsFlow(limit: nat, w: Worker, result: SendResult, cancelled: bool)
    requires Shape(w) && CanDo(limit, w, Send(result), cancelled)
    ensures Flow(limit, Do(limit, w, Send(result), cancelled)) == Flow(limit, w)
  {
    var t := Attempt(w.todo[0], w.stage.attempt, result);
    var v := Do(limit, w, Send(result), cancelled);
    if w.stage.attempt == 0 {
      HearingKeepsFlow(limit, w, v, t);
    } else {
      FirstsSnoc(w.log, t);
      assert Firsts(v.log) == Firsts(w.log) && Unheard(v) == Unheard(w);
    }
  }

  lemma WorkKeepsShape(limit: nat, w: Worker, j: Job, cancelled: bool)
    requires Shape(w) && CanDo(limit, w, j, cancelled) && (w.lost ==> cancelled && w.stage == Resting)
    ensures var v := Do(limit, w, j, cancelled); Shape(v) && (v.lost ==> cancelled && v.stage == Resting)
  {
  }

  lemma SplitKeepsFlow(limit: nat, w: Worker, cancelled: bool)
    requires Shape(w) && CanDo(limit, w, Split, cancelled)
    ensures Flow(limit, Do(limit, w, Split, cancelled)) == Flow(limit, w)
  {
    var v := Do(limit, w, Split, cancelled);
    assert Unheard(w) == [] && Unheard(v) == InSplit(limit, w) && InSplit(limit, v) == [];
    MoveAcross(InSplit(limit, w), AllPieces(limit, w.queue));
  }

  lemma MoveAcross<T>(a: seq<T>, b: seq<T>)
    ensures [] + (a + b) == a + ([] + b)
  {
  }

  /** A step that only moves the stage. */
  lemma StageKeepsFlow(limit: nat, w: Worker, v: Worker)
    requires v.log == w.log && v.queue == w.queue && v.splitting == w.splitting && Unheard(v) == Unheard(w)
    ensures Flow(limit, v) == Flow(limit, w)
  {
  }

  /** No step but a skip touches the flow. */
  lemma WorkKeepsFlow(limit: nat, w: Worker, j: Job, cancelled: bool)
    requires Shape(w) && CanDo(limit, w, j, cancelled) && !j.Skip?
    ensures Flow(limit, Do(limit, w, j, cancelled)) == Flow(limit, w)
  {
    var v := Do(limit, w, j, cancelled);
    match j
    case Take => TakeKeepsFlow(limit, w);
    case Split => SplitKeepsFlow(limit, w, cancelled);
    case Edit => HearingKeepsFlow(limit, w, v, Edited(w.todo[0]));
    case Send(result) => SendKeepsFlow(limit, w, result, cancelled);
    case _ => StageKeepsFlow(limit, w, v);
  }

  /** Once a piece was skipped the channel hears nothing new. */
  lemma LostHearsNothing(limit: nat, w: Worker, j: Job, cancelled: bool)
    requires Shape(w) && CanDo(limit, w, j, cancelled) && (w.lost ==> cancelled && w.stage == Resting)
    ensures j.Skip? || w.lost ==> Do(limit, w, j, cancelled).lost && Do(limit, w, j, cancelled).log == w.log
    ensures !j.Skip? && !w.lost ==> !Do(limit, w, j, cancelled).lost
  {
  }

  // -------------------------------------------------------------------- retries

  /** A later attempt repeats the piece before it, right after an attempt that called for one. */
  ghost predicate Retries(log: seq<Try>) {
    forall i :: 0 <= i < |log| && log[i].Attempt? ==>
      && log[i].number <= MAX_RETRIES
      && (log[i].number > 0 ==>
            && i > 0 && log[i - 1].Attempt? && log[i - 1].piece == log[i].piece
            && log[i - 1].number == log[i].number - 1 && !IsFinal(log[i - 1].result, log[i - 1].number))
  }

  /** What the log says of the attempt under way. */
  ghost predicate Pending(w: Worker) {
    var k := if w.stage.Backing? then w.stage.attempt + 1 else if w.stage.Trying? then w.stage.attempt else 0;
    k > 0 && w.todo != [] ==>
      && k <= MAX_RETRIES && w.log != []
      && var last := w.log[|w.log| - 1];
         last.Attempt? && last.piece == w.todo[0] && last.number == k - 1 && !IsFinal(last.result, last.number)
  }

  lemma HeardKeepsRetries(w: Worker, t: Try)
    requires Retries(w.log)
    requires t.Attempt? && t.number > 0 ==>
      && t.number <= MAX_RETRIES && w.log != []
      && var last := w.log[|w.log| - 1];
         last.Attempt? && last.piece == t.piece && last.number == t.number - 1 && !IsFinal(last.result, last.number)
    ensures Retries(w.log + [t])
  {
  }

  lemma WorkKeepsRetries(limit: nat, w: Worker, j: Job, cancelled: bool)
    requires Shape(w) && Retries(w.log) && Pending(w) && CanDo(limit, w, j, cancelled)
    ensures Retries(Do(limit, w, j, cancelled).log) && Pending(Do(limit, w, j, cancelled))
  {
    match j
    case Edit => HeardKeepsRetries(w, Edited(w.todo[0]));
    case Send(result) => HeardKeepsRetries(w, Attempt(w.todo[0], w.stage.attempt, result));
    case _ =>
  }

  // --------------------------------------------- the steps and the whole call

  /** The worker sending the current piece by itself, from attempt `k` on. */
  ghost function SendAll(limit: nat, w: Worker, world: World, k: nat): Worker
    requires w.todo != [] && w.stage == Trying(k) && !w.exited
    decreases MAX_RETRIES - k
  {
    var v := Do(limit, w, Send(world.result(k)), false);
    if IsFinal(world.result(k), k) then v
    else if world.cancelled(k) then Do(limit, v, GiveUp, true)
    else SendAll(limit, Do(limit, v, Again, false), world, k + 1)
  }

  /** Results of attempts, from the `k`-th on, as the log holds them. */
  function Logged(piece: Piece, k: nat, results: seq<SendResult>): seq<Try> {
    seq(|results|, i requires 0 <= i < |results| => Attempt(piece, k + i, results[i]))
  }

  lemma LoggedSplits(piece: Piece, k: nat, r: SendResult, rest: seq<SendResult>)
    ensures Logged(piece, k, [r] + rest) == [Attempt(piece, k, r)] + Logged(piece, k + 1, rest)
  {
  }

  /** Uninterrupted, the steps of a worker make exactly the attempts of `SendWithRetry`, which
      are `Sends(world, 0)`: they log each with its number and result, in order, and then move
      on to the next piece. */
  lemma {:induction false} SendingIsTheMethod(limit: nat, w: Worker, world: World, k: nat)
    requires w.todo != [] && w.stage == Trying(k) && !w.exited
    ensures SendAll(limit, w, world, k) ==
            w.(log := w.log + Logged(w.todo[0], k, Sends(world, k)), todo := w.todo[1..], stage := Resting)
    decreases MAX_RETRIES - k
  {
    var r := world.result(k);
    if IsFinal(r, k) || world.cancelled(k) {
      LoggedSplits(w.todo[0], k, r, []);
    } else {
      var next := Do(limit, Do(limit, w, Send(r), false), Again, false);
      SendingIsTheMethod(limit, next, world, k + 1);
      LoggedSplits(w.todo[0], k, r, Sends(world, k + 1));
      Assoc(w.log, [Attempt(w.todo[0], k, r)], Logged(w.todo[0], k + 1, Sends(world, k + 1)));
    }
  }
}

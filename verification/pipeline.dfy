/** The whole outbound pipeline as concurrent steps: publishers, the bounded bus and its
    closing, one dispatcher, and a worker for every running channel. */
module Pipeline {
  import opened Outbound
  import opened Sequences
  import opened PipelineWorker
  import opened Wrappers
  import Iteration

  /** The registered channels, and the length limits of those whose worker runs. */
  datatype Config = Config(channels: set<string>, limits: map<string, nat>)

  /** A publisher: how many messages it has tried to publish, and the one under way. */
  datatype Publisher = Publisher(next: nat, sending: Option<Posted>)

  /** `accepted` is every message the bus took, in order, and `taken` those the dispatcher
      received. `dropped` says that the dispatcher gave up a message because of a
      cancellation. */
  datatype Sys = Sys(publishers: map<nat, Publisher>, bus: seq<Posted>, closed: bool, draining: bool,
                     cancelled: bool, held: Option<Posted>, stopped: bool, dropped: bool,
                     workers: map<string, Worker>, accepted: seq<Posted>, taken: seq<Posted>)

  datatype Event =
    | Publish(publisher: nat, msg: Message)
    | Accept(publisher: nat)
    | Refuse(publisher: nat)
    | Close
    | Drain
    | DrainEnd
    | Cancel
    | Receive
    | StopDispatch
    | SkipMessage
    | Enqueue
    | DropMessage
    | Work(channel: string, job: Job)

  function PublisherOf(s: Sys, p: nat): Publisher {
    if p in s.publishers then s.publishers[p] else Publisher(0, None)
  }

  predicate Routes(cfg: Config, channel: string) {
    !IsInternal(channel) && channel in cfg.channels && channel in cfg.limits
  }

  ghost predicate Possible(cfg: Config, s: Sys, e: Event) {
    match e
    case Publish(p, _) => PublisherOf(s, p).sending.None? && !s.closed
    case Accept(p) => PublisherOf(s, p).sending.Some? && |s.bus| < BUS_SIZE
    case Refuse(p) => PublisherOf(s, p).sending.Some?
    case Close => !s.closed
    case Drain => s.draining && s.bus != []
    case DrainEnd => s.draining && s.bus == []
    case Cancel => true
    case Receive => !s.stopped && s.held.None? && s.bus != []
    case StopDispatch => !s.stopped && s.held.None? && (s.closed || s.cancelled)
    case SkipMessage => s.held.Some? && !Routes(cfg, s.held.value.msg.channel)
    case Enqueue =>
      && s.held.Some? && Routes(cfg, s.held.value.msg.channel) && s.held.value.msg.channel in s.workers
      && |s.workers[s.held.value.msg.channel].queue| < QUEUE_SIZE
    case DropMessage => s.held.Some? && Routes(cfg, s.held.value.msg.channel) && s.cancelled
    case Work(ch, job) => ch in s.workers && ch in cfg.limits && CanDo(cfg.limits[ch], s.workers[ch], job, s.cancelled)
  }

  function Queued(w: Worker, p: Posted): Worker {
    w.(queue := w.queue + [p])
  }

  ghost function After(cfg: Config, s: Sys, e: Event): Sys
    requires Possible(cfg, s, e)
  {
    match e
    case Publish(p, msg) =>
      var n := PublisherOf(s, p).next;
      s.(publishers := s.publishers[p := Publisher(n + 1, Some(Posted(msg, p, n)))])
    case Accept(p) =>
      var pub := PublisherOf(s, p);
      s.(publishers := s.publishers[p := pub.(sending := None)], bus := s.bus + [pub.sending.value],
         accepted := s.accepted + [pub.sending.value])
    case Refuse(p) => s.(publishers := s.publishers[p := PublisherOf(s, p).(sending := None)])
    case Close => s.(closed := true, draining := true)
    case Drain => s.(bus := s.bus[1..])
    case DrainEnd => s.(draining := false)
    case Cancel => s.(cancelled := true)
    case Receive => s.(bus := s.bus[1..], held := Some(s.bus[0]), taken := s.taken + [s.bus[0]])
    case StopDispatch => s.(stopped := true)
    case SkipMessage => s.(held := None)
    case Enqueue =>
      var ch := s.held.value.msg.channel;
      s.(workers := s.workers[ch := Queued(s.workers[ch], s.held.value)], held := None)
    case DropMessage => s.(held := None, stopped := true, dropped := true)
    case Work(ch, job) => s.(workers := s.workers[ch := Do(cfg.limits[ch], s.workers[ch], job, s.cancelled)])
  }

  ghost predicate Next(cfg: Config, s: Sys, t: Sys) {
    exists e: Event :: Possible(cfg, s, e) && t == After(cfg, s, e)
  }

  const NEW_WORKER := Worker([], None, [], Resting, false, false, [])

  ghost predicate Initial(cfg: Config, s: Sys) {
    && s == Sys(map[], [], false, false, false, None, false, false, s.workers, [], [])
    && s.workers.Keys == cfg.limits.Keys && forall ch <- s.workers :: s.workers[ch] == NEW_WORKER
  }

  // ------------------------------------------------------------------ the bus

  ghost predicate BusInv(s: Sys) {
    && |s.bus| <= BUS_SIZE
    && Subsequence(s.taken + s.bus, s.accepted)
    && (!s.closed ==> s.taken + s.bus == s.accepted && !s.draining)
  }

  lemma DrainLeavesSubsequence(taken: seq<Posted>, bus: seq<Posted>, accepted: seq<Posted>)
    requires Subsequence(taken + bus, accepted) && bus != []
    ensures Subsequence(taken + bus[1..], accepted)
  {
    OneLess(taken + bus, accepted, |taken|);
    assert (taken + bus)[..|taken|] + (taken + bus)[|taken| + 1..] == taken + bus[1..];
  }

  lemma BusKept(cfg: Config, s: Sys, e: Event)
    requires BusInv(s) && Possible(cfg, s, e)
    ensures BusInv(After(cfg, s, e))
  {
    match e
    case Accept(p) =>
      var x := PublisherOf(s, p).sending.value;
      BothGrow(s.taken + s.bus, s.accepted, x);
      Assoc(s.taken, s.bus, [x]);
    case Drain => DrainLeavesSubsequence(s.taken, s.bus, s.accepted);
    case Receive =>
      Assoc(s.taken, [s.bus[0]], s.bus[1..]);
      assert [s.bus[0]] + s.bus[1..] == s.bus;
    case _ =>
  }

  // --------------------------------------------------------------- publishers

  ghost predicate PublisherInv(s: Sys, p: nat) {
    var pub := PublisherOf(s, p);
    pub.sending.Some? ==> pub.sending.value.publisher == p && pub.sending.value.serial + 1 == pub.next
  }

  /** A message of a publisher comes before whatever it still has to publish. */
  ghost predicate Earlier(s: Sys, m: Posted) {
    var pub := PublisherOf(s, m.publisher);
    m.serial < pub.next && (pub.sending.Some? ==> m.serial < pub.sending.value.serial)
  }

  ghost predicate SerialInv(s: Sys) {
    && (forall p: nat :: PublisherInv(s, p))
    && (forall i :: 0 <= i < |s.accepted| ==> Earlier(s, s.accepted[i]))
    && (forall i, j :: 0 <= i < j < |s.accepted| && s.accepted[i].publisher == s.accepted[j].publisher ==>
          s.accepted[i].serial < s.accepted[j].serial)
  }

  lemma PublisherKept(cfg: Config, s: Sys, e: Event, p: nat)
    requires PublisherInv(s, p) && Possible(cfg, s, e)
    ensures PublisherInv(After(cfg, s, e), p)
  {
  }

  lemma EarlierKept(cfg: Config, s: Sys, e: Event, m: Posted)
    requires Earlier(s, m) && PublisherInv(s, m.publisher) && Possible(cfg, s, e)
    ensures Earlier(After(cfg, s, e), m)
  {
  }

  /** A message as it is accepted: behind all its publisher's earlier ones. */
  lemma AcceptedIsLast(cfg: Config, s: Sys, p: nat)
    requires SerialInv(s) && Possible(cfg, s, Accept(p))
    ensures var m := PublisherOf(s, p).sending.value;
            && Earlier(After(cfg, s, Accept(p)), m)
            && forall i :: 0 <= i < |s.accepted| && s.accepted[i].publisher == m.publisher ==>
                 s.accepted[i].serial < m.serial
  {
    assert PublisherInv(s, p);
    forall i | 0 <= i < |s.accepted| ensures Earlier(s, s.accepted[i]) { }
  }

  lemma SerialsKept(cfg: Config, s: Sys, e: Event)
    requires SerialInv(s) && Possible(cfg, s, e)
    ensures SerialInv(After(cfg, s, e))
  {
    var t := After(cfg, s, e);
    forall p: nat ensures PublisherInv(t, p) {
      assert PublisherInv(s, p);
      PublisherKept(cfg, s, e, p);
    }
    forall i | 0 <= i < |s.accepted| ensures Earlier(t, s.accepted[i]) {
      assert Earlier(s, s.accepted[i]) && PublisherInv(s, s.accepted[i].publisher);
      EarlierKept(cfg, s, e, s.accepted[i]);
    }
    if e.Accept? {
      AcceptedIsLast(cfg, s, e.publisher);
    }
  }

  // ----------------------------------------------------------------- channels

  /** The messages for one channel. */
  function For(ps: seq<Posted>, ch: string): seq<Posted> {
    if ps == [] then []
    else For(ps[..|ps| - 1], ch) + (if ps[|ps| - 1].msg.channel == ch then [ps[|ps| - 1]] else [])
  }

  lemma ForSnoc(ps: seq<Posted>, p: Posted, ch: string)
    ensures For(ps + [p], ch) == For(ps, ch) + (if p.msg.channel == ch then [p] else [])
  {
    assert (ps + [p])[..|ps|] == ps;
  }

  lemma {:induction false} ForConcat(a: seq<Posted>, b: seq<Posted>, ch: string)
    ensures For(a + b, ch) == For(a, ch) + For(b, ch)
    decreases |b|
  {
    if b == [] {
      assert a + b == a;
    } else {
      var front, last := b[..|b| - 1], b[|b| - 1];
      ForConcat(a, front, ch);
      assert (a + b)[..|a + b| - 1] == a + front;
    }
  }

  /** The pieces a channel is due for a sequence of messages: none when it is not routed to. */
  ghost function Due(cfg: Config, ps: seq<Posted>, ch: string): seq<Piece>
    requires ch in cfg.limits
  {
    if Routes(cfg, ch) then AllPieces(cfg.limits[ch], For(ps, ch)) else []
  }

  lemma DueConcat(cfg: Config, a: seq<Posted>, b: seq<Posted>, ch: string)
    requires ch in cfg.limits
    ensures Due(cfg, a + b, ch) == Due(cfg, a, ch) + Due(cfg, b, ch)
  {
    ForConcat(a, b, ch);
    FlatMapConcat(Cut(cfg.limits[ch]), For(a, ch), For(b, ch));
  }

  function Held(s: Sys): seq<Posted> {
    if s.held.Some? then [s.held.value] else []
  }

  ghost predicate WorkerInv(w: Worker, cancelled: bool) {
    Shape(w) && (w.lost ==> cancelled && w.stage == Resting) && Retries(w.log) && Pending(w) && |w.queue| <= QUEUE_SIZE
  }

  /** What a channel has heard (`firsts`) and will hear (`flow`, then what the dispatcher
      holds), against what was received for it. */
  ghost predicate Tally(lost: bool, dropped: bool, firsts: seq<Piece>, flow: seq<Piece>,
                        held: seq<Piece>, due: seq<Piece>) {
    if lost then firsts <= due
    else if dropped then flow <= due
    else flow + held == due
  }

  ghost predicate FlowInv(cfg: Config, s: Sys, ch: string)
    requires ch in cfg.limits && ch in s.workers
  {
    var w := s.workers[ch];
    Tally(w.lost, s.dropped, Firsts(w.log), Flow(cfg.limits[ch], w), Due(cfg, Held(s), ch), Due(cfg, s.taken, ch))
  }

  ghost predicate ChannelInv(cfg: Config, s: Sys, ch: string) {
    ch in cfg.limits && ch in s.workers && WorkerInv(s.workers[ch], s.cancelled) && FlowInv(cfg, s, ch)
  }

  predicate DispatcherInv(s: Sys) {
    (s.stopped ==> s.held.None?) && (s.dropped ==> s.stopped && s.cancelled)
  }

  ghost predicate ChannelsInv(cfg: Config, s: Sys) {
    s.workers.Keys == cfg.limits.Keys && DispatcherInv(s) && forall ch <- cfg.limits :: ChannelInv(cfg, s, ch)
  }

  lemma TallyReceives(lost: bool, firsts: seq<Piece>, flow: seq<Piece>, due: seq<Piece>, x: seq<Piece>)
    requires Tally(lost, false, firsts, flow, [], due)
    ensures Tally(lost, false, firsts, flow, x, due + x)
  {
  }

  lemma TallyEnqueues(lost: bool, firsts: seq<Piece>, flow: seq<Piece>, x: seq<Piece>, due: seq<Piece>)
    requires Tally(lost, false, firsts, flow, x, due)
    ensures Tally(lost, false, firsts, flow + x, [], due)
  {
  }

  lemma TallyDrops(lost: bool, firsts: seq<Piece>, flow: seq<Piece>, x: seq<Piece>, due: seq<Piece>)
    requires Tally(lost, false, firsts, flow, x, due)
    ensures Tally(lost, true, firsts, flow, [], due)
  {
  }

  /** A skip: what was heard is where the flow ends. */
  lemma TallySkips(dropped: bool, firsts: seq<Piece>, rest: seq<Piece>, held: seq<Piece>, due: seq<Piece>)
    requires Tally(false, dropped, firsts, firsts + rest, held, due)
    ensures firsts <= due
  {
  }

  lemma ReceiveKeepsFlow(cfg: Config, s: Sys, ch: string)
    requires ch in cfg.limits && ch in s.workers && FlowInv(cfg, s, ch) && !s.dropped && Possible(cfg, s, Receive)
    ensures FlowInv(cfg, After(cfg, s, Receive), ch)
  {
    var w, x := s.workers[ch], [s.bus[0]];
    DueConcat(cfg, s.taken, x, ch);
    TallyReceives(w.lost, Firsts(w.log), Flow(cfg.limits[ch], w), Due(cfg, s.taken, ch), Due(cfg, x, ch));
  }

  /** A message put in the queue of its worker joins the end of the flow. */
  lemma QueuedFlow(limit: nat, w: Worker, p: Posted)
    ensures Flow(limit, Queued(w, p)) == Flow(limit, w) + PiecesOf(limit, p)
  {
    FlatMapConcat(Cut(limit), w.queue, [p]);
    FlatMapOne(Cut(limit), p);
    assert Unheard(Queued(w, p)) == Unheard(w);
    Append(Firsts(w.log), Unheard(w), InSplit(limit, w), AllPieces(limit, w.queue), PiecesOf(limit, p));
  }

  lemma Append<T>(a: seq<T>, b: seq<T>, c: seq<T>, d: seq<T>, e: seq<T>)
    ensures a + (b + (c + (d + e))) == (a + (b + (c + d))) + e
  {
  }

  lemma DueOne(cfg: Config, p: Posted, ch: string)
    requires ch in cfg.limits
    ensures Due(cfg, [p], ch) ==
            if Routes(cfg, ch) && p.msg.channel == ch then PiecesOf(cfg.limits[ch], p) else []
  {
    ForSnoc([], p, ch);
    assert [] + [p] == [p];
    FlatMapOne(Cut(cfg.limits[ch]), p);
  }

  lemma EnqueueKeepsFlow(cfg: Config, s: Sys, ch: string)
    requires ch in cfg.limits && ch in s.workers && FlowInv(cfg, s, ch) && !s.dropped && Possible(cfg, s, Enqueue)
    ensures FlowInv(cfg, After(cfg, s, Enqueue), ch)
  {
    var p, w := s.held.value, s.workers[ch];
    DueOne(cfg, p, ch);
    if p.msg.channel == ch {
      QueuedFlow(cfg.limits[ch], w, p);
      TallyEnqueues(w.lost, Firsts(w.log), Flow(cfg.limits[ch], w), Due(cfg, [p], ch), Due(cfg, s.taken, ch));
    }
  }

  lemma ReleaseKeepsFlow(cfg: Config, s: Sys, e: Event, ch: string)
    requires ch in cfg.limits && ch in s.workers && FlowInv(cfg, s, ch) && !s.dropped
    requires Possible(cfg, s, e) && (e.SkipMessage? || e.DropMessage?)
    ensures FlowInv(cfg, After(cfg, s, e), ch)
  {
    var p, w := s.held.value, s.workers[ch];
    DueOne(cfg, p, ch);
    TallyDrops(w.lost, Firsts(w.log), Flow(cfg.limits[ch], w), Due(cfg, [p], ch), Due(cfg, s.taken, ch));
  }

  lemma WorkKeepsTally(cfg: Config, s: Sys, ch: string, j: Job)
    requires Possible(cfg, s, Work(ch, j)) && WorkerInv(s.workers[ch], s.cancelled) && FlowInv(cfg, s, ch)
    ensures FlowInv(cfg, After(cfg, s, Work(ch, j)), ch)
  {
    var w, limit := s.workers[ch], cfg.limits[ch];
    LostHearsNothing(limit, w, j, s.cancelled);
    if j.Skip? {
      if !w.lost {
        TallySkips(s.dropped, Firsts(w.log), Unheard(w) + (InSplit(limit, w) + AllPieces(limit, w.queue)),
                   Due(cfg, Held(s), ch), Due(cfg, s.taken, ch));
      }
    } else {
      WorkKeepsFlow(limit, w, j, s.cancelled);
    }
  }

  lemma WorkKeepsWorker(limit: nat, w: Worker, j: Job, cancelled: bool)
    requires WorkerInv(w, cancelled) && CanDo(limit, w, j, cancelled)
    ensures WorkerInv(Do(limit, w, j, cancelled), cancelled)
  {
    WorkKeepsShape(limit, w, j, cancelled);
    WorkKeepsRetries(limit, w, j, cancelled);
  }

  lemma QueuedKeepsWorker(w: Worker, p: Posted, cancelled: bool)
    requires WorkerInv(w, cancelled)
    ensures |w.queue| < QUEUE_SIZE ==> WorkerInv(Queued(w, p), cancelled)
  {
  }

  lemma FlowKept(cfg: Config, s: Sys, e: Event, ch: string)
    requires ChannelInv(cfg, s, ch) && DispatcherInv(s) && Possible(cfg, s, e)
    ensures FlowInv(cfg, After(cfg, s, e), ch)
  {
    match e
    case Receive => ReceiveKeepsFlow(cfg, s, ch);
    case Enqueue => EnqueueKeepsFlow(cfg, s, ch);
    case SkipMessage => ReleaseKeepsFlow(cfg, s, e, ch);
    case DropMessage => ReleaseKeepsFlow(cfg, s, e, ch);
    case Work(c, j) => if c == ch { WorkKeepsTally(cfg, s, c, j); }
    case _ =>
  }

  lemma OthersLeaveWorkers(cfg: Config, s: Sys, e: Event)
    requires Possible(cfg, s, e) && !e.Work? && !e.Enqueue?
    ensures After(cfg, s, e).workers == s.workers && (s.cancelled ==> After(cfg, s, e).cancelled)
  {
    match e
    case Publish(_, _) =>
    case Accept(_) =>
    case Refuse(_) =>
    case Receive =>
    case SkipMessage =>
    case DropMessage =>
    case _ =>
  }

  lemma WorkerKept(cfg: Config, s: Sys, e: Event, ch: string)
    requires ChannelInv(cfg, s, ch) && Possible(cfg, s, e)
    ensures WorkerInv(After(cfg, s, e).workers[ch], After(cfg, s, e).cancelled)
  {
    var w := s.workers[ch];
    match e
    case Work(c, j) => if c == ch { WorkKeepsWorker(cfg.limits[ch], w, j, s.cancelled); }
    case Enqueue => QueuedKeepsWorker(w, s.held.value, s.cancelled);
    case _ => OthersLeaveWorkers(cfg, s, e);
  }

  lemma ChannelKept(cfg: Config, s: Sys, e: Event, ch: string)
    requires ChannelInv(cfg, s, ch) && DispatcherInv(s) && Possible(cfg, s, e)
    ensures ChannelInv(cfg, After(cfg, s, e), ch)
  {
    FlowKept(cfg, s, e, ch);
    WorkerKept(cfg, s, e, ch);
  }

  lemma DispatcherKept(cfg: Config, s: Sys, e: Event)
    requires DispatcherInv(s) && s.workers.Keys == cfg.limits.Keys && Possible(cfg, s, e)
    ensures DispatcherInv(After(cfg, s, e)) && After(cfg, s, e).workers.Keys == cfg.limits.Keys
  {
    match e
    case Publish(_, _) =>
    case Accept(_) =>
    case Refuse(_) =>
    case Enqueue =>
    case Work(_, _) =>
    case _ =>
  }

  lemma ChannelsKept(cfg: Config, s: Sys, e: Event)
    requires ChannelsInv(cfg, s) && Possible(cfg, s, e)
    ensures ChannelsInv(cfg, After(cfg, s, e))
  {
    DispatcherKept(cfg, s, e);
    forall ch | ch in cfg.limits ensures ChannelInv(cfg, After(cfg, s, e), ch) {
      ChannelKept(cfg, s, e, ch);
    }
  }

  ghost predicate Inv(cfg: Config, s: Sys) {
    BusInv(s) && SerialInv(s) && ChannelsInv(cfg, s)
  }

  lemma InitialInv(cfg: Config, s: Sys)
    requires Initial(cfg, s)
    ensures Inv(cfg, s)
  {
    forall ch | ch in cfg.limits ensures ChannelInv(cfg, s, ch) {
      assert Flow(cfg.limits[ch], NEW_WORKER) == [] && Due(cfg, [], ch) == [];
    }
  }

  lemma EveryStateInv(cfg: Config, run: seq<Sys>)
    requires Iteration.IsRun((s, t) => Next(cfg, s, t), run) && Initial(cfg, run[0])
    ensures forall s <- run :: Inv(cfg, s)
  {
    InitialInv(cfg, run[0]);
    var next, inv := (s, t) => Next(cfg, s, t), (s: Sys) => Inv(cfg, s);
    forall s: Sys, t: Sys | inv(s) && next(s, t) ensures inv(t) {
      var e :| Possible(cfg, s, e) && t == After(cfg, s, e);
      BusKept(cfg, s, e);
      SerialsKept(cfg, s, e);
      ChannelsKept(cfg, s, e);
    }
    Iteration.RunKeeps(next, inv, run);
  }

  // --------------------------------------------------- the bus class and the machine

  function Bare(ps: seq<Posted>): seq<Message> {
    seq(|ps|, i requires 0 <= i < |ps| => ps[i].msg)
  }

  /** A bus object stands where the machine does. */
  ghost predicate Mirrors(bus: MessageBus, s: Sys)
    reads bus
  {
    bus.Valid() && bus.outbound == Bare(s.bus) && bus.closed == s.closed
  }

  /** A message accepted by an open bus is one call of `PublishOutbound`. */
  method AcceptIsPublish(cfg: Config, ghost s: Sys, p: nat, msg: Message, bus: MessageBus)
    requires Mirrors(bus, s) && BusInv(s) && !s.closed
    requires Possible(cfg, s, Accept(p)) && PublisherOf(s, p).sending.value.msg == msg
    modifies bus
    ensures Mirrors(bus, After(cfg, s, Accept(p)))
  {
    var r := bus.PublishOutbound(msg, false, OnQueue);
    assert Bare(s.bus + [PublisherOf(s, p).sending.value]) == Bare(s.bus) + [msg];
  }

  /** A message received by the dispatcher is one call of `SubscribeOutbound`. */
  method ReceiveIsSubscribe(cfg: Config, ghost s: Sys, bus: MessageBus) returns (msg: Message)
    requires Mirrors(bus, s) && Possible(cfg, s, Receive)
    modifies bus
    ensures Mirrors(bus, After(cfg, s, Receive)) && After(cfg, s, Receive).held.value.msg == msg
  {
    var ok;
    assert Bare(s.bus) == [s.bus[0].msg] + Bare(s.bus[1..]);
    ok, msg := bus.SubscribeOutbound(OnQueue);
    assert bus.outbound == ([msg] + bus.outbound)[1..];
  }

  /** The bus drained to the end without interruption. */
  ghost function Drained(cfg: Config, s: Sys): Sys
    requires s.draining
    decreases |s.bus|
  {
    if s.bus == [] then After(cfg, s, DrainEnd) else Drained(cfg, After(cfg, s, Drain))
  }

  lemma {:induction false} DrainedIsEmpty(cfg: Config, s: Sys)
    requires s.draining
    ensures Drained(cfg, s) == s.(bus := [], draining := false)
    decreases |s.bus|
  {
    if s.bus != [] {
      DrainedIsEmpty(cfg, After(cfg, s, Drain));
    }
  }

  /** Closing with the draining that follows, uninterrupted, is one call of `Close`. */
  method CloseIsDrain(cfg: Config, ghost s: Sys, bus: MessageBus)
    requires Mirrors(bus, s) && Possible(cfg, s, Close)
    modifies bus
    ensures Mirrors(bus, Drained(cfg, After(cfg, s, Close)))
  {
    var drained := bus.Close();
    DrainedIsEmpty(cfg, After(cfg, s, Close));
  }

  // ------------------------------------------------------------------ the theorems

  /** What a channel hears first, in order, begins the pieces of a subsequence of the accepted
      messages for it, and of a prefix of them until the bus is closed. */
  lemma FirstAttemptsInOrder(cfg: Config, run: seq<Sys>, s: Sys, ch: string)
    requires Iteration.IsRun((s, t) => Next(cfg, s, t), run) && Initial(cfg, run[0]) && s in run
    requires ch in s.workers && ch in cfg.limits
    ensures Firsts(s.workers[ch].log) <= Due(cfg, s.taken, ch)
    ensures Subsequence(s.taken, s.accepted)
    ensures !s.closed ==> s.taken <= s.accepted && Firsts(s.workers[ch].log) <= Due(cfg, s.accepted, ch)
  {
    EveryStateInv(cfg, run);
    assert ChannelInv(cfg, s, ch);
    PrefixOfSubsequence(s.taken, s.bus, s.accepted);
    DueConcat(cfg, s.taken, s.bus, ch);
  }

  /** Until the bus is closed or the context cancelled nothing is lost: what was accepted for a
      channel is what it has heard, then what its worker, the dispatcher and the bus hold. */
  lemma NothingIsLost(cfg: Config, run: seq<Sys>, s: Sys, ch: string)
    requires Iteration.IsRun((s, t) => Next(cfg, s, t), run) && Initial(cfg, run[0]) && s in run
    requires ch in s.workers && ch in cfg.limits && !s.closed && !s.cancelled
    ensures Due(cfg, s.accepted, ch) ==
            Flow(cfg.limits[ch], s.workers[ch]) + Due(cfg, Held(s), ch) + Due(cfg, s.bus, ch)
  {
    EveryStateInv(cfg, run);
    assert ChannelInv(cfg, s, ch);
    DueConcat(cfg, s.taken, s.bus, ch);
  }

  /** So when everything has come to rest the channel has heard everything, in order. */
  lemma AtRestAllWasHeard(cfg: Config, run: seq<Sys>, s: Sys, ch: string)
    requires Iteration.IsRun((s, t) => Next(cfg, s, t), run) && Initial(cfg, run[0]) && s in run
    requires ch in s.workers && ch in cfg.limits && !s.closed && !s.cancelled
    requires s.bus == [] && s.held.None? && Idle(s.workers[ch]) && s.workers[ch].queue == []
    ensures Firsts(s.workers[ch].log) == Due(cfg, s.accepted, ch)
  {
    NothingIsLost(cfg, run, s, ch);
    assert Due(cfg, Held(s), ch) == [] && Due(cfg, s.bus, ch) == [];
  }

  /** The bus takes the messages of one publisher in the order it publishes them, and none
      twice. */
  lemma PublishersKeepTheirOrder(cfg: Config, run: seq<Sys>, s: Sys, i: nat, j: nat)
    requires Iteration.IsRun((s, t) => Next(cfg, s, t), run) && Initial(cfg, run[0]) && s in run
    requires i < j < |s.accepted| && s.accepted[i].publisher == s.accepted[j].publisher
    ensures s.accepted[i].serial < s.accepted[j].serial
  {
    EveryStateInv(cfg, run);
  }

  /** No queue outgrows its buffer, and every repeated attempt repeats the piece just tried,
      at most three times, after an error that calls for it. */
  lemma BoundsAndRetries(cfg: Config, run: seq<Sys>, s: Sys, ch: string, i: nat)
    requires Iteration.IsRun((s, t) => Next(cfg, s, t), run) && Initial(cfg, run[0]) && s in run
    requires ch in s.workers && i < |s.workers[ch].log|
    ensures |s.bus| <= 64 && |s.workers[ch].queue| <= 16
    ensures var log := s.workers[ch].log;
            log[i].Attempt? ==>
              && log[i].number <= 3
              && (log[i].number > 0 ==>
                    && i > 0 && log[i - 1].Attempt? && log[i - 1].piece == log[i].piece
                    && log[i - 1].number == log[i].number - 1 && CallsForMore(log[i - 1].result))
  {
    EveryStateInv(cfg, run);
    assert ChannelInv(cfg, s, ch);
  }
}

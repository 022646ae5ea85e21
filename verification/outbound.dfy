/** The outbound side of pkg/bus/bus.go and pkg/channels/manager.go, one call at a time: the
    bounded bus, and sending one message with retries. */
module Outbound {

  datatype Message = Message(channel: string, chatId: string, content: string)

  const BUS_SIZE := 64
  const QUEUE_SIZE := 16
  const MAX_RETRIES := 3

  predicate IsInternal(channel: string) {
    channel == "cli" || channel == "system" || channel == "subagent"
  }

  // ------------------------------------------------------------------- the bus

  /** What a blocked publisher or consumer is woken by. */
  datatype Wake = OnQueue | OnClosed | OnCancelled
  datatype Published = Accepted | BusClosed | Cancelled

  /** The three buffers of the bus. What is said of the outbound one goes for the others too,
      which only `Close` touches here. */
  class MessageBus {
    var inbound: seq<Message>
    var outbound: seq<Message>
    var outboundMedia: seq<Message>
    var closed: bool

    constructor ()
      ensures inbound == outbound == outboundMedia == [] && !closed
    {
      inbound, outbound, outboundMedia, closed := [], [], [], false;
    }

    predicate Valid()
      reads this
    {
      |outbound| <= BUS_SIZE
    }

    /** Publishing. `wake` is the case the select takes when both checks before it pass: room
        in the buffer, the bus closed meanwhile, or the context cancelled meanwhile. */
    method PublishOutbound(msg: Message, cancelled: bool, wake: Wake) returns (r: Published)
      requires Valid() && (wake == OnQueue ==> |outbound| < BUS_SIZE)
      modifies this`outbound
      ensures Valid()
      ensures r == BusClosed <==> closed || (!cancelled && wake == OnClosed)
      ensures r == Accepted <==> !closed && !cancelled && wake == OnQueue
      ensures outbound == if r == Accepted then old(outbound) + [msg] else old(outbound)
    {
      if closed {
        return BusClosed;
      }
      if cancelled {
        return Cancelled;
      }
      match wake
      case OnQueue =>
        outbound := outbound + [msg];
        return Accepted;
      case OnClosed => return BusClosed;
      case OnCancelled => return Cancelled;
    }

    /** Consuming. A message may still be handed out after the bus was closed. */
    method SubscribeOutbound(wake: Wake) returns (ok: bool, msg: Message)
      requires wake == OnQueue ==> outbound != []
      modifies this`outbound
      ensures ok <==> wake == OnQueue
      ensures if ok then old(outbound) == [msg] + outbound else outbound == old(outbound)
    {
      if wake == OnQueue {
        msg, outbound := outbound[0], outbound[1..];
        return true, msg;
      }
      return false, Message("", "", "");
    }

    /** Closing drops what is buffered, buffer by buffer. A second close does nothing. */
    method Close() returns (drained: nat)
      modifies this
      ensures closed
      ensures old(closed) ==> inbound == old(inbound) && outbound == old(outbound)
      ensures old(closed) ==> outboundMedia == old(outboundMedia) && drained == 0
      ensures !old(closed) ==> inbound == outbound == outboundMedia == []
      ensures !old(closed) ==> drained == |old(inbound)| + |old(outbound)| + |old(outboundMedia)|
    {
      drained := 0;
      if closed {
        return;
      }
      closed := true;
      while inbound != []
        invariant closed && outbound == old(outbound) && outboundMedia == old(outboundMedia)
        invariant drained + |inbound| == |old(inbound)|
        decreases |inbound|
      {
        inbound, drained := inbound[1..], drained + 1;
      }
      while outbound != []
        invariant closed && inbound == [] && outboundMedia == old(outboundMedia)
        invariant drained + |outbound| == |old(inbound)| + |old(outbound)|
        decreases |outbound|
      {
        outbound, drained := outbound[1..], drained + 1;
      }
      while outboundMedia != []
        invariant closed && inbound == outbound == []
        invariant drained + |outboundMedia| == |old(inbound)| + |old(outbound)| + |old(outboundMedia)|
        decreases |outboundMedia|
      {
        outboundMedia, drained := outboundMedia[1..], drained + 1;
      }
    }
  }

  // -------------------------------------------------------------------- retries

  datatype SendResult = Sent | NotRunning | SendFailed | RateLimited | Temporary | OtherError

  predicate Permanent(r: SendResult) {
    r == NotRunning || r == SendFailed
  }

  /** No attempt follows this one, whatever happens in between. */
  predicate IsFinal(r: SendResult, attempt: nat) {
    r == Sent || Permanent(r) || attempt >= MAX_RETRIES
  }

  function Doubled(n: nat): nat {
    if n == 0 then 500 else 2 * Doubled(n - 1)
  }

  /** The pause after a failed attempt, in milliseconds. */
  function Pause(r: SendResult, attempt: nat): nat {
    if r == RateLimited then 1000 else if Doubled(attempt) < 8000 then Doubled(attempt) else 8000
  }

  /** The cap of eight seconds is never reached with three retries: an unknown error waits half
      a second, then one, then two. */
  lemma CapIsNeverReached(r: SendResult, attempt: nat)
    requires attempt < MAX_RETRIES
    ensures r != RateLimited ==> Pause(r, attempt) == Doubled(attempt)
    ensures Pause(r, attempt) == Waits(r == RateLimited, attempt)
  {
    assert Doubled(0) == 500 && Doubled(1) == 1000 && Doubled(2) == 2000;
  }

  /** The pauses in milliseconds. */
  function Waits(rateLimited: bool, attempt: nat): nat {
    if rateLimited then 1000 else if attempt == 0 then 500 else if attempt == 1 then 1000 else 2000
  }

  /** What the world does to one message: whether the limiter lets it through, whether a
      placeholder can be edited into it, how each attempt ends, and whether the context is
      cancelled during the pause after it. */
  datatype World = World(admitted: bool, edited: bool, result: nat -> SendResult, cancelled: nat -> bool)

  /** The results of the attempts made from the `k`-th on. */
  function Sends(w: World, k: nat): (s: seq<SendResult>)
    ensures forall i :: 0 <= i < |s| ==> s[i] == w.result(k + i)
    decreases MAX_RETRIES - k
  {
    [w.result(k)] + (if IsFinal(w.result(k), k) || w.cancelled(k) then [] else Sends(w, k + 1))
  }

  /** A failure after which sending goes on, as long as there are attempts left: the errors the
      channels do not know are taken for temporary ones. */
  predicate CallsForMore(r: SendResult) {
    match r
    case RateLimited => true
    case Temporary => true
    case OtherError => true
    case _ => false
  }

  /** Sending one message. `attempts` counts the sends, `delays` lists the pauses sat through. */
  method SendWithRetry(w: World) returns (delivered: bool, attempts: nat, delays: seq<nat>)
    ensures attempts == 0 <==> !w.admitted || w.edited
    ensures attempts <= MAX_RETRIES + 1
    ensures w.admitted && !w.edited ==> attempts == |Sends(w, 0)|
    ensures delivered <==> w.admitted && (w.edited || w.result(attempts - 1) == Sent)
    ensures forall k: nat :: k + 1 < attempts ==> !IsFinal(w.result(k), k) && !w.cancelled(k)
    ensures attempts > 0 ==> IsFinal(w.result(attempts - 1), attempts - 1) || w.cancelled(attempts - 1)
    ensures |delays| == if attempts == 0 then 0 else attempts - 1
    ensures attempts <= 4 && forall k: nat :: k + 1 < attempts ==> CallsForMore(w.result(k))
    ensures 0 < attempts < 4 && CallsForMore(w.result(attempts - 1)) ==> w.cancelled(attempts - 1)
    ensures forall k :: 0 <= k < |delays| ==> delays[k] == Waits(w.result(k) == RateLimited, k)
  {
    delivered, attempts, delays := false, 0, [];
    if !w.admitted {
      return;
    }
    if w.edited {
      return true, 0, [];
    }
    var attempt := 0;
    while attempt <= MAX_RETRIES
      invariant attempts == attempt == |delays| <= MAX_RETRIES
      invariant |Sends(w, 0)| == attempt + |Sends(w, attempt)|
      invariant GoOn(w, attempts)
      invariant forall k :: 0 <= k < |delays| ==> delays[k] == Waits(w.result(k) == RateLimited, k)
      decreases MAX_RETRIES - attempt
    {
      var err := w.result(attempt);
      attempts := attempts + 1;
      if err == Sent {
        delivered := true;
        return;
      }
      if Permanent(err) || attempt == MAX_RETRIES || w.cancelled(attempt) {
        return;
      }
      CapIsNeverReached(err, attempt);
      delays := delays + [Pause(err, attempt)];
      attempt := attempt + 1;
    }
  }

  /** Each of the first `n` attempts is followed by another one. */
  ghost predicate GoOn(w: World, n: nat) {
    forall k: nat :: k < n ==> GoesOn(w, k)
  }

  predicate GoesOn(w: World, k: nat) {
    !IsFinal(w.result(k), k) && !w.cancelled(k)
  }
}

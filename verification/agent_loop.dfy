/** The LLM/tool loop of pkg/agent/loop.go and the transcripts it sends and stores. */
module AgentLoop {
  import opened GoStrings
  import opened Sequences
  import opened Transcript

  // ------------------------------------------------------------------ compression

  const NOTE := "\n\n[System Note: Emergency compression dropped oldest messages due to context limit]"

  /** The first message with a note, and the younger half of the rest. */
  function Compressed(history: seq<Message>): seq<Message> {
    if |history| <= 4 then history
    else
      var mid := (|history| - 2) / 2;
      [history[0].(content := history[0].content + NOTE)] + history[1 + mid..]
  }

  /** The shape of a stored session: a user message, perhaps tool results whose request was
      compressed away, and a valid continuation of the user message. */
  ghost predicate Shaped(h: seq<Message>, k: nat) {
    && 1 <= k <= |h| && h[0].role == User
    && (forall i :: 0 < i < k ==> h[i].role == Tool)
    && WireValid([h[0]] + h[k..])
  }

  ghost predicate Session(h: seq<Message>) {
    h == [] || exists k :: Shaped(h, k)
  }

  lemma UserAloneIsValid(u: Message)
    requires u.role == User
    ensures WireValid([u]) && Sanitize([u]) == [u]
  {
    assert [u][..0] == [];
    FixedIffValid([u]);
  }

  lemma {:induction false} OrphansVanish(u: Message, tools: seq<Message>)
    requires u.role == User && forall t <- tools :: t.role == Tool
    ensures Sanitize([u] + tools) == [u]
    decreases |tools|
  {
    UserAloneIsValid(u);
    if tools == [] {
      assert [u] + tools == [u];
    } else {
      var front := tools[..|tools| - 1];
      OrphansVanish(u, front);
      assert ([u] + tools)[..|tools|] == [u] + front;
      assert tools[|tools| - 1] in tools;
    }
  }

  /** What the sanitizer makes of a stored session: it drops just those tool results. */
  lemma SanitizedSession(h: seq<Message>, k: nat)
    requires Shaped(h, k)
    ensures Sanitize(h) == [h[0]] + h[k..]
    ensures EndsOpen(h) ==> EndsOpen(Sanitize(h))
  {
    OrphansDropOut(h, k);
    if EndsOpen(h) {
      EndStaysOpen(h, k);
    }
  }

  lemma OrphansDropOut(h: seq<Message>, k: nat)
    requires Shaped(h, k)
    ensures Sanitize(h) == [h[0]] + h[k..]
  {
    var orphans := h[1..k];
    assert forall t <- orphans :: t.role == Tool;
    OrphansVanish(h[0], orphans);
    assert h == ([h[0]] + orphans) + h[k..];
    KeepsValidTail([h[0]] + orphans, [h[0]], h[k..]);
  }

  lemma EndStaysOpen(h: seq<Message>, k: nat)
    requires 1 <= k <= |h| && h[0].role == User && EndsOpen(h)
    ensures EndsOpen([h[0]] + h[k..])
  {
  }

  lemma AppendKeepsShape(h: seq<Message>, k: nat, tail: seq<Message>)
    requires Shaped(h, k) && WireValid([h[0]] + h[k..] + tail)
    ensures Shaped(h + tail, k)
  {
    assert [h[0]] + (h + tail)[k..] == [h[0]] + h[k..] + tail;
  }

  /** The first message at or after `c` that is no tool result. */
  lemma {:induction false} SkipResults(h: seq<Message>, c: nat) returns (j: nat)
    requires c <= |h|
    ensures c <= j <= |h| && (j < |h| ==> h[j].role != Tool)
    ensures forall i :: c <= i < j ==> h[i].role == Tool
    decreases |h| - c
  {
    if c == |h| || h[c].role != Tool {
      j := c;
    } else {
      j := SkipResults(h, c + 1);
    }
  }

  /** Compression keeps the shape: it cuts off older messages and orphans at most the tool
      results right behind the cut. */
  lemma CompressionKeepsShape(h: seq<Message>, k: nat) returns (l: nat)
    requires Shaped(h, k)
    ensures Shaped(Compressed(h), l)
  {
    if |h| <= 4 {
      return k;
    }
    CompressedIsCut(h);
    l := CutKeepsShape(h, k, 1 + (|h| - 2) / 2, h[0].(content := h[0].content + NOTE));
  }

  lemma CompressedIsSession(h: seq<Message>)
    requires Session(h)
    ensures Session(Compressed(h))
  {
    if h != [] {
      var k: nat :| Shaped(h, k);
      var l := CompressionKeepsShape(h, k);
    }
  }

  /** What compression leaves: the first message, marked, and those from the middle on. */
  lemma CompressedIsCut(h: seq<Message>)
    requires |h| > 4
    ensures Compressed(h) == [h[0].(content := h[0].content + NOTE)] + h[1 + (|h| - 2) / 2..]
  {
    var c := 1 + (|h| - 2) / 2;
    assert h[1..|h| - 1][c - 1..] + [h[|h| - 1]] == h[c..];
  }

  lemma KeptIsCompressed(h: seq<Message>)
    requires |h| > 4
    ensures var conversation := h[1..|h| - 1];
            [h[0].(content := h[0].content + NOTE)] + conversation[|conversation| / 2..] + [h[|h| - 1]] == Compressed(h)
  {
    CompressedIsCut(h);
    var mid := (|h| - 2) / 2;
    assert h[1..|h| - 1][mid..] + [h[|h| - 1]] == h[1 + mid..];
    Assoc([h[0].(content := h[0].content + NOTE)], h[1..|h| - 1][mid..], [h[|h| - 1]]);
  }

  lemma CutKeepsShape(h: seq<Message>, k: nat, c: nat, u: Message) returns (l: nat)
    requires Shaped(h, k) && 1 <= c <= |h| && u.role == User
    ensures Shaped([u] + h[c..], l)
  {
    var j := SkipResults(h, if c < k then k else c);
    SuffixValid(h[0], h[k..], j - k, u);
    assert h[k..][j - k..] == h[j..];
    CutShape(h, c, j, u);
    l := j - c + 1;
  }

  lemma CutShape(h: seq<Message>, c: nat, j: nat, u: Message)
    requires 1 <= c <= j <= |h| && u.role == User
    requires forall i :: c <= i < j ==> h[i].role == Tool
    requires WireValid([u] + h[j..])
    ensures Shaped([u] + h[c..], j - c + 1)
  {
    var w := [u] + h[c..];
    assert forall i :: 0 < i < |w| ==> w[i] == h[c + i - 1];
    assert w[j - c + 1..] == h[j..];
  }

  /** A valid continuation of one user message, cut before a message that is no tool result,
      continues any other user message. */
  lemma SuffixValid(u: Message, rest: seq<Message>, j: nat, v: Message)
    requires u.role == User && v.role == User && WireValid([u] + rest)
    requires j <= |rest| && (j < |rest| ==> rest[j].role != Tool)
    ensures WireValid([v] + rest[j..])
  {
    var w, x := [u] + rest, [v] + rest[j..];
    assert forall i :: 0 < i < |x| ==> x[i] == w[i + j];
    forall i | 0 <= i < |x| && x[i].role == Tool ensures Answers(x, i) {
      assert Answers(w, i + j);
      var k :| 0 <= k < i + j && Opens(w[k]) && forall m :: k < m < i + j ==> w[m].role == Tool;
      assert x[1].role != Tool && w[1 + j] == x[1];
      assert k >= 1 + j;
      assert Opens(x[k - j]) && forall m :: k - j < m < i ==> x[m].role == Tool;
    }
  }

  // ------------------------------------------------------------- the turn, in pure form

  ghost predicate AllProper(rounds: seq<Round>) {
    forall r <- rounds :: r.Proper()
  }

  function Turn(user: string, rounds: seq<Round>, answer: seq<Message>): seq<Message>
    requires AllProper(rounds)
  {
    [Message(User, user, [], "")] + RoundMessages(rounds) + answer
  }

  function RoundMessages(rounds: seq<Round>): seq<Message>
    requires AllProper(rounds)
  {
    if rounds == [] then [] else RoundMessages(rounds[..|rounds| - 1]) + rounds[|rounds| - 1].Messages()
  }

  lemma {:induction false} RoundsKeepValid(w: seq<Message>, rounds: seq<Round>)
    requires WireValid(w) && EndsOpen(w) && AllProper(rounds)
    ensures WireValid(w + RoundMessages(rounds)) && EndsOpen(w + RoundMessages(rounds))
    decreases |rounds|
  {
    if rounds == [] {
      assert w + RoundMessages(rounds) == w;
    } else {
      var front, r := rounds[..|rounds| - 1], rounds[|rounds| - 1];
      RoundsKeepValid(w, front);
      assert r in rounds;
      RoundKeepsValidIff(w + RoundMessages(front), r);
      Assoc(w, RoundMessages(front), r.Messages());
    }
  }

  /** A whole turn, answered or failed, keeps a transcript valid. */
  lemma TurnKeepsValid(w: seq<Message>, user: string, rounds: seq<Round>, answer: seq<Message>)
    requires WireValid(w) && AllProper(rounds)
    requires answer == [] || (|answer| == 1 && answer[0].role == Assistant && answer[0].calls == [])
    ensures WireValid(w + Turn(user, rounds, answer))
  {
    var u := Message(User, user, [], "");
    AcceptsIffValid(w, u);
    RoundsKeepValid(w + [u], rounds);
    var v := (w + [u]) + RoundMessages(rounds);
    assert w + Turn(user, rounds, answer) == v + answer;
    if answer == [] {
      assert v + answer == v;
    } else {
      assert answer == [answer[0]];
      AcceptsIffValid(v, answer[0]);
    }
  }

  datatype TurnRecord = TurnRecord(user: string, rounds: seq<Round>, answer: seq<Message>) {
    ghost predicate Proper() {
      && AllProper(rounds)
      && (answer == [] || (|answer| == 1 && answer[0].role == Assistant && answer[0].calls == []))
    }
  }

  ghost function History(turns: seq<TurnRecord>): seq<Message>
    requires forall t <- turns :: t.Proper()
  {
    if turns == [] then []
    else
      var t := turns[|turns| - 1];
      assert t.Proper();
      History(turns[..|turns| - 1]) + Turn(t.user, t.rounds, t.answer)
  }

  /** Histories of any number of turns, without compression, pass the sanitizer unchanged. */
  lemma {:induction false} HistoriesAreFixed(turns: seq<TurnRecord>)
    requires forall t <- turns :: t.Proper()
    ensures WireValid(History(turns)) && Sanitize(History(turns)) == History(turns)
    decreases |turns|
  {
    if turns != [] {
      var front, t := turns[..|turns| - 1], turns[|turns| - 1];
      HistoriesAreFixed(front);
      assert t in turns;
      TurnKeepsValid(History(front), t.user, t.rounds, t.answer);
    }
    FixedIffValid(History(turns));
  }

  // ---------------------------------------------------------------------- the loop

  /** What one call to the model comes back with; tool results are those of its tools. */
  datatype Reply =
    | Answer(content: string)
    | Calls(round: Round)
    | Timeout
    | ContextError
    | OtherError
  {
    predicate Failed() { Timeout? || ContextError? || OtherError? }
    predicate Proper() { Calls? ==> round.Proper() }

    /** What the session and the next request gain. */
    function Tail(): seq<Message>
      requires Proper()
    {
      if Calls? then round.Messages() else []
    }
  }

  function SystemMessage(): Message { Message(System, "prompt", [], "") }

  function Wire(history: seq<Message>, current: string): seq<Message> {
    [SystemMessage()] + Sanitize(history)
      + (if TrimSpace(current) != "" then [Message(User, current, [], "")] else [])
  }

  /** A request any provider takes: one system message in front, the rest valid and ending in
      something a reply with tool calls may follow. */
  ghost predicate GoodRequest(messages: seq<Message>) {
    |messages| > 0 && messages[0].role == System && WireValid(messages[1..]) && EndsOpen(messages[1..])
  }

  /** Every request after the first `n` is good. */
  ghost predicate GoodFrom(requests: seq<seq<Message>>, n: nat) {
    forall i :: n <= i < |requests| ==> GoodRequest(requests[i])
  }

  /** If the first request was good, so are the next one and all made since. */
  ghost predicate GoodSoFar(initial: seq<Message>, next: seq<Message>, requests: seq<seq<Message>>, n: nat) {
    GoodRequest(initial) ==> GoodRequest(next) && GoodFrom(requests, n)
  }

  lemma GoodSoFarAdds(initial: seq<Message>, request: seq<Message>, before: seq<seq<Message>>,
                      next: seq<Message>, requests: seq<seq<Message>>, n: nat)
    requires before <= requests && GoodSoFar(initial, request, before, n)
    requires GoodSoFar(request, next, requests, |before|)
    ensures GoodSoFar(initial, next, requests, n)
  {
    if GoodRequest(initial) {
      GoodFromAdds(before, requests, n);
    }
  }

  lemma GoodFromAdds(a: seq<seq<Message>>, b: seq<seq<Message>>, n: nat)
    requires a <= b && GoodFrom(a, n) && GoodFrom(b, |a|)
    ensures GoodFrom(b, n)
  {
    assert forall i :: 0 <= i < |a| ==> a[i] == b[i];
  }

  // ------------------------------------------------------- one call, with its retries

  const RETRIES := 2

  /** What one attempt works on: the stored session and the request sent. */
  datatype Attempt = Attempt(history: seq<Message>, request: seq<Message>)

  /** The model never complains about the size of a request. */
  ghost predicate Fits(model: nat -> Reply) {
    forall n :: model(n) != ContextError
  }

  /** The attempt after one that failed: the same again after a timeout, and after a context
      error the session compressed and the request rebuilt from it. */
  function Retry(a: Attempt, reply: Reply): Attempt {
    if reply.Timeout? then a else Rebuilt(Compressed(a.history))
  }

  function Rebuilt(h: seq<Message>): Attempt {
    Attempt(h, Wire(h, ""))
  }

  /** Attempts in a row, the first being the `n`-th request of the session. */
  ghost predicate Chain(model: nat -> Reply, n: nat, attempts: seq<Attempt>) {
    && 1 <= |attempts| <= 1 + RETRIES
    && forall i :: 0 < i < |attempts| ==> Follows(model(n + i - 1), attempts[i - 1], attempts[i])
  }

  ghost predicate Follows(reply: Reply, a: Attempt, b: Attempt) {
    (reply.Timeout? || reply.ContextError?) && b == Retry(a, reply)
  }

  /** All attempts of one call: the last one is answered, or fails for good, or is the third. */
  ghost predicate WholeCall(model: nat -> Reply, n: nat, attempts: seq<Attempt>) {
    && Chain(model, n, attempts)
    && var reply := model(n + |attempts| - 1);
       ((reply.Timeout? || reply.ContextError?) ==> |attempts| == 1 + RETRIES)
  }

  /** The attempts' requests are what was added to the requests made before. */
  ghost predicate Sent(before: seq<seq<Message>>, requests: seq<seq<Message>>, attempts: seq<Attempt>) {
    && before <= requests && |requests| == |before| + |attempts|
    && forall i :: 0 <= i < |attempts| ==> requests[|before| + i] == attempts[i].request
  }

  ghost predicate OpenSession(h: seq<Message>) {
    Session(h) && EndsOpen(h)
  }

  lemma CompressionEndsOpen(h: seq<Message>)
    requires EndsOpen(h)
    ensures EndsOpen(Compressed(h))
  {
    if |h| > 4 {
      CompressedIsCut(h);
    }
  }

  lemma CompressionStaysOpen(h: seq<Message>)
    requires OpenSession(h)
    ensures OpenSession(Compressed(h)) && GoodRequest(Rebuilt(Compressed(h)).request)
  {
    CompressedIsSession(h);
    CompressionEndsOpen(h);
    CompressedRequest(Compressed(h));
  }

  lemma RetryFacts(reply: Reply, a: Attempt, b: Attempt)
    requires Follows(reply, a, b) && OpenSession(a.history)
    ensures OpenSession(b.history)
    ensures GoodRequest(a.request) ==> GoodRequest(b.request)
    ensures reply != ContextError ==> b == a
  {
    if reply.ContextError? {
      CompressionStaysOpen(a.history);
    }
  }

  /** Every attempt works on a session of the right shape, and sends a good request if the
      first was; without context errors all attempts are the first one again. */
  lemma {:induction false} AttemptFacts(model: nat -> Reply, n: nat, attempts: seq<Attempt>, i: nat)
    requires Chain(model, n, attempts) && OpenSession(attempts[0].history) && i < |attempts|
    ensures OpenSession(attempts[i].history)
    ensures GoodRequest(attempts[0].request) ==> GoodRequest(attempts[i].request)
    ensures Fits(model) ==> attempts[i] == attempts[0]
  {
    if i > 0 {
      AttemptFacts(model, n, attempts, i - 1);
      RetryFacts(model(n + i - 1), attempts[i - 1], attempts[i]);
    }
  }

  lemma {:induction false} AttemptsAgree(model: nat -> Reply, n: nat, a: seq<Attempt>, b: seq<Attempt>, i: nat)
    requires Chain(model, n, a) && Chain(model, n, b) && a[0] == b[0] && i < |a| && i < |b|
    ensures a[i] == b[i]
  {
    if i > 0 {
      AttemptsAgree(model, n, a, b, i - 1);
      LinkAt(model, n, a, i);
      LinkAt(model, n, b, i);
    }
  }

  lemma LinkAt(model: nat -> Reply, n: nat, attempts: seq<Attempt>, i: nat)
    requires Chain(model, n, attempts) && 0 < i < |attempts|
    ensures Follows(model(n + i - 1), attempts[i - 1], attempts[i])
  {
  }

  lemma NoneIsLonger(model: nat -> Reply, n: nat, a: seq<Attempt>, b: seq<Attempt>)
    requires WholeCall(model, n, a) && Chain(model, n, b)
    ensures |b| <= |a|
  {
    if |a| < |b| {
      LinkAt(model, n, b, |a|);
    }
  }

  /** The model's replies decide all attempts of a call. */
  lemma CallIsDetermined(model: nat -> Reply, n: nat, a: seq<Attempt>, b: seq<Attempt>)
    requires WholeCall(model, n, a) && WholeCall(model, n, b) && a[0] == b[0]
    ensures a == b
  {
    NoneIsLonger(model, n, a, b);
    NoneIsLonger(model, n, b, a);
    forall i | 0 <= i < |a| ensures a[i] == b[i] {
      AttemptsAgree(model, n, a, b, i);
    }
  }

  lemma ChainGrows(model: nat -> Reply, n: nat, attempts: seq<Attempt>, b: Attempt)
    requires Chain(model, n, attempts) && |attempts| <= RETRIES
    requires Follows(model(n + |attempts| - 1), attempts[|attempts| - 1], b)
    ensures Chain(model, n, attempts + [b]) && (attempts + [b])[0] == attempts[0]
  {
  }

  lemma SentGrows(before: seq<seq<Message>>, requests: seq<seq<Message>>, attempts: seq<Attempt>, b: Attempt)
    requires Sent(before, requests, attempts)
    ensures Sent(before, requests + [b.request], attempts + [b])
  {
  }

  lemma CallSendsGood(model: nat -> Reply, before: seq<seq<Message>>, requests: seq<seq<Message>>,
                      attempts: seq<Attempt>)
    requires Chain(model, |before|, attempts) && OpenSession(attempts[0].history)
    requires Sent(before, requests, attempts) && GoodRequest(attempts[0].request)
    ensures GoodFrom(requests, |before|)
  {
    forall i | |before| <= i < |requests| ensures GoodRequest(requests[i]) {
      AttemptFacts(model, |before|, attempts, i - |before|);
    }
  }

  /** What a reply does to the stored session and to the request it follows. */
  lemma ReplyFacts(h: seq<Message>, messages: seq<Message>, reply: Reply)
    requires OpenSession(h) && reply.Proper()
    ensures OpenSession(h + reply.Tail())
    ensures GoodRequest(messages) ==> GoodRequest(messages + reply.Tail())
  {
    if reply.Calls? {
      StoredRound(h, reply.round);
      if GoodRequest(messages) {
        GoodWithRound(messages, reply.round);
      }
    } else {
      assert h + [] == h && messages + [] == messages;
    }
  }

  // ----------------------------------------------- the same, in terms of what it means

  /** A request for a past and a message: one system message, the sanitized past, and the
      message at the end unless it is blank. */
  ghost predicate IsRequest(messages: seq<Message>, past: seq<Message>, current: string) {
    && |messages| >= 1 && messages[0].role == System
    && (if TrimSpace(current) == "" then messages[1..] == Sanitize(past)
        else
          && |messages| >= 2 && messages[|messages| - 1] == Message(User, current, [], "")
          && messages[1..|messages| - 1] == Sanitize(past))
  }

  lemma WireIs(past: seq<Message>, current: string)
    ensures IsRequest(Wire(past, current), past, current)
  {
    var w := Wire(past, current);
    if TrimSpace(current) != "" {
      assert w == ([SystemMessage()] + Sanitize(past)) + [Message(User, current, [], "")];
    }
  }

  /** A session after an emergency: short ones stay, of a longer one the first message, marked,
      and the later half. */
  predicate IsCompression(h: seq<Message>, c: seq<Message>) {
    if |h| <= 4 then c == h
    else c == [h[0].(content := h[0].content + NOTE)] + h[1 + (|h| - 2) / 2..]
  }

  lemma CompressedIs(h: seq<Message>)
    ensures IsCompression(h, Compressed(h))
  {
    if |h| > 4 {
      CompressedIsCut(h);
    }
  }

  /** What is tried after a failure: the same after a timeout; after a context error a request
      for the compressed session without a message. */
  lemma RetryIs(reply: Reply, a: Attempt, b: Attempt)
    requires Follows(reply, a, b)
    ensures reply == Timeout ==> b == a
    ensures reply == ContextError ==>
      IsCompression(a.history, b.history) && IsRequest(b.request, b.history, "")
    ensures reply == Timeout || reply == ContextError
  {
    CompressedIs(a.history);
    WireIs(b.history, "");
    assert TrimSpace("") == "";
  }

  /** The messages of a round: what the model asked for, and the result of each call in order. */
  ghost predicate IsRound(r: Round, messages: seq<Message>)
    requires r.Proper()
  {
    && |messages| == 1 + |r.calls| && messages[0] == Message(Assistant, r.content, r.calls, "")
    && forall i :: 0 <= i < |r.calls| ==> messages[1 + i] == Message(Tool, r.results[i], [], r.calls[i])
  }

  lemma {:induction false} ResultsAre(r: Round, n: nat)
    requires r.Proper() && n <= |r.calls|
    ensures forall i :: 0 <= i < n ==> r.Results(n)[i] == Message(Tool, r.results[i], [], r.calls[i])
  {
    if n > 0 {
      ResultsAre(r, n - 1);
    }
  }

  lemma RoundIs(r: Round)
    requires r.Proper()
    ensures IsRound(r, r.Messages())
  {
    ResultsAre(r, |r.calls|);
  }

  /** The rounds are what the model replied to the requests `ends`, one after the other. */
  ghost predicate AreReplies(model: nat -> Reply, rounds: seq<Round>, ends: seq<nat>, from: nat, to: nat) {
    && |ends| == |rounds|
    && (forall i :: 0 <= i < |ends| ==> from <= ends[i] < to && model(ends[i]) == Calls(rounds[i]))
    && (forall i, j :: 0 <= i < j < |ends| ==> ends[i] < ends[j])
  }

  lemma RepliesStay(model: nat -> Reply, rounds: seq<Round>, ends: seq<nat>, from: nat, to: nat, later: nat)
    requires AreReplies(model, rounds, ends, from, to) && to <= later
    ensures AreReplies(model, rounds, ends, from, later)
  {
  }

  lemma RepliesGrow(model: nat -> Reply, rounds: seq<Round>, ends: seq<nat>, from: nat, end: nat, r: Round)
    requires AreReplies(model, rounds, ends, from, end) && from <= end && model(end) == Calls(r)
    ensures AreReplies(model, rounds + [r], ends + [end], from, end + 1)
  {
  }

  /** Where the loop stands: the session, the next request and all requests made. */
  datatype Stand = Stand(history: seq<Message>, next: seq<Message>, requests: seq<seq<Message>>)

  /** One iteration: the first of its one to three requests is the next one, the last one is
      replied to, and extended by the round if there is one. */
  ghost predicate Iterates(model: nat -> Reply, s: Stand, t: Stand, reply: Reply) {
    && reply.Proper() && s.requests < t.requests && |t.requests| <= |s.requests| + 3
    && t.requests[|s.requests|] == s.next && reply == model(|t.requests| - 1)
    && t.next == t.requests[|t.requests| - 1] + reply.Tail()
    && GoodSoFar(s.next, t.next, t.requests, |s.requests|)
    && (Fits(model) ==> t.next == s.next + reply.Tail() && t.history == s.history + reply.Tail())
  }

  /** A call with its retries, and the round that may follow, is one iteration. */
  lemma CallIterates(model: nat -> Reply, s: Stand, requests: seq<seq<Message>>, attempts: seq<Attempt>, reply: Reply)
    requires OpenSession(s.history) && reply.Proper() && Chain(model, |s.requests|, attempts)
    requires attempts[0] == Attempt(s.history, s.next) && Sent(s.requests, requests, attempts)
    requires reply == model(|requests| - 1)
    ensures var last := attempts[|attempts| - 1];
            && OpenSession(last.history)
            && Iterates(model, s, Stand(last.history + reply.Tail(), last.request + reply.Tail(), requests), reply)
  {
    var last := attempts[|attempts| - 1];
    AttemptFacts(model, |s.requests|, attempts, |attempts| - 1);
    ReplyFacts(last.history, last.request, reply);
    assert requests[|s.requests| + 0] == attempts[0].request;
    assert requests[|s.requests| + (|attempts| - 1)] == last.request;
    if GoodRequest(s.next) {
      CallSendsGood(model, s.requests, requests, attempts);
    }
  }

  /** The loop from `first` after some rounds. */
  ghost predicate Loops(model: nat -> Reply, first: Stand, s: Stand, rounds: seq<Round>, ends: seq<nat>) {
    && first.requests <= s.requests && AllProper(rounds)
    && GoodSoFar(first.next, s.next, s.requests, |first.requests|)
    && (Fits(model) ==> s.history == first.history + RoundMessages(rounds))
    && AreReplies(model, rounds, ends, |first.requests|, |s.requests|)
    && (if rounds == [] then s == first
        else |s.requests| > |first.requests| && s.requests[|first.requests|] == first.next)
  }

  lemma LoopBegins(model: nat -> Reply, first: Stand)
    ensures Loops(model, first, first, [], [])
  {
    assert first.history + [] == first.history;
  }

  /** A round more. */
  lemma LoopGoesOn(model: nat -> Reply, first: Stand, s: Stand, rounds: seq<Round>, ends: seq<nat>, t: Stand,
                   reply: Reply)
    requires Loops(model, first, s, rounds, ends) && Iterates(model, s, t, reply) && reply.Calls?
    ensures |t.requests| > 0 && Loops(model, first, t, rounds + [reply.round], ends + [|t.requests| - 1])
  {
    GoodSoFarAdds(first.next, s.next, s.requests, t.next, t.requests, |first.requests|);
    SnocRounds(first.history, rounds, reply.round);
    RepliesStay(model, rounds, ends, |first.requests|, |s.requests|, |t.requests| - 1);
    RepliesGrow(model, rounds, ends, |first.requests|, |t.requests| - 1, reply.round);
  }

  /** What the loop has done, and how it ended: with an answer, out of rounds, or with a
      failure. */
  ghost predicate Looped(model: nat -> Reply, first: Stand, history: seq<Message>, requests: seq<seq<Message>>,
                         rounds: seq<Round>, ends: seq<nat>, max: nat, final: string, ok: bool)
  {
    && first.requests <= requests && AllProper(rounds) && |rounds| <= max
    && (GoodRequest(first.next) ==> GoodFrom(requests, |first.requests|))
    && (Fits(model) ==> history == first.history + RoundMessages(rounds))
    && AreReplies(model, rounds, ends, |first.requests|, |requests|)
    && (max > 0 ==> |requests| > |first.requests| && requests[|first.requests|] == first.next)
    && (ok && |rounds| < max ==> |requests| > 0 && model(|requests| - 1) == Answer(final))
    && (ok && |rounds| == max ==> final == "")
    && (!ok ==> |rounds| < max && |requests| > 0 && model(|requests| - 1).Failed())
  }

  lemma LoopIsOver(model: nat -> Reply, first: Stand, s: Stand, rounds: seq<Round>, ends: seq<nat>, max: nat)
    requires Loops(model, first, s, rounds, ends) && |rounds| == max
    ensures Looped(model, first, s.history, s.requests, rounds, ends, max, "", true)
  {
  }

  lemma LoopEnds(model: nat -> Reply, first: Stand, s: Stand, rounds: seq<Round>, ends: seq<nat>, t: Stand,
                 reply: Reply, max: nat)
    requires Loops(model, first, s, rounds, ends) && Iterates(model, s, t, reply) && !reply.Calls? && |rounds| < max
    ensures Looped(model, first, t.history, t.requests, rounds, ends, max,
                   if reply.Answer? then reply.content else "", reply.Answer?)
  {
    GoodSoFarAdds(first.next, s.next, s.requests, t.next, t.requests, |first.requests|);
    RepliesStay(model, rounds, ends, |first.requests|, |s.requests|, |t.requests|);
    if Fits(model) {
      assert s.history + [] == s.history;
    }
  }

  class AgentSession {
    var history: seq<Message>
    var requests: seq<seq<Message>>      // every request sent to the model
    const maxIterations: nat
    const model: nat -> Reply            // the reply to the n-th request

    ghost predicate Valid()
      reads this
    {
      Session(history) && forall n :: model(n).Proper()
    }

    ghost predicate Roomy() {
      Fits(model)
    }

    constructor (model: nat -> Reply, maxIterations: nat)
      requires forall n :: model(n).Proper()
      ensures Valid() && history == [] && requests == []
      ensures this.model == model && this.maxIterations == maxIterations
    {
      this.model, this.maxIterations := model, maxIterations;
      history, requests := [], [];
    }

    method BuildMessages(useHistory: bool, current: string) returns (messages: seq<Message>)
      ensures messages == Wire(if useHistory then history else [], current)
      ensures IsRequest(messages, if useHistory then history else [], current)
    {
      WireIs(if useHistory then history else [], current);
      var past := SanitizeHistoryForProvider(if useHistory then history else []);
      messages := [SystemMessage()] + past;
      if TrimSpace(current) != "" {
        messages := messages + [Message(User, current, [], "")];
      }
    }

    method ForceCompression()
      modifies this`history
      ensures history == Compressed(old(history)) && IsCompression(old(history), history)
      ensures old(Valid()) ==> Valid()
    {
      CompressedIs(history);
      if Session(history) {
        CompressedIsSession(history);
      }
      if |history| <= 4 {
        return;
      }
      var conversation := history[1..|history| - 1];
      var mid := |conversation| / 2;
      var first := history[0].(content := history[0].content + NOTE);
      var kept := [first] + conversation[mid..] + [history[|history| - 1]];
      KeptIsCompressed(history);
      history := kept;
    }

    /** The request after a context error: the stored session, compressed. */
    method CompressAndRebuild() returns (messages: seq<Message>)
      modifies this`history
      ensures history == Compressed(old(history)) && messages == Wire(history, "")
    {
      ForceCompression();
      messages := BuildMessages(true, "");
    }

    method Ask(request: seq<Message>) returns (reply: Reply)
      modifies this`requests
      ensures requests == old(requests) + [request] && reply == model(|old(requests)|)
    {
      requests := requests + [request];
      reply := model(|requests| - 1);
    }

    /** One model call with its retries. Timeouts are retried as they are, context errors
        after compressing the stored session. */
    method CallModel(messages: seq<Message>)
      returns (reply: Reply, sent: seq<Message>, ghost attempts: seq<Attempt>)
      modifies this
      ensures WholeCall(model, |old(requests)|, attempts) && attempts[0] == Attempt(old(history), messages)
      ensures Sent(old(requests), requests, attempts) && reply == model(|requests| - 1)
      ensures attempts[|attempts| - 1] == Attempt(history, sent)
    {
      ghost var before, first := requests, Attempt(history, messages);
      sent, attempts := messages, [];
      for retry := 0 to RETRIES + 1
        invariant |attempts| == retry && Sent(before, requests, attempts)
        invariant var all := attempts + [Attempt(history, sent)];
                  all[0] == first && Chain(model, |before|, all)
      {
        ghost var now := Attempt(history, sent);
        SentGrows(before, requests, attempts, now);
        attempts := attempts + [now];
        reply := Ask(sent);
        if !reply.Failed() || reply.OtherError? || retry == RETRIES {
          return;
        }
        if reply.ContextError? {
          sent := CompressAndRebuild();
        }
        ChainGrows(model, |before|, attempts, Attempt(history, sent));
      }
    }

    ghost function Now(next: seq<Message>): Stand
      reads this
    {
      Stand(history, next, requests)
    }

    /** One iteration: a model call and, if it asks for tools, the round that follows. */
    method OneIteration(messages: seq<Message>) returns (reply: Reply, extended: seq<Message>)
      requires Valid() && EndsOpen(history)
      modifies this
      ensures Valid() && EndsOpen(history)
      ensures Iterates(model, old(Now(messages)), Now(extended), reply)
    {
      ghost var s := Now(messages);
      ghost var attempts;
      reply, extended, attempts := CallModel(messages);
      CallIterates(model, s, requests, attempts, reply);
      ReplyFacts(history, extended, reply);
      if reply.Calls? {
        extended := RunTools(extended, reply.round);
      } else {
        assert history + [] == history && extended + [] == extended;
      }
    }

    /** The LLM/tool loop. If the first request is one a provider takes, so are all others. The
        answer, the failure and the rounds are the model's own replies. */
    method RunLLMIteration(initial: seq<Message>)
      returns (final: string, ok: bool, ghost rounds: seq<Round>, ghost ends: seq<nat>)
      requires Valid() && EndsOpen(history)
      modifies this
      ensures Valid() && EndsOpen(history)
      ensures Looped(model, old(Now(initial)), history, requests, rounds, ends, maxIterations, final, ok)
    {
      var messages, iteration := initial, 0;
      rounds, ends := [], [];
      ghost var first := Now(initial);
      LoopBegins(model, first);
      while iteration < maxIterations
        invariant iteration <= maxIterations && |rounds| == iteration
        invariant Valid() && EndsOpen(history)
        invariant Loops(model, first, Now(messages), rounds, ends)
      {
        ghost var s := Now(messages);
        var reply;
        reply, messages := OneIteration(messages);
        ghost var t := Now(messages);
        if reply.Failed() {
          LoopEnds(model, first, s, rounds, ends, t, reply, maxIterations);
          return "", false, rounds, ends;
        }
        if reply.Answer? {
          LoopEnds(model, first, s, rounds, ends, t, reply, maxIterations);
          return reply.content, true, rounds, ends;
        }
        LoopGoesOn(model, first, s, rounds, ends, t, reply);
        iteration := iteration + 1;
        rounds, ends := rounds + [reply.round], ends + [|requests| - 1];
      }
      LoopIsOver(model, first, Now(messages), rounds, ends, maxIterations);
      return "", true, rounds, ends;
    }

    /** Stores the assistant message and one result per call, and extends the request. */
    method RunTools(messages: seq<Message>, r: Round) returns (extended: seq<Message>)
      requires r.Proper()
      modifies this`history
      ensures history == old(history) + r.Messages()
      ensures extended == messages + r.Messages()
      ensures IsRound(r, history[|old(history)|..]) && IsRound(r, extended[|messages|..])
    {
      extended, history := messages + [r.Request()], history + [r.Request()];
      for i := 0 to |r.calls|
        invariant history == old(history) + ([r.Request()] + r.Results(i))
        invariant extended == messages + ([r.Request()] + r.Results(i))
      {
        var result := Message(Tool, r.results[i], [], r.calls[i]);
        extended, history := extended + [result], history + [result];
      }
      RoundIs(r);
    }

    /** Stores one message at the end of the session. */
    method AddMessage(m: Message)
      requires Valid() && (m.role == User || (m.role == Assistant && m.calls == [] && history != []))
      modifies this`history
      ensures Valid() && history == old(history) + [m]
    {
      if m.role == User {
        StoredUser(history, m);
      } else {
        StoredAnswer(history, m);
      }
      history := history + [m];
    }

    /** One turn of a conversation. The stored session keeps its shape; every request is good
        when the message is not blank, or when the sanitized past ends in a user or tool
        message; and without context errors the session grows by exactly the turn. The first
        request carries the user's message behind the past, and what is returned and stored is
        the model's answer, or the default one in place of none. */
    method RunAgentLoop(user: string, useHistory: bool, defaultResponse: string)
      returns (final: string, ok: bool, ghost rounds: seq<Round>, ghost ends: seq<nat>)
      requires Valid()
      modifies this
      ensures Valid()
      ensures var past := if useHistory then old(history) else [];
              TrimSpace(user) != "" || EndsOpen(Sanitize(past)) ==> GoodFrom(requests, |old(requests)|)
      ensures AllProper(rounds)
      ensures Roomy() ==>
        history == old(history) + Turn(user, rounds, if ok then [Message(Assistant, final, [], "")] else [])
      ensures maxIterations > 0 ==>
        && |requests| > |old(requests)|
        && IsRequest(requests[|old(requests)|], if useHistory then old(history) else [], user)
      ensures |rounds| <= maxIterations && AreReplies(model, rounds, ends, |old(requests)|, |requests|)
      ensures ok ==>
        && history != [] && history[|history| - 1] == Message(Assistant, final, [], "")
        && (|rounds| == maxIterations ==> final == defaultResponse)
        && (|rounds| < maxIterations ==>
              && |requests| > 0 && model(|requests| - 1).Answer?
              && final == if model(|requests| - 1).content == "" then defaultResponse
                          else model(|requests| - 1).content)
      ensures !ok ==> final == "" && |rounds| < maxIterations && |requests| > 0 && model(|requests| - 1).Failed()
    {
      var messages := BuildMessages(useHistory, user);
      FirstRequest(if useHistory then history else [], user);
      AddMessage(Message(User, user, [], ""));
      final, ok, rounds, ends := RunLLMIteration(messages);
      ghost var answer := Message(Assistant, if final == "" then defaultResponse else final, [], "");
      TurnAppends(old(history), user, rounds, [answer]);
      if !ok {
        return "", false, rounds, ends;
      }
      if final == "" {
        final := defaultResponse;
      }
      AddMessage(Message(Assistant, final, [], ""));
    }
  }

  lemma TurnAppends(h: seq<Message>, user: string, rounds: seq<Round>, answer: seq<Message>)
    requires AllProper(rounds)
    ensures h + [Message(User, user, [], "")] + RoundMessages(rounds) == h + Turn(user, rounds, [])
    ensures h + [Message(User, user, [], "")] + RoundMessages(rounds) + answer == h + Turn(user, rounds, answer)
  {
  }

  lemma FirstRequest(h: seq<Message>, user: string)
    ensures GoodRequest(Wire(h, user)) <==> TrimSpace(user) != "" || EndsOpen(Sanitize(h))
  {
    var u := Message(User, user, [], "");
    SanitizedIsValid(h);
    AcceptsIffValid(Sanitize(h), u);
    assert Wire(h, user)[1..] == Sanitize(h) + (if TrimSpace(user) != "" then [u] else []);
    assert Sanitize(h) + [] == Sanitize(h);
  }

  lemma StoredUser(h: seq<Message>, u: Message)
    requires Session(h) && u.role == User
    ensures Session(h + [u])
  {
    if h == [] {
      UserAloneIsValid(u);
      assert [u] + (h + [u])[1..] == [u];
      assert Shaped(h + [u], 1);
    } else {
      var k: nat :| Shaped(h, k);
      AcceptsIffValid([h[0]] + h[k..], u);
      AppendKeepsShape(h, k, [u]);
    }
  }

  lemma StoredAnswer(h: seq<Message>, m: Message)
    requires Session(h) && h != [] && m.role == Assistant && m.calls == []
    ensures Session(h + [m])
  {
    var k: nat :| Shaped(h, k);
    AcceptsIffValid([h[0]] + h[k..], m);
    AppendKeepsShape(h, k, [m]);
  }

  lemma GoodWithRound(messages: seq<Message>, r: Round)
    requires GoodRequest(messages) && r.Proper()
    ensures GoodRequest(messages + r.Messages())
  {
    RoundKeepsValidIff(messages[1..], r);
    assert (messages + r.Messages())[1..] == messages[1..] + r.Messages();
  }

  lemma SnocRounds(h: seq<Message>, rounds: seq<Round>, r: Round)
    requires AllProper(rounds) && r.Proper()
    ensures AllProper(rounds + [r])
    ensures h + RoundMessages(rounds + [r]) == (h + RoundMessages(rounds)) + r.Messages()
  {
    assert (rounds + [r])[..|rounds|] == rounds;
    Assoc(h, RoundMessages(rounds), r.Messages());
  }

  /** After compression the rebuilt request is good again. */
  lemma CompressedRequest(h: seq<Message>)
    requires Session(h) && EndsOpen(h)
    ensures GoodRequest(Wire(h, ""))
  {
    var k: nat :| Shaped(h, k);
    SanitizedSession(h, k);
    SanitizedIsValid(h);
    assert Wire(h, "")[1..] == Sanitize(h);
  }

  lemma StoredRound(h: seq<Message>, r: Round)
    requires Session(h) && EndsOpen(h) && r.Proper()
    ensures Session(h + r.Messages()) && EndsOpen(h + r.Messages())
  {
    var k: nat :| Shaped(h, k);
    RoundKeepsValidIff([h[0]] + h[k..], r);
    AppendKeepsShape(h, k, r.Messages());
  }
}

/** The transcript sanitizer of pkg/agent/context.go: what it keeps and why. */
module Transcript {
  import opened Sequences

  datatype Role = System | User | Assistant | Tool | Other(name: string)

  /** `calls` are the identifiers of the tool calls an assistant message asks for. */
  datatype Message = Message(role: Role, content: string, calls: seq<string>, callId: string)

  predicate Opens(m: Message) {
    m.role == Assistant && |m.calls| > 0
  }

  predicate CallsMayFollow(m: Message) {
    m.role == User || m.role == Tool
  }

  // ----------------------------------------------------------------- the property

  /** The nearest earlier message that is not a tool result asked for tools. */
  ghost predicate Answers(w: seq<Message>, i: nat)
    requires i <= |w|
  {
    exists k :: 0 <= k < i && Opens(w[k]) && forall j :: k < j < i ==> w[j].role == Tool
  }

  /** What providers accept: no system message, every tool result answers an assistant
      message with calls, and every such message directly follows a user or tool message. */
  ghost predicate WireValid(w: seq<Message>) {
    && (forall i :: 0 <= i < |w| ==> w[i].role != System)
    && (forall i :: 0 <= i < |w| && w[i].role == Tool ==> Answers(w, i))
    && (forall i :: 0 <= i < |w| && Opens(w[i]) ==> i > 0 && CallsMayFollow(w[i - 1]))
  }

  // ---------------------------------------------------------------- the sanitizer

  /** The backward walk: skip tool messages, then look for an assistant with calls. */
  function FoundAssistant(out: seq<Message>): bool {
    if out == [] then false
    else if out[|out| - 1].role == Tool then FoundAssistant(out[..|out| - 1])
    else Opens(out[|out| - 1])
  }

  predicate Accepts(out: seq<Message>, m: Message) {
    match m.role
    case System => false
    case Tool => FoundAssistant(out)
    case Assistant => |m.calls| == 0 || (|out| > 0 && CallsMayFollow(out[|out| - 1]))
    case _ => true
  }

  function Sanitize(history: seq<Message>): seq<Message> {
    if history == [] then []
    else
      var out, m := Sanitize(history[..|history| - 1]), history[|history| - 1];
      if Accepts(out, m) then out + [m] else out
  }

  method SanitizeHistoryForProvider(history: seq<Message>) returns (sanitized: seq<Message>)
    ensures sanitized == Sanitize(history)
  {
    if |history| == 0 {
      return history;
    }
    sanitized := [];
    for n := 0 to |history|
      invariant sanitized == Sanitize(history[..n])
    {
      assert history[..n + 1][..n] == history[..n];
      var msg := history[n];
      match msg.role {
        case System =>
          continue;
        case Tool =>
          if |sanitized| == 0 {
            continue;
          }
          var foundAssistant := false;
          var i := |sanitized| - 1;
          assert sanitized[..i + 1] == sanitized;
          while i >= 0
            invariant -1 <= i < |sanitized| && !foundAssistant
            invariant FoundAssistant(sanitized) == FoundAssistant(sanitized[..i + 1])
          {
            assert sanitized[..i + 1][..i] == sanitized[..i];
            if sanitized[i].role == Tool {
              i := i - 1;
              continue;
            }
            if sanitized[i].role == Assistant && |sanitized[i].calls| > 0 {
              foundAssistant := true;
            }
            break;
          }
          if !foundAssistant {
            continue;
          }
          sanitized := sanitized + [msg];
        case Assistant =>
          if |msg.calls| > 0 {
            if |sanitized| == 0 {
              continue;
            }
            var prev := sanitized[|sanitized| - 1];
            if prev.role != User && prev.role != Tool {
              continue;
            }
          }
          sanitized := sanitized + [msg];
        case Other(_) =>
          sanitized := sanitized + [msg];
        case User =>
          sanitized := sanitized + [msg];
      }
    }
    assert history[..|history|] == history;
  }

  // ------------------------------------------------------------------- the theory

  lemma {:induction false} WalkFindsAnswer(out: seq<Message>)
    ensures FoundAssistant(out) <==> Answers(out, |out|)
    decreases |out|
  {
    if out != [] {
      var n := |out| - 1;
      if out[n].role == Tool {
        var front := out[..n];
        WalkFindsAnswer(front);
        if Answers(front, n) {
          var k :| 0 <= k < n && Opens(front[k]) && forall j :: k < j < n ==> front[j].role == Tool;
          assert Opens(out[k]) && forall j :: k < j < n ==> out[j] == front[j];
        }
        if Answers(out, n + 1) {
          var k :| 0 <= k < n + 1 && Opens(out[k]) && forall j :: k < j < n + 1 ==> out[j].role == Tool;
          assert Opens(front[k]) && forall j :: k < j < n ==> front[j] == out[j];
        }
      }
    }
  }

  lemma AnswersPrefix(w: seq<Message>, v: seq<Message>, i: nat)
    requires i <= |w| && i <= |v| && w[..i] == v[..i]
    ensures Answers(w, i) <==> Answers(v, i)
  {
    assert forall j :: 0 <= j < i ==> w[j] == w[..i][j] == v[j];
  }

  /** A message is accepted exactly when appending it keeps the transcript valid: the
      sanitizer never drops a message that could stay. */
  lemma AcceptsIffValid(out: seq<Message>, m: Message)
    ensures WireValid(out + [m]) <==> WireValid(out) && Accepts(out, m)
  {
    var w, n := out + [m], |out|;
    WalkFindsAnswer(out);
    forall i: nat | i <= n ensures Answers(w, i) <==> Answers(out, i) {
      assert w[..i] == out[..i];
      AnswersPrefix(w, out, i);
    }
    assert forall i :: 0 <= i < n ==> w[i] == out[i];
    assert w[n] == m;
  }

  lemma {:induction false} SanitizedIsValid(history: seq<Message>)
    ensures WireValid(Sanitize(history))
    decreases |history|
  {
    if history != [] {
      var front, m := history[..|history| - 1], history[|history| - 1];
      SanitizedIsValid(front);
      AcceptsIffValid(Sanitize(front), m);
    }
  }

  lemma {:induction false} SanitizedIsSubsequence(history: seq<Message>)
    ensures Subsequence(Sanitize(history), history)
    decreases |history|
  {
    if history != [] {
      var out := Sanitize(history[..|history| - 1]);
      SanitizedIsSubsequence(history[..|history| - 1]);
      assert (out + [history[|history| - 1]])[..|out|] == out;
    }
  }

  lemma {:induction false} PrefixValid(w: seq<Message>, i: nat)
    requires WireValid(w) && i <= |w|
    ensures WireValid(w[..i])
    decreases |w|
  {
    if i == |w| {
      assert w[..i] == w;
    } else {
      var front := w[..|w| - 1];
      assert w == front + [w[|w| - 1]];
      AcceptsIffValid(front, w[|w| - 1]);
      PrefixValid(front, i);
      assert front[..i] == w[..i];
    }
  }

  /** After a part that sanitizes to `q`, whatever is valid behind `q` is kept whole. */
  lemma {:induction false} KeepsValidTail(p: seq<Message>, q: seq<Message>, rest: seq<Message>)
    requires Sanitize(p) == q && WireValid(q + rest)
    ensures Sanitize(p + rest) == q + rest
    decreases |rest|
  {
    if rest == [] {
      assert p + rest == p && q + rest == q;
    } else {
      var front, m := rest[..|rest| - 1], rest[|rest| - 1];
      assert q + rest == (q + front) + [m] && p + rest == (p + front) + [m];
      AcceptsIffValid(q + front, m);
      KeepsValidTail(p, q, front);
      assert (p + rest)[..|p + rest| - 1] == p + front;
    }
  }

  /** The fixed points are exactly the valid transcripts. */
  lemma FixedIffValid(history: seq<Message>)
    ensures Sanitize(history) == history <==> WireValid(history)
  {
    SanitizedIsValid(history);
    if WireValid(history) {
      assert [] + history == history;
      KeepsValidTail([], [], history);
    }
  }

  lemma Idempotent(history: seq<Message>)
    ensures Sanitize(Sanitize(history)) == Sanitize(history)
  {
    SanitizedIsValid(history);
    FixedIffValid(Sanitize(history));
  }

  // ----------------------------------------------------------- one bit is enough

  /** The sanitizer with a bit instead of the walk: whether a tool result may come now. */
  function WithBit(history: seq<Message>): (seq<Message>, bool) {
    if history == [] then ([], false)
    else
      var (out, open) := WithBit(history[..|history| - 1]);
      var m := history[|history| - 1];
      match m.role
      case System => (out, open)
      case Tool => (if open then out + [m] else out, open)
      case Assistant =>
        if |m.calls| == 0 then (out + [m], false)
        else if |out| > 0 && CallsMayFollow(out[|out| - 1]) then (out + [m], true)
        else (out, open)
      case _ => (out + [m], false)
  }

  /** The backward walk refines the one-bit automaton. */
  lemma {:induction false} WalkRefinesBit(history: seq<Message>)
    ensures WithBit(history) == (Sanitize(history), FoundAssistant(Sanitize(history)))
    decreases |history|
  {
    if history != [] {
      var front, m := history[..|history| - 1], history[|history| - 1];
      WalkRefinesBit(front);
      var out := Sanitize(front);
      assert (out + [m])[..|out|] == out;
    }
  }

  // ---------------------------------------------------------------- appending

  ghost predicate EndsOpen(w: seq<Message>) {
    |w| > 0 && CallsMayFollow(w[|w| - 1])
  }

  /** An assistant message with calls and one result per call. */
  datatype Round = Round(content: string, calls: seq<string>, results: seq<string>) {
    predicate Proper() { |calls| > 0 && |results| == |calls| }

    function Request(): Message { Message(Assistant, content, calls, "") }

    function Results(n: nat): (s: seq<Message>)
      requires Proper() && n <= |calls|
      ensures |s| == n && forall i :: 0 <= i < n ==> s[i].role == Tool
    {
      if n == 0 then [] else Results(n - 1) + [Message(Tool, results[n - 1], [], calls[n - 1])]
    }

    function Messages(): (s: seq<Message>)
      requires Proper()
      ensures |s| == 1 + |calls|
    {
      [Request()] + Results(|calls|)
    }
  }

  lemma {:induction false} ResultsKeepValid(w: seq<Message>, r: Round, n: nat)
    requires r.Proper() && n <= |r.calls| && WireValid(w + [r.Request()])
    ensures WireValid(w + [r.Request()] + r.Results(n)) && FoundAssistant(w + [r.Request()] + r.Results(n))
    decreases n
  {
    var v := w + [r.Request()];
    if n == 0 {
      assert v + r.Results(0) == v;
    } else {
      ResultsKeepValid(w, r, n - 1);
      var front := v + r.Results(n - 1);
      var m := Message(Tool, r.results[n - 1], [], r.calls[n - 1]);
      assert v + r.Results(n) == front + [m];
      AcceptsIffValid(front, m);
      assert (front + [m])[..|front|] == front;
    }
  }

  /** Appending a whole round keeps a transcript valid exactly when it ends in a user or
      tool message; it then ends in a tool message again. */
  lemma RoundKeepsValidIff(w: seq<Message>, r: Round)
    requires WireValid(w) && r.Proper()
    ensures WireValid(w + r.Messages()) <==> EndsOpen(w)
    ensures EndsOpen(w + r.Messages())
  {
    var v := w + [r.Request()];
    AcceptsIffValid(w, r.Request());
    assert w + r.Messages() == v + r.Results(|r.calls|);
    assert (w + r.Messages())[..|w| + 1] == v;
    if EndsOpen(w) {
      ResultsKeepValid(w, r, |r.calls|);
    }
    if WireValid(w + r.Messages()) {
      PrefixValid(w + r.Messages(), |w| + 1);
    }
  }
}

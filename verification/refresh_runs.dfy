/** Every interleaving of any number of refreshing callers: each takes the mutex of its key,
    re-reads the vault, calls the provider and stores the answer, one step at a time, while
    users connect, revoke and delete credentials and the clock moves. */
module RefreshRuns {
  import opened Refresh
  import opened Wrappers
  import Iteration

  /** Where one caller is in `doRefresh`. From Locked to Done it holds the mutex. */
  datatype Phase =
    | Idle
    | Waiting(who: Who)
    | Locked(who: Who)
    | Ready(who: Who, current: Credential)
    | Calling(who: Who, current: Credential)
    | Answered(who: Who, spent: string, updated: Credential, answer: TokenResponse)
    | Done(who: Who)

  /** What was done to the vault, other than revoking. */
  datatype Write =
    | Connected(who: Who, credential: Credential)
    | Stored(who: Who, answer: TokenResponse)
    | Removed(who: Who)

  datatype Entry = Presented(who: Who, token: string) | Succeeded(who: Who, token: string)

  /** `issued` maps every refresh token ever handed out to the credential it was for; `log`
      is what the providers saw; `excused` the tokens that may be presented after a success:
      the answer carried no refresh token, or its storing failed, or the token was handed out
      again; `writes` what was written to the vault. */
  datatype Sys = Sys(vault: Vault, clock: int, phase: map<nat, Phase>, locks: map<string, nat>,
                     issued: map<string, Who>, spent: set<string>, excused: set<string>, log: seq<Entry>,
                     writes: seq<Write>)

  datatype Event =
    | Begin(caller: nat, who: Who)
    | Acquire(caller: nat)
    | Reread(caller: nat)
    | ReadFails(caller: nat)
    | Present(caller: nat)
    | Refuse(caller: nat)
    | Answer(caller: nat, response: TokenResponse)
    | StoreOk(caller: nat)
    | StoreFails(caller: nat)
    | Release(caller: nat)
    | Connect(who: Who, credential: Credential)
    | Revoke(who: Who, status: string)
    | Delete(who: Who)
    | Clock(now: int)

  function PhaseOf(s: Sys, c: nat): Phase {
    if c in s.phase then s.phase[c] else Idle
  }

  /** A refresh token nobody has seen before, or none. */
  predicate IsNew(s: Sys, token: string) {
    token == "" || token !in s.issued
  }

  /** What a provider may hand out for a credential: no token, a new one, or any that was
      handed out for that credential before, such as the one just presented. */
  predicate Fits(s: Sys, who: Who, token: string) {
    IsNew(s, token) || s.issued[token] == who
  }

  predicate Possible(s: Sys, e: Event) {
    match e
    case Begin(c, _) => PhaseOf(s, c).Idle?
    case Acquire(c) => PhaseOf(s, c).Waiting? && Key(PhaseOf(s, c).who) !in s.locks
    case Reread(c) => PhaseOf(s, c).Locked?
    case ReadFails(c) => PhaseOf(s, c).Locked?
    case Present(c) => PhaseOf(s, c).Ready?
    case Refuse(c) => PhaseOf(s, c).Calling?
    case Answer(c, r) => PhaseOf(s, c).Calling? && Fits(s, PhaseOf(s, c).who, r.refresh)
    case StoreOk(c) => PhaseOf(s, c).Answered?
    case StoreFails(c) => PhaseOf(s, c).Answered?
    case Release(c) => PhaseOf(s, c).Done?
    case Connect(who, cred) => Fits(s, who, cred.refresh)
    case Revoke(who, _) => who in s.vault
    case Delete(_) => true
    case Clock(_) => true
  }

  function Issue(issued: map<string, Who>, token: string, who: Who): map<string, Who> {
    if token == "" then issued else issued[token := who]
  }

  /** A token handed out again is excused. */
  function Again(s: Sys, token: string): set<string> {
    if IsNew(s, token) then {} else {token}
  }

  function At(s: Sys, c: nat, p: Phase): Sys {
    s.(phase := s.phase[c := p])
  }

  function AfterReread(s: Sys, c: nat, who: Who): Sys {
    match Judge(s.vault, who, s.clock)
    case Call(stale) => At(s, c, Ready(who, stale))
    case _ => At(s, c, Done(who))
  }

  function AfterAnswer(s: Sys, c: nat, who: Who, current: Credential, r: TokenResponse): Sys {
    At(s, c, Answered(who, current.refresh, Applied(current, r), r)).(
      issued := Issue(s.issued, r.refresh, who),
      spent := s.spent + {current.refresh},
      excused := s.excused + (if r.refresh == "" then {current.refresh} else Again(s, r.refresh)),
      log := s.log + [Succeeded(who, current.refresh)])
  }

  function After(s: Sys, e: Event): Sys
    requires Possible(s, e)
  {
    match e
    case Begin(c, who) => At(s, c, Waiting(who))
    case Acquire(c) => var who := PhaseOf(s, c).who; At(s, c, Locked(who)).(locks := s.locks[Key(who) := c])
    case Reread(c) => AfterReread(s, c, PhaseOf(s, c).who)
    case ReadFails(c) => At(s, c, Done(PhaseOf(s, c).who))
    case Present(c) =>
      var p := PhaseOf(s, c);
      At(s, c, Calling(p.who, p.current)).(log := s.log + [Presented(p.who, p.current.refresh)])
    case Refuse(c) => At(s, c, Done(PhaseOf(s, c).who))
    case Answer(c, r) => AfterAnswer(s, c, PhaseOf(s, c).who, PhaseOf(s, c).current, r)
    case StoreOk(c) =>
      var p := PhaseOf(s, c);
      At(s, c, Done(p.who)).(vault := s.vault[p.who := p.updated], writes := s.writes + [Stored(p.who, p.answer)])
    case StoreFails(c) => var p := PhaseOf(s, c); At(s, c, Done(p.who)).(excused := s.excused + {p.spent})
    case Release(c) => At(s, c, Idle).(locks := s.locks - {Key(PhaseOf(s, c).who)})
    case Connect(who, cred) =>
      s.(vault := s.vault[who := cred], issued := Issue(s.issued, cred.refresh, who),
         excused := s.excused + Again(s, cred.refresh), writes := s.writes + [Connected(who, cred)])
    case Revoke(who, status) => s.(vault := s.vault[who := s.vault[who].(status := status)])
    case Delete(who) => s.(vault := s.vault - {who}, writes := s.writes + [Removed(who)])
    case Clock(now) => s.(clock := now)
  }

  ghost predicate Next(s: Sys, t: Sys) {
    exists e: Event :: Possible(s, e) && t == After(s, e)
  }

  ghost predicate Initial(s: Sys) {
    s.vault == map[] && s.phase == map[] && s.locks == map[] && s.issued == map[] && s.spent == {} &&
    s.excused == {} && s.log == [] && s.writes == []
  }

  // ------------------------------------------------------------------- invariants

  predicate Holds(p: Phase) {
    p.Locked? || p.Ready? || p.Calling? || p.Answered? || p.Done?
  }

  /** Whoever is past the mutex owns it. */
  ghost predicate LockInv(s: Sys) {
    forall c: nat :: Holds(PhaseOf(s, c)) ==> Key(PhaseOf(s, c).who) in s.locks && s.locks[Key(PhaseOf(s, c).who)] == c
  }

  /** A refresh token in use was issued, for the credential it is used for. */
  ghost predicate Owned(s: Sys, token: string, who: Who) {
    token != "" ==> token in s.issued && s.issued[token] == who
  }

  /** A token that may still be presented: one that succeeded before is excused. */
  ghost predicate Live(s: Sys, token: string) {
    token in s.spent ==> token in s.excused
  }

  /** The one moment a stored token is spent: its refresher is about to store the successor. */
  ghost predicate BeingReplaced(s: Sys, token: string) {
    exists c: nat :: PhaseOf(s, c).Answered? && PhaseOf(s, c).spent == token
  }

  ghost predicate VaultInv(s: Sys) {
    forall who <- s.vault ::
      Owned(s, s.vault[who].refresh, who) && (Live(s, s.vault[who].refresh) || BeingReplaced(s, s.vault[who].refresh))
  }

  ghost predicate PhaseInv(s: Sys, p: Phase) {
    match p
    case Ready(who, current) => current.refresh != "" && Owned(s, current.refresh, who) && Live(s, current.refresh)
    case Calling(who, current) => current.refresh != "" && Owned(s, current.refresh, who) && Live(s, current.refresh)
    case Answered(who, spent, updated, _) =>
      spent != "" && Owned(s, spent, who) && Owned(s, updated.refresh, who) && Live(s, updated.refresh)
    case _ => true
  }

  ghost predicate PhasesInv(s: Sys) {
    forall c: nat :: PhaseInv(s, PhaseOf(s, c))
  }

  ghost predicate LogInv(s: Sys) {
    && "" !in s.spent && s.spent <= s.issued.Keys
    && (forall e <- s.log :: e.Succeeded? ==> e.token in s.spent)
    && (forall i, j :: 0 <= i < j < |s.log| && s.log[i].Succeeded? && s.log[j].Presented? ==>
          s.log[i].token == s.log[j].token ==> s.log[j].token in s.excused)
  }

  ghost predicate Inv(s: Sys) {
    LockInv(s) && VaultInv(s) && PhasesInv(s) && LogInv(s)
  }

  // ------------------------------------------------------------------ preservation

  lemma LocksKept(s: Sys, e: Event)
    requires LockInv(s) && Possible(s, e)
    ensures LockInv(After(s, e))
  {
    var t := After(s, e);
    forall c: nat | Holds(PhaseOf(t, c))
      ensures Key(PhaseOf(t, c).who) in t.locks && t.locks[Key(PhaseOf(t, c).who)] == c
    {
      assert (e.Acquire? && e.caller == c) || (Holds(PhaseOf(s, c)) && PhaseOf(s, c).who == PhaseOf(t, c).who);
    }
  }

  /** Two holders of one key are one caller. */
  lemma OneHolder(s: Sys, c: nat, d: nat)
    requires LockInv(s) && Holds(PhaseOf(s, c)) && Holds(PhaseOf(s, d))
    ensures Key(PhaseOf(s, c).who) == Key(PhaseOf(s, d).who) ==> c == d
  {
  }

  /** A stored token that is re-read under the mutex is live: nobody else is replacing it. */
  lemma RereadIsLive(s: Sys, c: nat)
    requires Inv(s) && PhaseOf(s, c).Locked? && PhaseOf(s, c).who in s.vault
    requires s.vault[PhaseOf(s, c).who].refresh != ""
    ensures Live(s, s.vault[PhaseOf(s, c).who].refresh)
  {
    var token := s.vault[PhaseOf(s, c).who].refresh;
    forall d: nat | PhaseOf(s, d).Answered? ensures PhaseOf(s, d).spent != token {
      assert PhaseInv(s, PhaseOf(s, d));
      OneHolder(s, c, d);
    }
  }

  lemma PhaseKeptByAnswer(s: Sys, e: Event, c: nat)
    requires Inv(s) && Possible(s, e) && e.Answer?
    ensures PhaseInv(After(s, e), PhaseOf(After(s, e), c))
  {
    assert PhaseInv(s, PhaseOf(s, c)) && PhaseInv(s, PhaseOf(s, e.caller));
    if Holds(PhaseOf(s, c)) {
      OneHolder(s, c, e.caller);
    }
  }

  lemma PhaseKept(s: Sys, e: Event, c: nat)
    requires Inv(s) && Possible(s, e)
    ensures PhaseInv(After(s, e), PhaseOf(After(s, e), c))
  {
    assert PhaseInv(s, PhaseOf(s, c));
    if e.Answer? {
      PhaseKeptByAnswer(s, e, c);
    } else if e.Reread? && e.caller == c && PhaseOf(After(s, e), c).Ready? {
      RereadIsLive(s, c);
    }
  }

  /** A live token that stays stored: only its own success changes that, and then its
      successor is on its way. */
  lemma LiveTokenStays(s: Sys, e: Event, token: string)
    requires Inv(s) && Possible(s, e) && Live(s, token)
    ensures Live(After(s, e), token) || BeingReplaced(After(s, e), token)
  {
    if e.Answer? {
      assert PhaseOf(After(s, e), e.caller).Answered?;
    }
  }

  /** A token being replaced stays so until the successor is stored or lost. */
  lemma ReplacedTokenStays(s: Sys, e: Event, d: nat)
    requires Possible(s, e) && PhaseOf(s, d).Answered?
    ensures PhaseOf(After(s, e), d) == PhaseOf(s, d) || (e.StoreOk? && e.caller == d)
         || (e.StoreFails? && Live(After(s, e), PhaseOf(s, d).spent))
  {
  }

  /** A stored token that no step replaces. */
  lemma StoredTokenStays(s: Sys, e: Event, who: Who)
    requires Inv(s) && Possible(s, e) && who in s.vault && who in After(s, e).vault
    requires After(s, e).vault[who].refresh == s.vault[who].refresh
    ensures Live(After(s, e), s.vault[who].refresh) || BeingReplaced(After(s, e), s.vault[who].refresh)
  {
    var token := s.vault[who].refresh;
    if Live(s, token) {
      LiveTokenStays(s, e, token);
    } else {
      var d: nat :| PhaseOf(s, d).Answered? && PhaseOf(s, d).spent == token;
      ReplacedTokenStays(s, e, d);
      assert PhaseInv(s, PhaseOf(s, d));
    }
  }

  lemma StoredTokenStaysOwned(s: Sys, e: Event, who: Who)
    requires Inv(s) && Possible(s, e) && who in s.vault
    ensures Owned(After(s, e), s.vault[who].refresh, who)
  {
  }

  /** A token that a step has just stored. */
  lemma StoredTokenIsLive(s: Sys, e: Event, who: Who)
    requires Inv(s) && Possible(s, e) && who in After(s, e).vault
    requires who !in s.vault || After(s, e).vault[who].refresh != s.vault[who].refresh
    ensures Owned(After(s, e), After(s, e).vault[who].refresh, who)
    ensures Live(After(s, e), After(s, e).vault[who].refresh)
  {
    if e.StoreOk? {
      assert PhaseInv(s, PhaseOf(s, e.caller));
    }
  }

  lemma VaultKept(s: Sys, e: Event)
    requires Inv(s) && Possible(s, e)
    ensures VaultInv(After(s, e))
  {
    var t := After(s, e);
    forall who | who in t.vault
      ensures Owned(t, t.vault[who].refresh, who)
      ensures Live(t, t.vault[who].refresh) || BeingReplaced(t, t.vault[who].refresh)
    {
      if who in s.vault && s.vault[who].refresh == t.vault[who].refresh {
        StoredTokenStays(s, e, who);
        StoredTokenStaysOwned(s, e, who);
      } else {
        StoredTokenIsLive(s, e, who);
      }
    }
  }

  lemma LogKept(s: Sys, e: Event)
    requires Inv(s) && Possible(s, e)
    ensures LogInv(After(s, e))
  {
    var t := After(s, e);
    if e.Present? || e.Answer? {
      assert PhaseInv(s, PhaseOf(s, e.caller));
    }
    assert |t.log| <= |s.log| + 1 && forall i :: 0 <= i < |s.log| ==> t.log[i] == s.log[i] && s.log[i] in s.log;
  }

  lemma EveryStateInv(run: seq<Sys>)
    requires Iteration.IsRun(Next, run) && Initial(run[0])
    ensures forall s <- run :: Inv(s)
  {
    forall s: Sys, t: Sys | Inv(s) && Next(s, t) ensures Inv(t) {
      var e :| Possible(s, e) && t == After(s, e);
      LocksKept(s, e);
      forall c: nat ensures PhaseInv(t, PhaseOf(t, c)) {
        PhaseKept(s, e, c);
      }
      VaultKept(s, e);
      LogKept(s, e);
    }
    Iteration.RunKeeps(Next, Inv, run);
  }

  // ------------------------------------------------------------------ the theorems

  /** However many callers there are, no two of them are calling the provider for one
      credential, nor for two credentials whose keys are the same string. */
  lemma OneCallPerCredential(run: seq<Sys>, s: Sys, c: nat, d: nat)
    requires Iteration.IsRun(Next, run) && Initial(run[0]) && s in run && c != d
    requires PhaseOf(s, c).Calling? && PhaseOf(s, d).Calling?
    ensures Key(PhaseOf(s, c).who) != Key(PhaseOf(s, d).who) && PhaseOf(s, c).who != PhaseOf(s, d).who
  {
    EveryStateInv(run);
    OneHolder(s, c, d);
  }

  /** A refresh token that succeeded is never presented again, unless its success left no
      stored successor. */
  lemma SpentTokensStaySpent(run: seq<Sys>, s: Sys, i: nat, j: nat)
    requires Iteration.IsRun(Next, run) && Initial(run[0]) && s in run
    requires i < j < |s.log| && s.log[i].Succeeded? && s.log[j].Presented? && s.log[i].token == s.log[j].token
    ensures s.log[j].token in s.excused
  {
    EveryStateInv(run);
  }

  /** The ways a success can leave no successor: the answer is not stored, it carries no
      refresh token, or it or a new connection hands out a token seen before. */
  datatype Lapse = StoreLost | NoSuccessor | SameAnswered | SameConnected

  /** The event commits no lapse but those in `lapses`. */
  predicate Allowed(lapses: set<Lapse>, s: Sys, e: Event) {
    && (e.StoreFails? ==> StoreLost in lapses)
    && (e.Answer? && e.response.refresh == "" ==> NoSuccessor in lapses)
    && (e.Answer? && !IsNew(s, e.response.refresh) ==> SameAnswered in lapses)
    && (e.Connect? && !IsNew(s, e.credential.refresh) ==> SameConnected in lapses)
  }

  ghost predicate NextWith(lapses: set<Lapse>, s: Sys, t: Sys) {
    exists e: Event :: Possible(s, e) && Allowed(lapses, s, e) && t == After(s, e)
  }

  ghost function StepWith(lapses: set<Lapse>): (Sys, Sys) -> bool {
    (s, t) => NextWith(lapses, s, t)
  }

  /** A run with few lapses is a run. */
  lemma RunWithIsRun(lapses: set<Lapse>, run: seq<Sys>)
    requires Iteration.IsRun(StepWith(lapses), run)
    ensures Iteration.IsRun(Next, run)
  {
    forall k | 0 <= k < |run| - 1 ensures Next(run[k], run[k + 1]) {
      assert StepWith(lapses)(run[k], run[k + 1]);
    }
  }

  /** In a world without lapses - every success brings a new refresh token, no token is handed
      out twice and every write to the vault succeeds - no refresh token is ever presented
      after it has succeeded. */
  lemma RotationIsSafe(run: seq<Sys>, s: Sys, i: nat, j: nat)
    requires Iteration.IsRun(StepWith({}), run) && Initial(run[0]) && s in run
    requires i < j < |s.log| && s.log[i].Succeeded? && s.log[j].Presented?
    ensures s.log[i].token != s.log[j].token
  {
    var inv := (s: Sys) => s.excused == {};
    Iteration.RunKeeps(StepWith({}), inv, run);
    RunWithIsRun({}, run);
    if s.log[i].token == s.log[j].token {
      SpentTokensStaySpent(run, s, i, j);
    }
  }

  // ------------------------------------------- ... and each of its hypotheses is needed

  function Play(lapses: set<Lapse>, s: Sys, events: seq<Event>): Option<Sys>
    decreases |events|
  {
    if events == [] then Some(s)
    else if Possible(s, events[0]) && Allowed(lapses, s, events[0]) then
      Play(lapses, After(s, events[0]), events[1..])
    else None
  }

  /** What is played is a run. */
  lemma {:induction false} PlayIsRun(lapses: set<Lapse>, s: Sys, events: seq<Event>) returns (run: seq<Sys>)
    requires Play(lapses, s, events).Some?
    ensures Iteration.IsRun(StepWith(lapses), run)
    ensures run[0] == s && run[|run| - 1] == Play(lapses, s, events).value
    decreases |events|
  {
    if events == [] {
      run := [s];
    } else {
      var rest := PlayIsRun(lapses, After(s, events[0]), events[1..]);
      run := [s] + rest;
      assert NextWith(lapses, s, rest[0]);
      assert forall i :: 1 <= i < |run| ==> run[i] == rest[i - 1];
    }
  }

  lemma {:induction false} PlayOn(lapses: set<Lapse>, s: Sys, a: seq<Event>, b: seq<Event>)
    requires Play(lapses, s, a).Some?
    ensures Play(lapses, s, a + b) == Play(lapses, Play(lapses, s, a).value, b)
    decreases |a|
  {
    if a == [] {
      assert a + b == b;
    } else {
      assert (a + b)[1..] == a[1..] + b;
      PlayOn(lapses, After(s, a[0]), a[1..], b);
    }
  }

  /** One event more at the front of what is played. */
  lemma PlayFirst(lapses: set<Lapse>, s: Sys, e: Event, rest: seq<Event>)
    requires Possible(s, e) && Allowed(lapses, s, e)
    ensures Play(lapses, s, [e] + rest) == Play(lapses, After(s, e), rest)
  {
    assert ([e] + rest)[1..] == rest;
  }

  /** A credential is connected and two callers begin to refresh it ... */
  function TwoBegin(who: Who, cred: Credential): seq<Event> {
    [Connect(who, cred)] + ([Begin(0, who)] + ([Begin(1, who)] + []))
  }

  /** ... and the first one gets its answer. */
  function FirstIsAnswered(r: TokenResponse): seq<Event> {
    [Acquire(0)] + ([Reread(0)] + ([Present(0)] + ([Answer(0, r)] + [])))
  }

  lemma TwoWait(lapses: set<Lapse>, s: Sys, who: Who, cred: Credential)
    requires Initial(s) && cred.refresh != ""
    ensures Play(lapses, s, TwoBegin(who, cred)) ==
            Some(s.(vault := map[who := cred], issued := map[cred.refresh := who], writes := [Connected(who, cred)],
                    phase := map[0 := Waiting(who), 1 := Waiting(who)]))
  {
    var s1 := After(s, Connect(who, cred));
    var s2 := After(s1, Begin(0, who));
    var s3 := After(s2, Begin(1, who));
    assert s3.phase == map[0 := Waiting(who), 1 := Waiting(who)];
    assert s3.writes == [Connected(who, cred)];
    assert s3.vault == map[who := cred] && s3.issued == map[cred.refresh := who] && s3.excused == s.excused;
    PlayFirst(lapses, s2, Begin(1, who), []);
    PlayFirst(lapses, s1, Begin(0, who), [Begin(1, who)] + []);
    PlayFirst(lapses, s, Connect(who, cred), [Begin(0, who)] + ([Begin(1, who)] + []));
  }

  /** What the provider answers commits no lapse but those allowed. */
  predicate AllowedAnswer(lapses: set<Lapse>, cred: Credential, r: TokenResponse) {
    && (r.refresh == "" ==> NoSuccessor in lapses)
    && (r.refresh == cred.refresh ==> SameAnswered in lapses)
  }

  /** The first caller holds the answer, and the second one waits for the mutex. */
  ghost predicate AtTheAnswer(t: Sys, who: Who, cred: Credential, r: TokenResponse, now: int) {
    && t.vault == map[who := cred] && t.clock == now && t.locks == map[Key(who) := 0]
    && cred.refresh in t.issued && t.issued[cred.refresh] == who
    && t.phase == map[0 := Answered(who, cred.refresh, Applied(cred, r), r), 1 := Waiting(who)]
    && t.log == [Presented(who, cred.refresh), Succeeded(who, cred.refresh)]
  }

  lemma FirstReachesAnswer(lapses: set<Lapse>, s: Sys, who: Who, cred: Credential, r: TokenResponse)
    requires s.vault == map[who := cred] && s.issued == map[cred.refresh := who] && s.locks == map[] && s.log == []
    requires s.phase == map[0 := Waiting(who), 1 := Waiting(who)]
    requires cred.refresh != "" && NeedsRefresh(cred, s.clock) && AllowedAnswer(lapses, cred, r)
    ensures var t := Play(lapses, s, FirstIsAnswered(r));
            t.Some? && AtTheAnswer(t.value, who, cred, r, s.clock)
  {
    var s1 := After(s, Acquire(0));
    var s2 := After(s1, Reread(0));
    var s3 := After(s2, Present(0));
    PlayFirst(lapses, s3, Answer(0, r), []);
    PlayFirst(lapses, s2, Present(0), [Answer(0, r)] + []);
    PlayFirst(lapses, s1, Reread(0), [Present(0)] + ([Answer(0, r)] + []));
    PlayFirst(lapses, s, Acquire(0), [Reread(0)] + ([Present(0)] + ([Answer(0, r)] + [])));
  }

  lemma AnswerIsReached(lapses: set<Lapse>, s: Sys, who: Who, cred: Credential, r: TokenResponse)
    requires Initial(s) && cred.refresh != "" && NeedsRefresh(cred, s.clock) && AllowedAnswer(lapses, cred, r)
    ensures var t := Play(lapses, s, TwoBegin(who, cred) + FirstIsAnswered(r));
            t.Some? && AtTheAnswer(t.value, who, cred, r, s.clock)
  {
    TwoWait(lapses, s, who, cred);
    FirstReachesAnswer(lapses, Play(lapses, s, TwoBegin(who, cred)).value, who, cred, r);
    PlayOn(lapses, s, TwoBegin(who, cred), FirstIsAnswered(r));
  }

  function SecondPresents(c: nat, d: nat): seq<Event> {
    [Release(c)] + ([Acquire(d)] + ([Reread(d)] + ([Present(d)] + [])))
  }

  /** When the stored credential is still about to expire, the next waiter presents its token. */
  lemma StaleTokenIsPresented(lapses: set<Lapse>, s: Sys, c: nat, d: nat)
    requires LockInv(s) && PhaseOf(s, c).Done? && PhaseOf(s, d) == Waiting(PhaseOf(s, c).who)
    requires var who := PhaseOf(s, c).who;
             who in s.vault && NeedsRefresh(s.vault[who], s.clock) && s.vault[who].refresh != ""
    ensures var t, who := Play(lapses, s, SecondPresents(c, d)), PhaseOf(s, c).who;
            t.Some? && t.value.log == s.log + [Presented(who, s.vault[who].refresh)]
  {
    var s1 := After(s, Release(c));
    var s2 := After(s1, Acquire(d));
    var s3 := After(s2, Reread(d));
    PlayFirst(lapses, s3, Present(d), []);
    PlayFirst(lapses, s2, Reread(d), [Present(d)] + []);
    PlayFirst(lapses, s1, Acquire(d), [Reread(d)] + ([Present(d)] + []));
    PlayFirst(lapses, s, Release(c), [Acquire(d)] + ([Reread(d)] + ([Present(d)] + [])));
  }

  /** When the successor of a spent token could not be stored, the next waiter presents the
      spent token again. */
  lemma LostSuccessorIsPresentedAgain(lapses: set<Lapse>, s: Sys, c: nat, d: nat)
    requires StoreLost in lapses
    requires LockInv(s) && PhaseOf(s, c).Answered? && PhaseOf(s, d) == Waiting(PhaseOf(s, c).who)
    requires var who := PhaseOf(s, c).who;
             who in s.vault && NeedsRefresh(s.vault[who], s.clock) && s.vault[who].refresh == PhaseOf(s, c).spent != ""
    ensures var t := Play(lapses, s, [StoreFails(c)] + SecondPresents(c, d));
            t.Some? && t.value.log == s.log + [Presented(PhaseOf(s, c).who, PhaseOf(s, c).spent)]
  {
    LocksKept(s, StoreFails(c));
    PlayFirst(lapses, s, StoreFails(c), SecondPresents(c, d));
    StaleTokenIsPresented(lapses, After(s, StoreFails(c)), c, d);
  }

  /** ... in a run from the start, whatever the provider answered. */
  lemma LostSuccessorHappens(s: Sys, who: Who, cred: Credential, r: TokenResponse) returns (run: seq<Sys>)
    requires Initial(s) && cred.refresh != "" && NeedsRefresh(cred, s.clock)
    ensures Iteration.IsRun(Next, run) && run[0] == s
    ensures run[|run| - 1].log ==
            [Presented(who, cred.refresh), Succeeded(who, cred.refresh), Presented(who, cred.refresh)]
  {
    var lapses := {StoreLost, NoSuccessor, SameAnswered};
    var events, rest := TwoBegin(who, cred) + FirstIsAnswered(r), [StoreFails(0)] + SecondPresents(0, 1);
    AnswerIsReached(lapses, s, who, cred, r);
    LostSuccessorIsPresentedAgain(lapses, Play(lapses, s, events).value, 0, 1);
    PlayOn(lapses, s, events, rest);
    run := PlayIsRun(lapses, s, events + rest);
    RunWithIsRun(lapses, run);
  }

  /** What the first caller's answer brings, and what happens to it, when one lapse is
      committed. */
  function AnswerOf(lapse: Lapse, cred: Credential): TokenResponse {
    var refresh := match lapse
      case NoSuccessor => ""
      case SameAnswered => cred.refresh
      case _ => cred.refresh + "'";
    TokenResponse("access", refresh, "", "", "", None)
  }

  function StoringOf(lapse: Lapse, who: Who, cred: Credential): seq<Event> {
    match lapse
    case StoreLost => [StoreFails(0)] + []
    case SameConnected => [StoreOk(0)] + ([Connect(who, cred)] + [])
    case _ => [StoreOk(0)] + []
  }

  /** The first caller is done, and the second will find the spent token, still to be
      refreshed. */
  ghost predicate TokenIsLeft(t: Sys, s: Sys, who: Who, cred: Credential) {
    && t.log == s.log && t.clock == s.clock && t.locks == s.locks
    && t.phase == map[0 := Done(who), 1 := Waiting(who)]
    && who in t.vault && t.vault[who].refresh == cred.refresh && t.vault[who].expiresAt == cred.expiresAt
  }

  lemma AnswerIsStored(lapse: Lapse, s: Sys, who: Who, cred: Credential)
    requires AtTheAnswer(s, who, cred, AnswerOf(lapse, cred), s.clock)
    ensures var t := After(s, StoreOk(0));
            && t == s.(vault := t.vault, writes := t.writes, phase := map[0 := Done(who), 1 := Waiting(who)])
            && t.vault == map[who := Applied(cred, AnswerOf(lapse, cred))]
  {
  }

  lemma AnswerIsLost(s: Sys, who: Who, cred: Credential)
    requires AtTheAnswer(s, who, cred, AnswerOf(StoreLost, cred), s.clock)
    ensures TokenIsLeft(After(s, StoreFails(0)), s, who, cred)
  {
  }

  lemma StoringLeavesTheToken(lapse: Lapse, s: Sys, who: Who, cred: Credential)
    requires AtTheAnswer(s, who, cred, AnswerOf(lapse, cred), s.clock) && cred.refresh != ""
    ensures var t := Play({lapse}, s, StoringOf(lapse, who, cred));
            t.Some? && TokenIsLeft(t.value, s, who, cred)
  {
    if lapse.StoreLost? {
      AnswerIsLost(s, who, cred);
      PlayFirst({lapse}, s, StoreFails(0), []);
    } else {
      AnswerIsStored(lapse, s, who, cred);
      if lapse.SameConnected? {
        PlayFirst({lapse}, s, StoreOk(0), [Connect(who, cred)] + []);
        PlayFirst({lapse}, After(s, StoreOk(0)), Connect(who, cred), []);
      } else {
        PlayFirst({lapse}, s, StoreOk(0), []);
      }
    }
  }

  /** Each hypothesis of `RotationIsSafe` is needed: a run that commits any one of the four
      lapses, and no other, presents a token that has succeeded. */
  lemma EachLapseIsUnsafe(lapse: Lapse, s: Sys, who: Who, cred: Credential) returns (run: seq<Sys>)
    requires Initial(s) && cred.refresh != "" && NeedsRefresh(cred, s.clock)
    ensures Iteration.IsRun(StepWith({lapse}), run) && run[0] == s
    ensures run[|run| - 1].log ==
            [Presented(who, cred.refresh), Succeeded(who, cred.refresh), Presented(who, cred.refresh)]
  {
    var r := AnswerOf(lapse, cred);
    var answered, stored := TwoBegin(who, cred) + FirstIsAnswered(r), StoringOf(lapse, who, cred);
    AnswerIsReached({lapse}, s, who, cred, r);
    var t := Play({lapse}, s, answered).value;
    StoringLeavesTheToken(lapse, t, who, cred);
    var u := Play({lapse}, t, stored).value;
    StaleTokenIsPresented({lapse}, u, 0, 1);
    PlayOn({lapse}, t, stored, SecondPresents(0, 1));
    PlayOn({lapse}, s, answered, stored + SecondPresents(0, 1));
    run := PlayIsRun({lapse}, s, answered + (stored + SecondPresents(0, 1)));
  }

  // ------------------------------------------------------------- waiters after a success

  predicate InCall(p: Phase) {
    p.Ready? || p.Calling? || p.Answered?
  }

  /** Nobody is past the re-read of a credential. */
  ghost predicate Quiet(s: Sys, who: Who) {
    forall c: nat :: InCall(PhaseOf(s, c)) ==> PhaseOf(s, c).who != who
  }

  predicate IsFresh(s: Sys, who: Who) {
    who in s.vault && !NeedsRefresh(s.vault[who], s.clock)
  }

  ghost predicate NoCallSince(log: seq<Entry>, s: Sys, who: Who) {
    && Quiet(s, who)
    && log <= s.log
    && forall k :: |log| <= k < |s.log| ==> s.log[k].who != who
  }

  ghost predicate NextFresh(who: Who, s: Sys, t: Sys) {
    IsFresh(s, who) && Next(s, t)
  }

  lemma FreshMeansNoCall(log: seq<Entry>, s: Sys, who: Who, e: Event)
    requires IsFresh(s, who) && Possible(s, e) && NoCallSince(log, s, who)
    ensures NoCallSince(log, After(s, e), who)
  {
    var t := After(s, e);
    if e.Present? || e.Answer? {
      assert InCall(PhaseOf(s, e.caller));
    }
    forall c: nat | InCall(PhaseOf(t, c)) ensures PhaseOf(t, c).who != who {
      assert (InCall(PhaseOf(s, c)) && PhaseOf(t, c).who == PhaseOf(s, c).who) || (e.Reread? && e.caller == c);
    }
  }

  /** From the moment a refresher has stored its answer, for as long as the stored credential
      is not about to expire, the provider hears nothing about it: every caller that was
      waiting, and every one that comes, returns without a call. */
  lemma WaitersMakeNoCall(past: seq<Sys>, run: seq<Sys>, who: Who, c: nat, s: Sys)
    requires Iteration.IsRun(Next, past) && Initial(past[0]) && run != [] && run[0] in past
    requires PhaseOf(run[0], c) == Done(who)
    requires Iteration.IsRun((s, t) => NextFresh(who, s, t), run) && s in run
    ensures run[0].log <= s.log && forall k :: |run[0].log| <= k < |s.log| ==> s.log[k].who != who
  {
    EveryStateInv(past);
    var first := run[0];
    forall d: nat | InCall(PhaseOf(first, d)) ensures PhaseOf(first, d).who != who {
      OneHolder(first, c, d);
    }
    var next, inv := (s, t) => NextFresh(who, s, t), (s: Sys) => NoCallSince(first.log, s, who);
    forall x: Sys, y: Sys | inv(x) && next(x, y) ensures inv(y) {
      var e :| Possible(x, e) && y == After(x, e);
      FreshMeansNoCall(first.log, x, who, e);
    }
    Iteration.RunKeeps(next, inv, run);
  }

  // ------------------------------------------------------------------ what is stored

  /** The last write that was about a credential. */
  function LastWrite(writes: seq<Write>, who: Who): Option<Write> {
    if writes == [] then None
    else if writes[|writes| - 1].who == who then Some(writes[|writes| - 1])
    else LastWrite(writes[..|writes| - 1], who)
  }

  lemma LastOfMore(writes: seq<Write>, w: Write, who: Who)
    ensures LastWrite(writes + [w], who) == if w.who == who then Some(w) else LastWrite(writes, who)
  {
    assert (writes + [w])[..|writes|] == writes;
  }

  /** A credential as a write left it, up to its status. */
  predicate Reflects(c: Credential, w: Write) {
    match w
    case Connected(_, cred) => c == cred.(status := c.status)
    case Stored(_, a) =>
      && c.access == a.access
      && (a.refresh != "" ==> c.refresh == a.refresh)
      && (a.expiresAt.Some? ==> c.expiresAt == a.expiresAt)
    case Removed(_) => false
  }

  ghost predicate ReflectsLast(s: Sys, who: Who) {
    if who in s.vault then
      LastWrite(s.writes, who).Some? && Reflects(s.vault[who], LastWrite(s.writes, who).value)
    else
      LastWrite(s.writes, who).None? || LastWrite(s.writes, who).value.Removed?
  }

  ghost predicate WritesInv(s: Sys) {
    && (forall who: Who :: ReflectsLast(s, who))
    && (forall c: nat :: PhaseOf(s, c).Answered? ==>
          Reflects(PhaseOf(s, c).updated, Stored(PhaseOf(s, c).who, PhaseOf(s, c).answer)))
  }

  lemma StepReflects(s: Sys, e: Event, who: Who)
    requires WritesInv(s) && Possible(s, e)
    ensures ReflectsLast(After(s, e), who)
  {
    assert ReflectsLast(s, who);
    match e
    case Connect(w, cred) => LastOfMore(s.writes, Connected(w, cred), who);
    case Delete(w) => LastOfMore(s.writes, Removed(w), who);
    case StoreOk(c) => LastOfMore(s.writes, Stored(PhaseOf(s, c).who, PhaseOf(s, c).answer), who);
    case _ =>
  }

  lemma StepKeepsWrites(s: Sys, e: Event)
    requires WritesInv(s) && Possible(s, e)
    ensures WritesInv(After(s, e))
  {
    var t := After(s, e);
    forall who: Who ensures ReflectsLast(t, who) {
      StepReflects(s, e, who);
    }
    forall c: nat | PhaseOf(t, c).Answered?
      ensures Reflects(PhaseOf(t, c).updated, Stored(PhaseOf(t, c).who, PhaseOf(t, c).answer))
    {
      assert PhaseOf(t, c) == PhaseOf(s, c) || (e.Answer? && e.caller == c);
    }
  }

  /** In every run and for every credential: it is stored if and only if the last thing written
      about it was no deletion, and then it carries the access token of the answer, or of the
      connection, that was written last, and the refresh token and expiry of that answer where
      it gave them. */
  lemma StoredIsLastWritten(run: seq<Sys>, s: Sys, who: Who)
    requires Iteration.IsRun(Next, run) && Initial(run[0]) && s in run
    ensures who in s.vault <==> LastWrite(s.writes, who).Some? && !LastWrite(s.writes, who).value.Removed?
    ensures who in s.vault ==>
      match LastWrite(s.writes, who).value
      case Connected(_, cred) => s.vault[who] == cred.(status := s.vault[who].status)
      case Stored(_, a) =>
        && s.vault[who].access == a.access
        && (a.refresh != "" ==> s.vault[who].refresh == a.refresh)
        && (a.expiresAt.Some? ==> s.vault[who].expiresAt == a.expiresAt)
      case Removed(_) => true
  {
    forall s: Sys, t: Sys | WritesInv(s) && Next(s, t) ensures WritesInv(t) {
      var e :| Possible(s, e) && t == After(s, e);
      StepKeepsWrites(s, e);
    }
    Iteration.RunKeeps(Next, WritesInv, run);
    assert ReflectsLast(s, who);
  }

  // ------------------------------------------------------- the steps and the whole call

  /** The next step of a caller that has waited, when the world answers as given. */
  function NextStep(c: nat, world: World, p: Phase): Option<Event> {
    match p
    case Waiting(_) => Some(Acquire(c))
    case Locked(_) => Some(if world.readable then Reread(c) else ReadFails(c))
    case Ready(_, _) => Some(Present(c))
    case Calling(_, _) => Some(if world.answer.Some? then Answer(c, world.answer.value) else Refuse(c))
    case Answered(_, _, _, _) => Some(if world.writable then StoreOk(c) else StoreFails(c))
    case _ => None
  }

  function Rank(p: Phase): nat {
    match p
    case Waiting(_) => 5
    case Locked(_) => 4
    case Ready(_, _) => 3
    case Calling(_, _) => 2
    case Answered(_, _, _, _) => 1
    case _ => 0
  }

  /** One caller running on its own until it is done or cannot go on. */
  function Alone(s: Sys, c: nat, world: World): Sys
    decreases Rank(PhaseOf(s, c))
  {
    var step := NextStep(c, world, PhaseOf(s, c));
    if step.None? || !Possible(s, step.value) then s else Alone(After(s, step.value), c, world)
  }

  lemma AloneAfterReread(s: Sys, c: nat, world: World)
    requires PhaseOf(s, c).Ready?
    requires world.answer.Some? ==> IsNew(s, world.answer.value.refresh)
    ensures var p := PhaseOf(s, c);
            && PhaseOf(Alone(s, c, world), c) == Done(p.who)
            && Alone(s, c, world).vault ==
               if world.answer.None? || !world.writable then s.vault
               else s.vault[p.who := Applied(p.current, world.answer.value)]
  {
    var calling := After(s, Present(c));
    assert Alone(s, c, world) == Alone(calling, c, world);
    if world.answer.Some? {
      var answered := After(calling, Answer(c, world.answer.value));
      assert Alone(calling, c, world) == Alone(answered, c, world);
      var stored := After(answered, if world.writable then StoreOk(c) else StoreFails(c));
      assert Alone(answered, c, world) == Alone(stored, c, world);
    } else {
      assert Alone(calling, c, world) == Alone(After(calling, Refuse(c)), c, world);
    }
  }

  /** Uninterrupted, the steps do to the vault exactly what the whole call is specified to do. */
  lemma AloneIsTheWholeCall(s: Sys, c: nat, who: Who, world: World)
    requires PhaseOf(s, c) == Waiting(who) && Key(who) !in s.locks
    requires world.answer.Some? ==> IsNew(s, world.answer.value.refresh)
    ensures PhaseOf(Alone(s, c, world), c) == Done(who)
    ensures Alone(s, c, world).vault == Refreshed(s.vault, who, s.clock, world).0
  {
    var locked := After(s, Acquire(c));
    assert Alone(s, c, world) == Alone(locked, c, world);
    var read := After(locked, if world.readable then Reread(c) else ReadFails(c));
    assert Alone(locked, c, world) == Alone(read, c, world);
    if PhaseOf(read, c).Ready? {
      AloneAfterReread(read, c, world);
    }
  }
}

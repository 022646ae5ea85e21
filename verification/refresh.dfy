/** The token refresh manager of pkg/oauth/refresh_manager.go over the credential vault of
    pkg/oauth/vault.go, as one caller sees it. Times are seconds. */
module Refresh {
  import opened Wrappers

  datatype Who = Who(user: string, provider: string)
  datatype Credential = Credential(access: string, refresh: string, tokenType: string, idToken: string,
                                   scopes: string, status: string, expiresAt: Option<int>)
  datatype TokenResponse = TokenResponse(access: string, refresh: string, tokenType: string, idToken: string,
                                         scope: string, expiresAt: Option<int>)
  datatype RetryState = RetryState(retries: nat, nextRetry: int)
  datatype Config = Config(maxRetries: nat, retryDelay: nat)

  type Vault = map<Who, Credential>

  const ACTIVE := "active"
  const REFRESH_WINDOW := 300

  // ------------------------------------------------------------- specifications

  function Key(who: Who): string {
    who.user + ":" + who.provider
  }

  predicate NeedsRefresh(c: Credential, now: int) {
    c.expiresAt.Some? && now + REFRESH_WINDOW > c.expiresAt.value
  }

  function Keep(new_: string, old_: string): string {
    if new_ != "" then new_ else old_
  }

  /** A response over a credential: what the response leaves out stays. */
  function Applied(c: Credential, r: TokenResponse): Credential {
    Credential(r.access, Keep(r.refresh, c.refresh), Keep(r.tokenType, c.tokenType), Keep(r.idToken, c.idToken),
               Keep(r.scope, c.scopes), ACTIVE, if r.expiresAt.Some? then r.expiresAt else c.expiresAt)
  }

  /** What a credential found under the lock calls for. */
  datatype Verdict = Gone | StillFresh(current: Credential) | NoToken | Call(stale: Credential)

  function Judge(vault: Vault, who: Who, now: int): Verdict {
    if who !in vault then Gone
    else if !NeedsRefresh(vault[who], now) then StillFresh(vault[who])
    else if vault[who].refresh == "" then NoToken
    else Call(vault[who])
  }

  /** How the world answers one refresh: the vault can be read, the provider's answer, the
      vault can be written. */
  datatype World = World(readable: bool, answer: Option<TokenResponse>, writable: bool)

  function Refreshed(vault: Vault, who: Who, now: int, world: World): (Vault, Result<Credential>) {
    if !world.readable then (vault, Err)
    else
      match Judge(vault, who, now)
      case StillFresh(current) => (vault, Ok(current))
      case Call(stale) =>
        if world.answer.None? || !world.writable then (vault, Err)
        else
          var updated := Applied(stale, world.answer.value);
          (vault[who := updated], Ok(updated))
      case _ => (vault, Err)
  }

  /** A credential that expires within five minutes. One without an expiry never does. */
  predicate IsStale(c: Credential, now: int) {
    match c.expiresAt
    case None => false
    case Some(at) => at < now + 300
  }

  /** What an answer makes of a credential: the new access token, and whatever else the answer
      gives; what it leaves out stays. */
  predicate Renews(c: Credential, a: TokenResponse, n: Credential) {
    && n.access == a.access && n.status == "active"
    && (if a.refresh == "" then n.refresh == c.refresh else n.refresh == a.refresh)
    && (if a.tokenType == "" then n.tokenType == c.tokenType else n.tokenType == a.tokenType)
    && (if a.idToken == "" then n.idToken == c.idToken else n.idToken == a.idToken)
    && (if a.scope == "" then n.scopes == c.scopes else n.scopes == a.scope)
    && (if a.expiresAt.None? then n.expiresAt == c.expiresAt else n.expiresAt == a.expiresAt)
  }

  /** A stored credential is stale and has a refresh token, the provider answers it, and the
      vault takes the answer. */
  predicate GoesThrough(vault: Vault, who: Who, now: int, world: World) {
    && world.readable && who in vault && IsStale(vault[who], now) && vault[who].refresh != ""
    && world.answer.Some? && world.writable
  }

  /** What a caller gets and what the vault holds afterwards. */
  ghost predicate IsRefresh(vault: Vault, who: Who, now: int, world: World, after: Vault, r: Result<Credential>) {
    if GoesThrough(vault, who, now, world) then
      r.Ok? && Renews(vault[who], world.answer.value, r.value) && after == vault[who := r.value]
    else
      && after == vault
      && r == if world.readable && who in vault && !IsStale(vault[who], now) then Ok(vault[who]) else Err
  }

  lemma RefreshedIs(vault: Vault, who: Who, now: int, world: World)
    ensures IsRefresh(vault, who, now, world, Refreshed(vault, who, now, world).0, Refreshed(vault, who, now, world).1)
  {
  }

  function Power(n: nat): nat {
    if n == 0 then 1 else 2 * Power(n - 1)
  }

  function Failed(cfg: Config, retries: map<string, RetryState>, key: string, now: int): map<string, RetryState> {
    var n := if key in retries then retries[key].retries else 0;
    retries[key := RetryState(n + 1, now + cfg.retryDelay * Power(n))]
  }

  predicate MayRetry(cfg: Config, retries: map<string, RetryState>, key: string, now: int) {
    key in retries ==> retries[key].retries < cfg.maxRetries && now >= retries[key].nextRetry
  }

  // ------------------------------------------------------------------ the class

  class Mutex {
    constructor () { }
  }

  class TokenRefreshManager {
    var vault: Vault
    var retries: map<string, RetryState>
    var inflight: map<string, Mutex>
    const cfg: Config

    constructor (vault: Vault, cfg: Config)
      ensures this.vault == vault && this.cfg == cfg && retries == map[] && inflight == map[]
    {
      this.vault, this.cfg := vault, cfg;
      retries, inflight := map[], map[];
    }

    /** One mutex a key, and no two keys share one. */
    ghost predicate OneMutexEach()
      reads this
    {
      forall k, l :: k in inflight && l in inflight && inflight[k] == inflight[l] ==> k == l
    }

    method GetCredMutex(key: string) returns (mu: Mutex)
      requires OneMutexEach()
      modifies this`inflight
      ensures OneMutexEach() && inflight == old(inflight)[key := mu]
      ensures key in old(inflight) ==> mu == old(inflight)[key]
      ensures key !in old(inflight) ==> fresh(mu)
    {
      if key in inflight {
        return inflight[key];
      }
      mu := new Mutex();
      inflight := inflight[key := mu];
    }

    method DoRefresh(who: Who, now: int, world: World) returns (r: Result<Credential>)
      requires OneMutexEach()
      modifies this
      ensures (vault, r) == Refreshed(old(vault), who, now, world)
      ensures IsRefresh(old(vault), who, now, world, vault, r)
      ensures retries == if r.Ok? then old(retries) - {Key(who)} else old(retries)
      ensures OneMutexEach() && Key(who) in inflight
    {
      RefreshedIs(vault, who, now, world);
      var key := Key(who);
      var mu := GetCredMutex(key);
      if !world.readable || who !in vault {
        return Err;
      }
      var current := vault[who];
      if !NeedsRefresh(current, now) {
        retries := retries - {key};
        return Ok(current);
      }
      if current.refresh == "" || world.answer.None? {
        return Err;
      }
      var resp := world.answer.value;
      current := current.(access := resp.access);
      if resp.refresh != "" {
        current := current.(refresh := resp.refresh);
      }
      if resp.tokenType != "" {
        current := current.(tokenType := resp.tokenType);
      }
      if resp.idToken != "" {
        current := current.(idToken := resp.idToken);
      }
      if resp.scope != "" {
        current := current.(scopes := resp.scope);
      }
      if resp.expiresAt.Some? {
        current := current.(expiresAt := resp.expiresAt);
      }
      current := current.(status := ACTIVE);
      if !world.writable {
        return Err;
      }
      vault := vault[who := current];
      retries := retries - {key};
      return Ok(current);
    }

    /** The credential, refreshed first when it is about to expire. `found` is the outcome of
        the first read. */
    method EnsureFresh(who: Who, found: bool, now: int, later: int, world: World) returns (r: Result<Credential>)
      requires OneMutexEach()
      modifies this
      ensures r.Ok? <==>
        && who.user != "" && who.provider != "" && found && who in old(vault)
        && (NeedsRefresh(old(vault)[who], now) ==>
              old(vault)[who].refresh != "" && Refreshed(old(vault), who, later, world).1.Ok?)
      ensures r.Ok? ==> who in vault && vault[who] == r.value
      ensures found && who.user != "" && who.provider != "" && who in old(vault) ==>
        if !IsStale(old(vault)[who], now) then r == Ok(old(vault)[who])
        else if old(vault)[who].refresh == "" then r == Err
        else IsRefresh(old(vault), who, later, world, vault, r)
      ensures r.Ok? && who in old(vault) ==>
        if NeedsRefresh(old(vault)[who], now) then (vault, r) == Refreshed(old(vault), who, later, world)
        else vault == old(vault) && retries == old(retries)
      ensures r.Err? ==> vault == old(vault) && retries == old(retries)
    {
      if who.user == "" || who.provider == "" || !found || who !in vault {
        return Err;
      }
      var cred := vault[who];
      if !NeedsRefresh(cred, now) {
        return Ok(cred);
      }
      if cred.refresh == "" {
        return Err;
      }
      r := DoRefresh(who, later, world);
    }

    /** A refresh asked for by hand. A credential that is still fresh is returned as it is. */
    method RefreshCredential(who: Who, found: bool, later: int, world: World) returns (r: Result<Credential>)
      requires OneMutexEach()
      modifies this
      ensures r.Ok? <==>
        && who.user != "" && who.provider != "" && found && who in old(vault) && old(vault)[who].refresh != ""
        && Refreshed(old(vault), who, later, world).1.Ok?
      ensures r.Ok? ==> (vault, r) == Refreshed(old(vault), who, later, world)
      ensures found && who.user != "" && who.provider != "" && who in old(vault) && old(vault)[who].refresh != "" ==>
        IsRefresh(old(vault), who, later, world, vault, r)
      ensures r.Err? ==> vault == old(vault) && retries == old(retries)
    {
      if who.user == "" || who.provider == "" || !found || who !in vault || vault[who].refresh == "" {
        return Err;
      }
      r := DoRefresh(who, later, world);
    }

    /** The gate of the background sweep. */
    method MaybeRefresh(who: Who, now: int) returns (go: bool)
      ensures go <==> MayRetry(cfg, retries, Key(who), now)
    {
      var key := Key(who);
      if key in retries {
        if retries[key].retries >= cfg.maxRetries {
          return false;
        }
        if now < retries[key].nextRetry {
          return false;
        }
      }
      return true;
    }

    /** A refresh of the background sweep: a failure is counted and delays the next one. */
    method BackgroundRefresh(who: Who, now: int, later: int, world: World) returns (r: Result<Credential>)
      requires OneMutexEach()
      modifies this
      ensures (vault, r) == Refreshed(old(vault), who, now, world)
      ensures IsRefresh(old(vault), who, now, world, vault, r)
      ensures r.Ok? ==> retries == old(retries) - {Key(who)}
      ensures r.Err? ==> retries == Failed(cfg, old(retries), Key(who), later)
    {
      r := DoRefresh(who, now, world);
      if r.Err? {
        var key := Key(who);
        var state := if key in retries then retries[key] else RetryState(0, 0);
        state := state.(retries := state.retries + 1);
        var backoff := cfg.retryDelay * Power(state.retries - 1);
        retries := retries[key := state.(nextRetry := later + backoff)];
      }
    }

    method ResetRetries(who: Who)
      modifies this`retries
      ensures retries == old(retries) - {Key(who)}
    {
      retries := retries - {Key(who)};
    }
  }

  // ---------------------------------------------------------------------- facts

  /** After a refresh the credential is fresh exactly when the provider gave a new expiry far
      enough away; without one it keeps the expiry that made it stale. */
  lemma FreshOnlyWithANewExpiry(c: Credential, r: TokenResponse, now: int, later: int)
    requires NeedsRefresh(c, now) && later >= now
    ensures !NeedsRefresh(Applied(c, r), later) <==>
            r.expiresAt.Some? && later + 300 <= r.expiresAt.value
  {
  }

  /** Refreshing twice in a row: when the first attempt brought an expiry that is still far at
      the second one, the second changes nothing and asks nobody. */
  lemma SecondRefreshAsksNobody(vault: Vault, who: Who, now: int, later: int, first: World, second: World)
    requires now <= later && second.readable
    requires Refreshed(vault, who, now, first).1.Ok?
    requires !NeedsRefresh(Refreshed(vault, who, now, first).1.value, later)
    ensures Refreshed(Refreshed(vault, who, now, first).0, who, later, second) == Refreshed(vault, who, now, first)
  {
    assert Judge(vault, who, now).StillFresh? || Judge(vault, who, now).Call?;
  }

  lemma ColonOfTheOther(a: Who, b: Who)
    requires Key(a) == Key(b)
    ensures |a.user| < |b.user| ==> ':' in b.user
  {
    if |a.user| < |b.user| {
      assert Key(b)[|a.user|] == b.user[|a.user|] && Key(a)[|a.user|] == ':';
    }
  }

  /** Keys are told apart as long as no user name holds a colon. */
  lemma KeysDiffer(a: Who, b: Who)
    requires ':' !in a.user && ':' !in b.user
    ensures Key(a) == Key(b) <==> a == b
  {
    if Key(a) == Key(b) {
      ColonOfTheOther(a, b);
      ColonOfTheOther(b, a);
      assert Key(a)[..|a.user|] == a.user && Key(b)[..|b.user|] == b.user;
      assert Key(a)[|a.user| + 1..] == a.provider && Key(b)[|b.user| + 1..] == b.provider;
    }
  }

  /** Otherwise two credentials can share a key. */
  lemma KeysMayCoincide()
    ensures Key(Who("a:b", "c")) == Key(Who("a", "b:c")) && Who("a:b", "c") != Who("a", "b:c")
  {
  }

  // ------------------------------------------------------- giving up, over whole runs

  /** What happens to retry states: a background refresh fails, or a success or a reset clears
      one. Any number of refreshes, of any credentials, may be under way at once. */
  datatype Outcome = Failure(key: string, at: int) | Cleared(key: string)

  function RetriesAfter(cfg: Config, events: seq<Outcome>): map<string, RetryState> {
    if events == [] then map[]
    else
      var before := RetriesAfter(cfg, events[..|events| - 1]);
      match events[|events| - 1]
      case Failure(key, at) => Failed(cfg, before, key, at)
      case Cleared(key) => before - {key}
  }

  /** The times of the failures of one credential since it was last cleared. */
  function FailuresSince(events: seq<Outcome>, key: string): seq<int> {
    if events == [] then []
    else
      var before := FailuresSince(events[..|events| - 1], key);
      var last := events[|events| - 1];
      if last.key != key then before else if last.Failure? then before + [last.at] else []
  }

  lemma {:induction false} RetriesCountFailures(cfg: Config, events: seq<Outcome>, key: string)
    ensures var retries, fs := RetriesAfter(cfg, events), FailuresSince(events, key);
            && (key in retries <==> fs != [])
            && (fs != [] ==>
                  retries[key] == RetryState(|fs|, fs[|fs| - 1] + cfg.retryDelay * Power(|fs| - 1)))
    decreases |events|
  {
    if events != [] {
      RetriesCountFailures(cfg, events[..|events| - 1], key);
    }
  }

  /** The first failure pauses the sweep for `retryDelay`, and each further one twice as long as
      the one before. */
  lemma PausesDouble(cfg: Config, events: seq<Outcome>, key: string, at: int)
    ensures var fs := FailuresSince(events, key);
            var before, after := RetriesAfter(cfg, events), RetriesAfter(cfg, events + [Failure(key, at)]);
            && key in after
            && (fs == [] ==> after[key].nextRetry - at == cfg.retryDelay)
            && (fs != [] ==>
                  key in before && after[key].nextRetry - at == 2 * (before[key].nextRetry - fs[|fs| - 1]))
  {
    RetriesCountFailures(cfg, events, key);
    assert (events + [Failure(key, at)])[..|events|] == events;
    var fs := FailuresSince(events, key);
    if fs != [] {
      TwiceThePower(cfg.retryDelay, |fs|);
    }
  }

  lemma TwiceThePower(delay: nat, n: nat)
    requires n > 0
    ensures delay * Power(n) == 2 * (delay * Power(n - 1))
  {
  }

  /** When the sweep goes ahead: there was no failure since the last success or reset, or fewer
      than `maxRetries`, and after the n-th the pause of `retryDelay * 2^(n-1)` is over. */
  lemma GateIs(cfg: Config, events: seq<Outcome>, key: string, now: int)
    ensures var fs := FailuresSince(events, key);
            MayRetry(cfg, RetriesAfter(cfg, events), key, now) <==>
              fs == [] || (|fs| < cfg.maxRetries && now >= fs[|fs| - 1] + cfg.retryDelay * Power(|fs| - 1))
  {
    RetriesCountFailures(cfg, events, key);
  }

  lemma {:induction false} FailuresAddUp(events: seq<Outcome>, more: seq<Outcome>, key: string)
    requires Cleared(key) !in more
    ensures FailuresSince(events, key) <= FailuresSince(events + more, key)
    decreases |more|
  {
    if more == [] {
      assert events + more == events;
    } else {
      var front := more[..|more| - 1];
      assert more[|more| - 1] in more && forall o <- front :: o in more;
      FailuresAddUp(events, front, key);
      assert (events + more)[..|events + more| - 1] == events + front;
    }
  }

  /** A credential given up after `maxRetries` failures stays so, whatever else happens and
      however long one waits, until a success or a reset. */
  lemma GivenUpForGood(cfg: Config, events: seq<Outcome>, more: seq<Outcome>, key: string, now: int)
    requires cfg.maxRetries >= 1 && |FailuresSince(events, key)| >= cfg.maxRetries && Cleared(key) !in more
    ensures !MayRetry(cfg, RetriesAfter(cfg, events + more), key, now)
  {
    FailuresAddUp(events, more, key);
    GateIs(cfg, events + more, key, now);
  }
}

/** The fixed-window limiter of pkg/middleware/authratelimit.go. Times are integers. */
module RateLimit {

  datatype Config = Config(maxAttempts: int, window: int)
  datatype Entry = Entry(count: int, windowAt: int)
  type Entries = map<string, Entry>

  // ------------------------------------------------------------- specifications

  predicate Expired(cfg: Config, e: Entry, now: int) {
    now - e.windowAt >= cfg.window
  }

  /** The entry after a request, and whether the request is allowed. */
  function Admit(cfg: Config, entries: Entries, ip: string, now: int): (Entry, bool) {
    if ip !in entries || Expired(cfg, entries[ip], now) then (Entry(1, now), true)
    else
      var e := entries[ip].(count := entries[ip].count + 1);
      (e, e.count <= cfg.maxAttempts)
  }

  function Swept(cfg: Config, entries: Entries, now: int): Entries {
    map ip | ip in entries && !Expired(cfg, entries[ip], now) :: entries[ip]
  }

  // ------------------------------------------------------------------ the class

  class AuthRateLimiter {
    var entries: Entries
    const cfg: Config

    constructor (cfg: Config)
      ensures this.cfg == cfg && entries == map[]
    {
      this.cfg := cfg;
      entries := map[];
    }

    method Allow(ip: string, now: int) returns (ok: bool)
      modifies this
      ensures var (e, allowed) := Admit(cfg, old(entries), ip, now);
              ok == allowed && entries == old(entries)[ip := e]
      ensures if ip !in old(entries) || now >= old(entries)[ip].windowAt + cfg.window then
                ok && entries == old(entries)[ip := Entry(1, now)]
              else
                && (ok <==> old(entries)[ip].count < cfg.maxAttempts)
                && entries == old(entries)[ip := Entry(old(entries)[ip].count + 1, old(entries)[ip].windowAt)]
    {
      if ip !in entries {
        entries := entries[ip := Entry(1, now)];
        return true;
      }
      var entry := entries[ip];
      if now - entry.windowAt >= cfg.window {
        entries := entries[ip := Entry(1, now)];
        return true;
      }
      entry := entry.(count := entry.count + 1);
      entries := entries[ip := entry];
      return entry.count <= cfg.maxAttempts;
    }

    method Cleanup(now: int)
      modifies this
      ensures entries == Swept(cfg, old(entries), now)
      ensures forall ip :: ip in entries <==> ip in old(entries) && now < old(entries)[ip].windowAt + cfg.window
      ensures forall ip <- entries :: entries[ip] == old(entries)[ip]
    {
      var todo := entries.Keys;
      while todo != {}
        invariant todo <= entries.Keys <= old(entries).Keys
        invariant forall ip <- entries :: entries[ip] == old(entries)[ip]
        invariant forall ip <- entries :: ip in todo || !Expired(cfg, entries[ip], now)
        invariant forall ip <- old(entries) :: ip in entries || Expired(cfg, old(entries)[ip], now)
        decreases todo
      {
        var ip :| ip in todo;
        todo := todo - {ip};
        if now - entries[ip].windowAt >= cfg.window {
          entries := entries - {ip};
        }
      }
    }
  }

  // --------------------------------------------------------------------- traces

  datatype Event = Request(ip: string, at: int) | Sweep(at: int)
  datatype Outcome = Outcome(ip: string, at: int, ok: bool)

  ghost predicate Sorted(trace: seq<Event>) {
    forall i, j :: 0 <= i < j < |trace| ==> trace[i].at <= trace[j].at
  }

  /** What the limiter answers to the requests of a trace, in order. */
  function Outcomes(cfg: Config, entries: Entries, trace: seq<Event>): seq<Outcome>
    decreases |trace|
  {
    if trace == [] then []
    else
      match trace[0]
      case Sweep(at) => Outcomes(cfg, Swept(cfg, entries, at), trace[1..])
      case Request(ip, at) =>
        var (e, ok) := Admit(cfg, entries, ip, at);
        [Outcome(ip, at, ok)] + Outcomes(cfg, entries[ip := e], trace[1..])
  }

  function Requests(trace: seq<Event>): seq<Event> {
    if trace == [] then []
    else (if trace[0].Request? then [trace[0]] else []) + Requests(trace[1..])
  }

  // ------------------------------------------------------- sweeps change nothing

  /** Two tables that answer alike from `now` on: they differ only in expired entries that
      the first has dropped. */
  ghost predicate Alike(cfg: Config, a: Entries, b: Entries, now: int) {
    && a.Keys <= b.Keys
    && (forall ip <- a :: a[ip] == b[ip])
    && (forall ip <- b :: ip in a || Expired(cfg, b[ip], now))
  }

  lemma {:induction false} SweepsChangeNothingFrom(cfg: Config, a: Entries, b: Entries, now: int, trace: seq<Event>)
    requires Alike(cfg, a, b, now) && Sorted(trace)
    requires |trace| > 0 ==> now <= trace[0].at
    ensures Outcomes(cfg, a, trace) == Outcomes(cfg, b, Requests(trace))
    decreases |trace|
  {
    if trace != [] {
      var at := trace[0].at;
      var rest := trace[1..];
      match trace[0]
      case Sweep(_) =>
        SweepsChangeNothingFrom(cfg, Swept(cfg, a, at), b, at, rest);
        assert Requests(trace) == Requests(rest);
      case Request(ip, _) =>
        var (e, ok) := Admit(cfg, a, ip, at);
        assert Admit(cfg, b, ip, at) == (e, ok);
        SweepsChangeNothingFrom(cfg, a[ip := e], b[ip := e], at, rest);
        assert Requests(trace)[1..] == Requests(rest);
    }
  }

  /** Cleanup sweeps anywhere in a trace change no decision. */
  lemma SweepsChangeNothing(cfg: Config, trace: seq<Event>)
    requires Sorted(trace)
    ensures Outcomes(cfg, map[], trace) == Outcomes(cfg, map[], Requests(trace))
  {
    if trace != [] {
      SweepsChangeNothingFrom(cfg, map[], map[], trace[0].at, trace);
    }
  }

  // ------------------------------------------------------------------ the bound

  /** How many requests of `ip` were allowed in [from, from + window). */
  function AllowedIn(cfg: Config, outcomes: seq<Outcome>, ip: string, from: int): nat {
    if outcomes == [] then 0
    else
      var o := outcomes[0];
      (if o.ip == ip && o.ok && from <= o.at < from + cfg.window then 1 else 0)
        + AllowedIn(cfg, outcomes[1..], ip, from)
  }

  function Max(a: int, b: int): int { if a > b then a else b }

  /** Requests allowed per window: the first one always is. */
  function PerWindow(cfg: Config): int { Max(1, cfg.maxAttempts) }

  /** An upper bound on what can still be allowed in [from, from + window): the rest of the
      current window, and the one window that may open inside the interval. */
  function Budget(cfg: Config, entries: Entries, ip: string, now: int, from: int): int {
    var m := PerWindow(cfg);
    if now >= from + cfg.window then 0
    else if ip !in entries || now < from then 2 * m - 1
    else
      var rest := Max(0, m - entries[ip].count);
      if entries[ip].windowAt >= from then rest else rest + m
  }

  ghost predicate Sane(entries: Entries, now: int) {
    forall ip <- entries :: entries[ip].count >= 1 && entries[ip].windowAt <= now
  }

  lemma {:induction false} WithinBudget(cfg: Config, entries: Entries, now: int, trace: seq<Event>,
                                           ip: string, from: int)
    requires Sane(entries, now) && Sorted(trace) && forall e <- trace :: e.Request?
    requires |trace| > 0 ==> now <= trace[0].at
    ensures AllowedIn(cfg, Outcomes(cfg, entries, trace), ip, from) <= Max(0, Budget(cfg, entries, ip, now, from))
    decreases |trace|
  {
    if trace != [] {
      var r := trace[0];
      assert r in trace;
      var (e, ok) := Admit(cfg, entries, r.ip, r.at);
      var entries' := entries[r.ip := e];
      var rest := Outcomes(cfg, entries', trace[1..]);
      WithinBudget(cfg, entries', r.at, trace[1..], ip, from);
      assert Outcomes(cfg, entries, trace)[1..] == rest;
    }
  }

  lemma {:induction false} RequestsAreOf(trace: seq<Event>)
    ensures forall e <- Requests(trace) :: e in trace && e.Request?
    decreases |trace|
  {
    if trace != [] {
      RequestsAreOf(trace[1..]);
      assert trace[0] in trace && forall e <- trace[1..] :: e in trace;
    }
  }

  lemma FirstIsEarliest(trace: seq<Event>, e: Event)
    requires Sorted(trace) && trace != [] && e in trace
    ensures trace[0].at <= e.at
  {
  }

  lemma {:induction false} RequestsAreSorted(trace: seq<Event>)
    requires Sorted(trace)
    ensures Sorted(Requests(trace))
    decreases |trace|
  {
    if trace != [] {
      var rest := trace[1..];
      RequestsAreSorted(rest);
      RequestsAreOf(rest);
      forall k | 0 <= k < |Requests(rest)| ensures trace[0].at <= Requests(rest)[k].at {
        assert Requests(rest)[k] in rest;
        FirstIsEarliest(trace, Requests(rest)[k]);
      }
    }
  }

  /** In every sorted trace, sweeps included, at most 2 * max(1, MaxAttempts) - 1 requests of
      one IP are allowed in any half-open interval as long as the window. */
  lemma AtMostTwoWindows(cfg: Config, trace: seq<Event>, ip: string, from: int)
    requires Sorted(trace)
    ensures AllowedIn(cfg, Outcomes(cfg, map[], trace), ip, from) <= 2 * PerWindow(cfg) - 1
  {
    SweepsChangeNothing(cfg, trace);
    RequestsAreSorted(trace);
    RequestsAreOf(trace);
    var requests := Requests(trace);
    if requests != [] {
      WithinBudget(cfg, map[], requests[0].at, requests, ip, from);
    }
  }

  // ------------------------------------------------------- who is never refused

  /** How many requests of `ip` a trace holds in [from, to). */
  function MadeIn(trace: seq<Event>, ip: string, from: int, to: int): nat {
    if trace == [] then 0
    else
      var e := trace[|trace| - 1];
      MadeIn(trace[..|trace| - 1], ip, from, to)
        + (if e.Request? && e.ip == ip && from <= e.at < to then 1 else 0)
  }

  lemma MadeInMore(trace: seq<Event>, e: Event, ip: string, from: int, to: int)
    ensures MadeIn(trace + [e], ip, from, to)
         == MadeIn(trace, ip, from, to) + (if e.Request? && e.ip == ip && from <= e.at < to then 1 else 0)
  {
    assert (trace + [e])[..|trace|] == trace;
  }

  lemma {:induction false} MadeInPrefix(a: seq<Event>, b: seq<Event>, ip: string, from: int, to: int)
    ensures MadeIn(a, ip, from, to) <= MadeIn(a + b, ip, from, to)
    decreases |b|
  {
    if b == [] {
      assert a + b == a;
    } else {
      MadeInPrefix(a, b[..|b| - 1], ip, from, to);
      assert (a + b)[..|a + b| - 1] == a + b[..|b| - 1];
    }
  }

  /** At most `maxAttempts` requests of `ip` in any interval as long as the window. */
  ghost predicate Quiet(cfg: Config, trace: seq<Event>, ip: string) {
    forall from: int :: QuietFor(cfg, trace, ip, from)
  }

  predicate QuietFor(cfg: Config, trace: seq<Event>, ip: string, from: int) {
    MadeIn(trace, ip, from, from + cfg.window) <= cfg.maxAttempts
  }

  /** The count of an address is no more than the requests it has made since its window began. */
  ghost predicate CountsMade(cfg: Config, entries: Entries, past: seq<Event>, ip: string, now: int) {
    ip in entries ==>
      && entries[ip].windowAt <= now
      && entries[ip].count <= MadeIn(past, ip, entries[ip].windowAt, entries[ip].windowAt + cfg.window)
  }

  lemma RequestCounts(cfg: Config, entries: Entries, past: seq<Event>, ip: string, now: int, r: Event)
    requires CountsMade(cfg, entries, past, ip, now) && r.Request? && now <= r.at && cfg.window >= 1
    ensures CountsMade(cfg, entries[r.ip := Admit(cfg, entries, r.ip, r.at).0], past + [r], ip, r.at)
  {
    var e := Admit(cfg, entries, r.ip, r.at).0;
    MadeInMore(past, r, ip, e.windowAt, e.windowAt + cfg.window);
    if ip in entries {
      MadeInMore(past, r, ip, entries[ip].windowAt, entries[ip].windowAt + cfg.window);
    }
  }

  lemma {:induction false} QuietFrom(cfg: Config, entries: Entries, past: seq<Event>, now: int, trace: seq<Event>,
                                     ip: string)
    requires cfg.maxAttempts >= 1 && cfg.window >= 1 && Sorted(trace) && (|trace| > 0 ==> now <= trace[0].at)
    requires Quiet(cfg, past + trace, ip) && CountsMade(cfg, entries, past, ip, now)
    ensures forall o <- Outcomes(cfg, entries, trace) :: o.ip == ip ==> o.ok
    decreases |trace|
  {
    if trace != [] {
      var e, rest := trace[0], trace[1..];
      assert past + trace == (past + [e]) + rest;
      match e
      case Sweep(at) =>
        MadeInSweep(cfg, entries, past, ip, now, e);
        QuietFrom(cfg, Swept(cfg, entries, at), past + [e], at, rest, ip);
      case Request(who, at) =>
        RequestCounts(cfg, entries, past, ip, now, e);
        var (entry, ok) := Admit(cfg, entries, who, at);
        if who == ip {
          MadeInPrefix(past + [e], rest, ip, entry.windowAt, entry.windowAt + cfg.window);
          assert QuietFor(cfg, past + trace, ip, entry.windowAt);
        }
        QuietFrom(cfg, entries[who := entry], past + [e], at, rest, ip);
        assert Outcomes(cfg, entries, trace)
            == [Outcome(who, at, ok)] + Outcomes(cfg, entries[who := entry], rest);
    }
  }

  lemma MadeInSweep(cfg: Config, entries: Entries, past: seq<Event>, ip: string, now: int, e: Event)
    requires CountsMade(cfg, entries, past, ip, now) && e.Sweep? && now <= e.at
    ensures CountsMade(cfg, Swept(cfg, entries, e.at), past + [e], ip, e.at)
  {
    if ip in entries {
      MadeInMore(past, e, ip, entries[ip].windowAt, entries[ip].windowAt + cfg.window);
    }
  }

  /** An address that makes at most `MaxAttempts` requests in any interval as long as the window
      is never refused, whatever others do and whenever it is swept. */
  lemma QuietIsNeverRefused(cfg: Config, trace: seq<Event>, ip: string)
    requires cfg.maxAttempts >= 1 && cfg.window >= 1 && Sorted(trace) && Quiet(cfg, trace, ip)
    ensures forall o <- Outcomes(cfg, map[], trace) :: o.ip == ip ==> o.ok
  {
    if trace != [] {
      assert [] + trace == trace;
      QuietFrom(cfg, map[], [], trace[0].at, trace, ip);
    }
  }

  // ------------------------------------------------------------- the bound is met

  function Burst(ip: string, at: int, n: nat): (t: seq<Event>)
    ensures |t| == n && forall i :: 0 <= i < n ==> t[i] == Request(ip, at)
  {
    if n == 0 then [] else [Request(ip, at)] + Burst(ip, at, n - 1)
  }

  function Bumped(entries: Entries, ip: string, n: nat): Entries
    requires ip in entries
  {
    entries[ip := entries[ip].(count := entries[ip].count + n)]
  }

  /** A burst inside an open window with room for it is allowed whole. */
  lemma {:induction false} BurstAllowed(cfg: Config, entries: Entries, ip: string, at: int, n: nat,
                                           tail: seq<Event>, from: int)
    requires ip in entries && !Expired(cfg, entries[ip], at)
    requires entries[ip].count + n <= cfg.maxAttempts && from <= at < from + cfg.window
    ensures AllowedIn(cfg, Outcomes(cfg, entries, Burst(ip, at, n) + tail), ip, from)
         == n + AllowedIn(cfg, Outcomes(cfg, Bumped(entries, ip, n), tail), ip, from)
    decreases n
  {
    if n == 0 {
      assert Burst(ip, at, 0) + tail == tail;
      assert Bumped(entries, ip, 0) == entries;
    } else {
      var trace := Burst(ip, at, n) + tail;
      var next := Bumped(entries, ip, 1);
      assert trace[1..] == Burst(ip, at, n - 1) + tail;
      BurstAllowed(cfg, next, ip, at, n - 1, tail, from);
      assert Bumped(next, ip, n - 1) == Bumped(entries, ip, n);
      var o := Outcomes(cfg, entries, trace);
      assert o[1..] == Outcomes(cfg, next, trace[1..]);
    }
  }

  /** One request to open a window, the rest of its allowance at its very end, and a full
      allowance when the next one opens. */
  function WorstCase(cfg: Config, ip: string): seq<Event>
    requires cfg.maxAttempts >= 1
  {
    var m, w := cfg.maxAttempts, cfg.window;
    [Request(ip, 0)] + (Burst(ip, w - 1, m - 1) + ([Request(ip, w)] + Burst(ip, w, m - 1)))
  }

  lemma WorstCaseIsSorted(cfg: Config, ip: string)
    requires cfg.maxAttempts >= 1 && cfg.window >= 1
    ensures Sorted(WorstCase(cfg, ip))
  {
  }

  lemma OpensWindow(cfg: Config, entries: Entries, ip: string, at: int, rest: seq<Event>, from: int)
    requires ip !in entries || Expired(cfg, entries[ip], at)
    ensures AllowedIn(cfg, Outcomes(cfg, entries, [Request(ip, at)] + rest), ip, from)
         == (if from <= at < from + cfg.window then 1 else 0)
            + AllowedIn(cfg, Outcomes(cfg, entries[ip := Entry(1, at)], rest), ip, from)
  {
    var trace := [Request(ip, at)] + rest;
    assert trace[1..] == rest;
    var o := Outcomes(cfg, entries, trace);
    assert o == [Outcome(ip, at, true)] + Outcomes(cfg, entries[ip := Entry(1, at)], rest);
    assert o[1..] == Outcomes(cfg, entries[ip := Entry(1, at)], rest);
  }

  lemma FullWindow(cfg: Config, entries: Entries, ip: string, at: int, from: int)
    requires cfg.maxAttempts >= 1 && from <= at < from + cfg.window
    requires ip !in entries || Expired(cfg, entries[ip], at)
    ensures AllowedIn(cfg, Outcomes(cfg, entries, [Request(ip, at)] + Burst(ip, at, cfg.maxAttempts - 1)), ip, from)
         == cfg.maxAttempts
  {
    var last := Burst(ip, at, cfg.maxAttempts - 1);
    OpensWindow(cfg, entries, ip, at, last, from);
    assert last + [] == last;
    BurstAllowed(cfg, entries[ip := Entry(1, at)], ip, at, cfg.maxAttempts - 1, [], from);
  }

  /** The bound cannot be improved. */
  lemma BoundIsMet(cfg: Config, ip: string)
    requires cfg.maxAttempts >= 1 && cfg.window >= 2
    ensures Sorted(WorstCase(cfg, ip))
    ensures AllowedIn(cfg, Outcomes(cfg, map[], WorstCase(cfg, ip)), ip, cfg.window - 1) == 2 * PerWindow(cfg) - 1
  {
    WorstCaseIsSorted(cfg, ip);
    var m, w := cfg.maxAttempts, cfg.window;
    var second := [Request(ip, w)] + Burst(ip, w, m - 1);
    var first := map[ip := Entry(1, 0)];
    OpensWindow(cfg, map[], ip, 0, Burst(ip, w - 1, m - 1) + second, w - 1);
    BurstAllowed(cfg, first, ip, w - 1, m - 1, second, w - 1);
    FullWindow(cfg, Bumped(first, ip, m - 1), ip, w, w - 1);
  }
}

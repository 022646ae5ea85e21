/** The weighted scenario selector and the shared request counter of
    pkg/loadtest/loadtest.go. */
module Selector {
  import Iteration

  // ------------------------------------------------------------- specifications

  function Effective(weight: int): (w: int)
    ensures w >= 1
  {
    if weight <= 0 then 1 else weight
  }

  /** The total effective weight of the first `i` scenarios. */
  function Cumulative(weights: seq<int>, i: nat): (c: nat)
    requires i <= |weights|
    ensures c >= i
  {
    if i == 0 then 0 else Cumulative(weights, i - 1) + Effective(weights[i - 1])
  }

  function Total(weights: seq<int>): nat {
    Cumulative(weights, |weights|)
  }

  lemma {:induction false} CumulativeGrows(weights: seq<int>, i: nat, j: nat)
    requires i <= j <= |weights|
    ensures Cumulative(weights, i) + (j - i) <= Cumulative(weights, j)
    decreases j
  {
    if i < j {
      CumulativeGrows(weights, i, j - 1);
    }
  }

  /** Scenario `i` owns the targets between two neighbouring cumulative weights. */
  predicate Owns(weights: seq<int>, i: nat, iteration: nat)
    requires |weights| > 0 && i < |weights|
  {
    CumulativeGrows(weights, 0, |weights|);
    Cumulative(weights, i) <= iteration % Total(weights) < Cumulative(weights, i + 1)
  }

  function Sum(ns: seq<int>): int {
    if ns == [] then 0 else Sum(ns[..|ns| - 1]) + ns[|ns| - 1]
  }

  /** How often each scenario is to be picked in one cycle: as often as its weight says, and
      once when that is not positive. */
  ghost predicate IsShares(weights: seq<int>, shares: seq<int>) {
    && |shares| == |weights|
    && forall k :: 0 <= k < |weights| ==> if weights[k] <= 0 then shares[k] == 1 else shares[k] == weights[k]
  }

  lemma {:induction false} CumulativeIsSum(weights: seq<int>, shares: seq<int>, i: nat)
    requires IsShares(weights, shares) && i <= |weights|
    ensures Cumulative(weights, i) == Sum(shares[..i])
    decreases i
  {
    if i > 0 {
      CumulativeIsSum(weights, shares, i - 1);
      assert shares[..i][..i - 1] == shares[..i - 1];
    }
  }

  lemma TotalIsSum(weights: seq<int>, shares: seq<int>)
    requires IsShares(weights, shares)
    ensures Total(weights) == Sum(shares)
  {
    CumulativeIsSum(weights, shares, |weights|);
    assert shares[..|weights|] == shares;
  }

  /** Scenario `k` has the stretch of a cycle behind the shares of those before it. */
  ghost predicate HasStretch(shares: seq<int>, k: nat, iteration: nat)
    requires k < |shares| && Sum(shares) != 0
  {
    Sum(shares[..k]) <= iteration % Sum(shares) < Sum(shares[..k]) + shares[k]
  }

  lemma OwnerHasStretch(weights: seq<int>, shares: seq<int>, k: nat, iteration: nat)
    requires IsShares(weights, shares) && k < |weights|
    ensures Sum(shares) > 0 && (Owns(weights, k, iteration) <==> HasStretch(shares, k, iteration))
  {
    CumulativeGrows(weights, 0, |weights|);
    TotalIsSum(weights, shares);
    CumulativeIsSum(weights, shares, k);
    CumulativeIsSum(weights, shares, k + 1);
    assert shares[..k + 1][..k] == shares[..k];
  }

  // ------------------------------------------------------------------ the class

  class ScenarioSelector {
    const weights: seq<int>
    var totalWeight: int
    var cumulWeights: array<int>

    ghost predicate Valid()
      reads this, cumulWeights
    {
      && |weights| > 0
      && cumulWeights.Length == |weights|
      && totalWeight == Total(weights)
      && forall i :: 0 <= i < |weights| ==> cumulWeights[i] == Cumulative(weights, i + 1)
    }

    constructor (weights: seq<int>)
      requires |weights| > 0
      ensures Valid() && this.weights == weights && fresh(cumulWeights)
      ensures forall shares :: IsShares(weights, shares) ==> totalWeight == Sum(shares)
    {
      this.weights := weights;
      var cumulWeights := new int[|weights|];
      var cumul := 0;
      for i := 0 to |weights|
        invariant cumul == Cumulative(weights, i)
        invariant forall j :: 0 <= j < i ==> cumulWeights[j] == Cumulative(weights, j + 1)
      {
        var weight := weights[i];
        if weight <= 0 {
          weight := 1;
        }
        cumul := cumul + weight;
        cumulWeights[i] := cumul;
      }
      this.cumulWeights := cumulWeights;
      this.totalWeight := cumul;
      forall shares | IsShares(weights, shares) ensures cumul == Sum(shares) {
        TotalIsSum(weights, shares);
      }
    }

    /** The scenario of an iteration: the one that owns it, and no other does. */
    method Pick(iteration: nat) returns (k: nat)
      requires Valid()
      ensures k < |weights| && Owns(weights, k, iteration)
      ensures forall j :: 0 <= j < |weights| && Owns(weights, j, iteration) ==> j == k
      ensures forall shares :: IsShares(weights, shares) && Sum(shares) > 0 ==> HasStretch(shares, k, iteration)
    {
      ghost var ws := weights;
      CumulativeGrows(ws, 0, |ws|);
      if |weights| == 1 {
        assert Cumulative(ws, 1) == Total(ws);
        PickedHasStretch(ws, 0, iteration);
        return 0;
      }
      var target := iteration % totalWeight + 1;
      k := 0;
      while target > cumulWeights[k]
        invariant k < |weights|
        invariant forall j :: 0 <= j < k ==> cumulWeights[j] < target
        decreases |weights| - k
      {
        assert k != |weights| - 1;
        k := k + 1;
      }
      assert k > 0 ==> cumulWeights[k - 1] < target;
      forall j | 0 <= j < |weights| && Owns(weights, j, iteration) ensures j == k {
        OwnerIsUnique(weights, j, k, iteration);
      }
      PickedHasStretch(ws, k, iteration);
    }
  }

  lemma PickedHasStretch(weights: seq<int>, k: nat, iteration: nat)
    requires k < |weights| && Owns(weights, k, iteration)
    ensures forall shares :: IsShares(weights, shares) && Sum(shares) > 0 ==> HasStretch(shares, k, iteration)
  {
    forall shares | IsShares(weights, shares) && Sum(shares) > 0 ensures HasStretch(shares, k, iteration) {
      OwnerHasStretch(weights, shares, k, iteration);
    }
  }

  lemma OwnerIsUnique(weights: seq<int>, i: nat, j: nat, iteration: nat)
    requires i < |weights| && j < |weights|
    requires Owns(weights, i, iteration) && Owns(weights, j, iteration)
    ensures i == j
  {
    if i < j {
      CumulativeGrows(weights, i + 1, j);
    } else if j < i {
      CumulativeGrows(weights, j + 1, i);
    }
  }

  // ------------------------------------------------------------------- fairness

  /** How many of the iterations from, from+1, ..., from+n-1 pick scenario `i`. */
  ghost function Picks(weights: seq<int>, i: nat, from: nat, n: nat): nat
    requires i < |weights|
  {
    if n == 0 then 0
    else Picks(weights, i, from, n - 1) + (if Owns(weights, i, from + n - 1) then 1 else 0)
  }

  lemma {:induction false} PicksFromFirst(weights: seq<int>, i: nat, from: nat, n: nat)
    requires i < |weights| && n > 0
    ensures Picks(weights, i, from, n) == (if Owns(weights, i, from) then 1 else 0) + Picks(weights, i, from + 1, n - 1)
    decreases n
  {
    if n > 1 {
      PicksFromFirst(weights, i, from, n - 1);
    } else {
      assert Picks(weights, i, from, 0) == 0 && Picks(weights, i, from + 1, 0) == 0;
    }
  }

  lemma ModShift(a: nat, m: nat)
    requires m > 0
    ensures (a + m) % m == a % m
  {
    var q := a / m;
    assert a == q * m + a % m;
    ModIs(a + m, q + 1, a % m, m);
  }

  lemma ModIs(a: nat, q: nat, r: nat, m: nat)
    requires m > 0 && r < m && a == q * m + r
    ensures a % m == r
  {
    var d := a / m - q;
    assert a == (a / m) * m + a % m;
    assert d * m == r - a % m;
    assert d > 0 ==> d * m >= m;
    assert d < 0 ==> d * m + m <= 0;
  }

  /** The window may slide: a pick leaves it at one end exactly when one enters at the other. */
  lemma SlideByOne(weights: seq<int>, i: nat, from: nat)
    requires i < |weights|
    ensures Picks(weights, i, from, Total(weights)) == Picks(weights, i, from + 1, Total(weights))
  {
    var t := Total(weights);
    CumulativeGrows(weights, 0, |weights|);
    PicksFromFirst(weights, i, from, t);
    ModShift(from, t);
  }

  lemma {:induction false} SlideToZero(weights: seq<int>, i: nat, from: nat)
    requires i < |weights|
    ensures Picks(weights, i, from, Total(weights)) == Picks(weights, i, 0, Total(weights))
    decreases from
  {
    if from > 0 {
      SlideByOne(weights, i, from - 1);
      SlideToZero(weights, i, from - 1);
    }
  }

  /** Within the first cycle the picks of `i` are those between its cumulative weights. */
  lemma {:induction false} PicksInFirstCycle(weights: seq<int>, i: nat, n: nat)
    requires i < |weights| && n <= Total(weights)
    ensures var lo, hi := Cumulative(weights, i), Cumulative(weights, i + 1);
            Picks(weights, i, 0, n) == (if n <= lo then 0 else if n <= hi then n - lo else hi - lo)
    decreases n
  {
    if n > 0 {
      PicksInFirstCycle(weights, i, n - 1);
      ModIs(n - 1, 0, n - 1, Total(weights));
    }
  }

  lemma FairByEffective(weights: seq<int>, i: nat, from: nat)
    requires i < |weights|
    ensures Picks(weights, i, from, Total(weights)) == Effective(weights[i])
  {
    SlideToZero(weights, i, from);
    CumulativeGrows(weights, i + 1, |weights|);
    PicksInFirstCycle(weights, i, Total(weights));
  }

  /** Exact fairness: wherever a cycle starts, it picks a scenario with a positive weight exactly
      that often, and any other exactly once. A cycle is the sum of those numbers. */
  lemma Fair(weights: seq<int>, shares: seq<int>, i: nat, from: nat)
    requires IsShares(weights, shares) && i < |weights|
    ensures Sum(shares) > 0 && Picks(weights, i, from, Sum(shares)) == shares[i]
  {
    CumulativeGrows(weights, 0, |weights|);
    TotalIsSum(weights, shares);
    FairByEffective(weights, i, from);
  }

  /** With positive weights, any `sum(weights)` consecutive iterations pick each scenario exactly
      as often as its weight says. */
  lemma FairByWeight(weights: seq<int>, i: nat, from: nat)
    requires i < |weights| && forall k :: 0 <= k < |weights| ==> weights[k] > 0
    ensures Sum(weights) > 0 && Picks(weights, i, from, Sum(weights)) == weights[i]
  {
    Fair(weights, weights, i, from);
  }

  lemma {:induction false} PicksSplit(weights: seq<int>, i: nat, from: nat, a: nat, b: nat)
    requires i < |weights|
    ensures Picks(weights, i, from, a + b) == Picks(weights, i, from, a) + Picks(weights, i, from + a, b)
    decreases b
  {
    if b > 0 {
      PicksSplit(weights, i, from, a, b - 1);
    } else {
      assert Picks(weights, i, from + a, 0) == 0;
    }
  }

  lemma {:induction false} PicksShift(weights: seq<int>, i: nat, from: nat, n: nat)
    requires i < |weights|
    ensures Picks(weights, i, from + Total(weights), n) == Picks(weights, i, from, n)
    decreases n
  {
    CumulativeGrows(weights, 0, |weights|);
    if n > 0 {
      PicksShift(weights, i, from, n - 1);
      ModShift(from + n - 1, Total(weights));
    } else {
      assert Picks(weights, i, from + Total(weights), 0) == 0 && Picks(weights, i, from, 0) == 0;
    }
  }

  /** A cycle more adds the effective weight. */
  lemma OneCycleMore(weights: seq<int>, i: nat, n: nat)
    requires i < |weights|
    ensures Picks(weights, i, 0, n + Total(weights)) == Picks(weights, i, 0, n) + Effective(weights[i])
  {
    PicksSplit(weights, i, 0, Total(weights), n);
    PicksShift(weights, i, 0, n);
    FairByEffective(weights, i, 0);
  }

  /** `n` added up `times` times. */
  function Times(n: nat, times: nat): nat {
    if times == 0 then 0 else Times(n, times - 1) + n
  }

  lemma {:induction false} TimesIsProduct(n: nat, times: nat)
    ensures Times(n, times) == times * n
    decreases times
  {
    if times > 0 {
      TimesIsProduct(n, times - 1);
      assert times * n == (times - 1) * n + n;
    }
  }

  predicate Gains(f: nat -> int, period: nat, gain: nat, n: nat) {
    f(n + period) == f(n) + gain
  }

  /** What gains `gain` whenever `period` is added, gains it as often as that is added. */
  lemma {:induction false} GainsPerPeriod(f: nat -> int, period: nat, gain: nat, cycles: nat, more: nat)
    requires forall n: nat :: Gains(f, period, gain, n)
    ensures f(more + Times(period, cycles)) == f(more) + Times(gain, cycles)
    decreases cycles
  {
    if cycles > 0 {
      var less := more + Times(period, cycles - 1);
      GainsPerPeriod(f, period, gain, cycles - 1, more);
      assert Gains(f, period, gain, less);
      assert less + period == more + Times(period, cycles);
    }
  }

  /** The picks of a user that starts at iteration 0 and makes `cycles` whole cycles and `more`
      requests of the next: its share per cycle, and of the last cycle what lies behind the
      scenarios before `i`. */
  lemma PicksOfAUser(weights: seq<int>, shares: seq<int>, i: nat, cycles: nat, more: nat)
    requires IsShares(weights, shares) && i < |weights| && more < Sum(shares)
    ensures var before, own := Sum(shares[..i]), shares[i];
            && more + cycles * Sum(shares) >= 0
            && Picks(weights, i, 0, more + cycles * Sum(shares))
               == cycles * own + (if more <= before then 0 else if more <= before + own then more - before else own)
  {
    TotalIsSum(weights, shares);
    CumulativeIsSum(weights, shares, i);
    TimesIsProduct(Total(weights), cycles);
    TimesIsProduct(Effective(weights[i]), cycles);
    var f := (n: nat) => Picks(weights, i, 0, n);
    var period, gain := Total(weights), Effective(weights[i]);
    forall n: nat ensures Gains(f, period, gain, n) {
      OneCycleMore(weights, i, n);
    }
    GainsPerPeriod(f, period, gain, cycles, more);
    PicksInFirstCycle(weights, i, more);
  }

  // --------------------------------------------------------- the shared counter

  /** A user goroutine of `runByRequestCount`: about to decrement the counter, holding a
      request it was granted, or gone. */
  datatype User = Ready | Holding | Exhausted | Cancelled

  /** One executed request: whose, and which iteration of its own counter picked the scenario. */
  datatype Executed = Executed(user: nat, iteration: nat)

  datatype Counter = Counter(remaining: int, users: seq<User>, iterations: seq<nat>, results: seq<Executed>)

  ghost predicate Start(s: Counter, total: nat) {
    && s.remaining == total && s.results == [] && |s.iterations| == |s.users|
    && (forall u <- s.users :: u == Ready) && (forall n <- s.iterations :: n == 0)
  }

  /** `remaining.Add(-1) < 0` sends the user home, otherwise it holds a request. */
  ghost predicate Decrement(s: Counter, t: Counter, u: nat) {
    && u < |s.users| && s.users[u] == Ready
    && t == s.(remaining := s.remaining - 1,
               users := s.users[u := if s.remaining - 1 < 0 then Exhausted else Holding])
  }

  ghost predicate Execute(s: Counter, t: Counter, u: nat) {
    && u < |s.users| && u < |s.iterations| && s.users[u] == Holding
    && t == s.(users := s.users[u := Ready], iterations := s.iterations[u := s.iterations[u] + 1],
               results := s.results + [Executed(u, s.iterations[u])])
  }

  /** The context ends while a user waits or holds a request. */
  ghost predicate Cancel(s: Counter, t: Counter, u: nat) {
    && u < |s.users| && (s.users[u] == Ready || s.users[u] == Holding)
    && t == s.(users := s.users[u := Cancelled])
  }

  ghost predicate Next(s: Counter, t: Counter) {
    exists u: nat :: Decrement(s, t, u) || Execute(s, t, u) || Cancel(s, t, u)
  }

  function HowMany(users: seq<User>, kind: User): nat {
    if users == [] then 0
    else HowMany(users[..|users| - 1], kind) + (if users[|users| - 1] == kind then 1 else 0)
  }

  lemma {:induction false} HowManyUpdate(users: seq<User>, u: nat, new_: User, kind: User)
    requires u < |users|
    ensures HowMany(users[u := new_], kind)
         == HowMany(users, kind) - (if users[u] == kind then 1 else 0) + (if new_ == kind then 1 else 0)
    decreases |users|
  {
    var n := |users| - 1;
    if u < n {
      HowManyUpdate(users[..n], u, new_, kind);
      assert users[u := new_][..n] == users[..n][u := new_];
    } else {
      assert users[u := new_][..n] == users[..n];
    }
  }

  lemma {:induction false} HowManyNone(users: seq<User>, kind: User)
    ensures (forall u <- users :: u != kind) <==> HowMany(users, kind) == 0
    decreases |users|
  {
    if users != [] {
      var front, last := users[..|users| - 1], users[|users| - 1];
      HowManyNone(front, kind);
      assert last in users && (forall u <- front :: u in users) && (forall u <- users :: u in front || u == last);
    }
  }

  /** Every decrement is accounted for: executed, held, lost to cancellation, or one of the
      users that found the counter empty. */
  ghost predicate Accounts(s: Counter, total: nat) {
    var lost := total - s.remaining - |s.results| - HowMany(s.users, Holding) - HowMany(s.users, Exhausted);
    && 0 <= lost <= HowMany(s.users, Cancelled)
    && |s.results| + HowMany(s.users, Holding) + lost == (if s.remaining < 0 then total else total - s.remaining)
    && (HowMany(s.users, Exhausted) > 0 <==> s.remaining < 0)
  }

  lemma StartAccounts(s: Counter, total: nat)
    requires Start(s, total)
    ensures Accounts(s, total)
  {
    HowManyNone(s.users, Holding);
    HowManyNone(s.users, Exhausted);
    HowManyNone(s.users, Cancelled);
  }

  lemma NextAccounts(s: Counter, t: Counter, total: nat)
    requires Accounts(s, total) && Next(s, t)
    ensures Accounts(t, total)
  {
    var u: nat :| Decrement(s, t, u) || Execute(s, t, u) || Cancel(s, t, u);
    var v := t.users[u];
    HowManyUpdate(s.users, u, v, Holding);
    HowManyUpdate(s.users, u, v, Exhausted);
    HowManyUpdate(s.users, u, v, Cancelled);
  }

  /** In every run no more than `total` requests are executed, and exactly `total` once every
      user has found the counter empty, however many users there are. */
  lemma CounterIsExact(run: seq<Counter>, total: nat)
    requires Iteration.IsRun(Next, run) && Start(run[0], total)
    ensures forall s <- run :: |s.results| <= total
    ensures forall s <- run :: |s.users| > 0 && (forall u <- s.users :: u == Exhausted) ==> |s.results| == total
  {
    StartAccounts(run[0], total);
    var inv := (s: Counter) => Accounts(s, total);
    forall s: Counter, t: Counter | inv(s) && Next(s, t) ensures inv(t) {
      NextAccounts(s, t, total);
    }
    Iteration.RunKeeps(Next, inv, run);
    forall s | s in run && |s.users| > 0 && (forall u <- s.users :: u == Exhausted) ensures |s.results| == total {
      assert inv(s);
      HowManyNone(s.users, Holding);
      HowManyNone(s.users, Exhausted);
      HowManyNone(s.users, Cancelled);
      assert s.users[0] in s.users;
    }
  }

  // ------------------------------------------------------- which scenarios are run

  /** How many of the results are of user `u`, and of those, how many ran scenario `i`. */
  ghost function MadeBy(results: seq<Executed>, u: nat): nat {
    if results == [] then 0
    else MadeBy(results[..|results| - 1], u) + (if results[|results| - 1].user == u then 1 else 0)
  }

  ghost function PickedBy(weights: seq<int>, i: nat, results: seq<Executed>, u: nat): nat
    requires i < |weights|
  {
    if results == [] then 0
    else
      var last := results[|results| - 1];
      PickedBy(weights, i, results[..|results| - 1], u)
        + (if last.user == u && Owns(weights, i, last.iteration) then 1 else 0)
  }

  ghost function Picked(weights: seq<int>, i: nat, results: seq<Executed>): nat
    requires i < |weights|
  {
    if results == [] then 0
    else
      Picked(weights, i, results[..|results| - 1])
        + (if Owns(weights, i, results[|results| - 1].iteration) then 1 else 0)
  }

  /** The sum, over users, of the picks of as many iterations as each has made. */
  ghost function PicksOfUsers(weights: seq<int>, i: nat, iterations: seq<nat>): nat
    requires i < |weights|
  {
    if iterations == [] then 0
    else
      PicksOfUsers(weights, i, iterations[..|iterations| - 1])
        + Picks(weights, i, 0, iterations[|iterations| - 1])
  }

  lemma {:induction false} PicksOfUsersUpdate(weights: seq<int>, i: nat, iterations: seq<nat>, u: nat)
    requires i < |weights| && u < |iterations|
    ensures PicksOfUsers(weights, i, iterations[u := iterations[u] + 1])
         == PicksOfUsers(weights, i, iterations) + (if Owns(weights, i, iterations[u]) then 1 else 0)
    decreases |iterations|
  {
    var n, more := |iterations| - 1, iterations[u := iterations[u] + 1];
    if u < n {
      PicksOfUsersUpdate(weights, i, iterations[..n], u);
      assert more[..n] == iterations[..n][u := iterations[..n][u] + 1];
    } else {
      assert more[..n] == iterations[..n];
    }
  }

  lemma {:induction false} NothingPicked(weights: seq<int>, i: nat, iterations: seq<nat>)
    requires i < |weights| && forall n <- iterations :: n == 0
    ensures PicksOfUsers(weights, i, iterations) == 0
    decreases |iterations|
  {
    if iterations != [] {
      var front := iterations[..|iterations| - 1];
      assert forall n <- front :: n in iterations;
      NothingPicked(weights, i, front);
      assert iterations[|iterations| - 1] in iterations;
    }
  }

  /** Each user's results are its own first iterations, so its picks are those of a counter
      that starts at 0; the run's picks are the sum. */
  ghost predicate PicksAddUp(s: Counter, weights: seq<int>, i: nat)
    requires i < |weights|
  {
    && |s.iterations| == |s.users|
    && Picked(weights, i, s.results) == PicksOfUsers(weights, i, s.iterations)
    && forall u: nat :: u < |s.users| ==> UserAddsUp(s, weights, i, u)
  }

  ghost predicate UserAddsUp(s: Counter, weights: seq<int>, i: nat, u: nat)
    requires i < |weights| && u < |s.iterations|
  {
    && MadeBy(s.results, u) == s.iterations[u]
    && PickedBy(weights, i, s.results, u) == Picks(weights, i, 0, s.iterations[u])
  }

  lemma ExecuteAddsUp(s: Counter, t: Counter, weights: seq<int>, i: nat, u: nat)
    requires i < |weights| && PicksAddUp(s, weights, i) && Execute(s, t, u)
    ensures PicksAddUp(t, weights, i)
  {
    assert t.results[..|s.results|] == s.results;
    PicksOfUsersUpdate(weights, i, s.iterations, u);
    forall v: nat | v < |t.users| ensures UserAddsUp(t, weights, i, v) {
      assert UserAddsUp(s, weights, i, v);
    }
  }

  lemma NextAddsUp(s: Counter, t: Counter, weights: seq<int>, i: nat)
    requires i < |weights| && PicksAddUp(s, weights, i) && Next(s, t)
    ensures PicksAddUp(t, weights, i)
  {
    var u: nat :| Decrement(s, t, u) || Execute(s, t, u) || Cancel(s, t, u);
    if Execute(s, t, u) {
      ExecuteAddsUp(s, t, weights, i, u);
    } else {
      forall v: nat | v < |t.users| ensures UserAddsUp(t, weights, i, v) {
        assert UserAddsUp(s, weights, i, v);
      }
    }
  }

  /** In every state of every run a user that has made `n` requests has run scenario `i`
      exactly `Picks(weights, i, 0, n)` times, and all users together the sum of that: the
      weights are kept by each user's own counter, not by the run. */
  lemma EachUserIsFair(run: seq<Counter>, total: nat, weights: seq<int>, i: nat)
    requires i < |weights| && Iteration.IsRun(Next, run) && Start(run[0], total)
    ensures forall s <- run :: PicksAddUp(s, weights, i)
  {
    var inv := (s: Counter) => PicksAddUp(s, weights, i);
    NothingPicked(weights, i, run[0].iterations);
    forall u: nat | u < |run[0].users| ensures UserAddsUp(run[0], weights, i, u) {
      assert run[0].iterations[u] in run[0].iterations;
    }
    forall s: Counter, t: Counter | inv(s) && Next(s, t) ensures inv(t) {
      NextAddsUp(s, t, weights, i);
    }
    Iteration.RunKeeps(Next, inv, run);
  }

  lemma {:induction false} FirstIterationsPickTheFirst(weights: seq<int>, i: nat, iterations: seq<nat>)
    requires 0 < i < |weights| && forall n <- iterations :: n <= 1
    ensures PicksOfUsers(weights, i, iterations) == 0
    decreases |iterations|
  {
    if iterations != [] {
      var front, n := iterations[..|iterations| - 1], iterations[|iterations| - 1];
      assert n in iterations && forall n <- front :: n in iterations;
      FirstIterationsPickTheFirst(weights, i, front);
      CumulativeGrows(weights, 0, i);
      CumulativeGrows(weights, i, |weights|);
      PicksInFirstCycle(weights, i, n);
    }
  }

  /** So a run is not fair across users: where no user has made more than one request, only
      the first scenario has run, whatever the weights. */
  lemma OneRequestEach(run: seq<Counter>, total: nat, weights: seq<int>, i: nat, s: Counter)
    requires 0 < i < |weights| && Iteration.IsRun(Next, run) && Start(run[0], total) && s in run
    requires forall n <- s.iterations :: n <= 1
    ensures Picked(weights, i, s.results) == 0
  {
    EachUserIsFair(run, total, weights, i);
    FirstIterationsPickTheFirst(weights, i, s.iterations);
  }
}

// The client-side token bucket of WITH RATELIMIT, in exact arithmetic.

module RateLimiters {
  import opened Values

  // ---- one bucket, over a whole run -----------------------------------------

  datatype Bucket = Bucket(tokens: real, last: real)

  // Time passes, a response is charged, a request is sent.
  datatype Act = Refresh(now: real) | Consume(units: real) | Issue

  function Min(a: real, b: real): real {
    if a <= b then a else b
  }

  // Credit accrues at the rate and is capped at one second of it.
  function Refilled(tokens: real, elapsed: real, rate: real): real {
    Min(tokens + elapsed * rate, rate)
  }

  function Step(b: Bucket, a: Act, rate: real): Bucket {
    match a
    case Refresh(now) => Bucket(Refilled(b.tokens, now - b.last, rate), now)
    case Consume(units) => b.(tokens := b.tokens - units)
    case Issue => b
  }

  function Run(b: Bucket, acts: seq<Act>, rate: real): Bucket {
    if acts == [] then b else Step(Run(b, acts[..|acts| - 1], rate), acts[|acts| - 1], rate)
  }

  lemma RunSnoc(b: Bucket, acts: seq<Act>, a: Act, rate: real)
    ensures Run(b, acts + [a], rate) == Step(Run(b, acts, rate), a, rate)
  {
    assert (acts + [a])[..|acts + [a]| - 1] == acts;
  }

  function Spent(acts: seq<Act>): real {
    if acts == [] then 0.0
    else Spent(acts[..|acts| - 1]) + if acts[|acts| - 1].Consume? then acts[|acts| - 1].units else 0.0
  }

  lemma {:induction false} RunConcat(b: Bucket, x: seq<Act>, y: seq<Act>, rate: real)
    ensures Run(b, x + y, rate) == Run(Run(b, x, rate), y, rate)
    ensures Spent(x + y) == Spent(x) + Spent(y)
  {
    if y == [] {
      assert x + y == x;
    } else {
      var n := |y| - 1;
      RunConcat(b, x, y[..n], rate);
      assert (x + y)[..|x + y| - 1] == x + y[..n];
    }
  }

  // What was spent is covered by the tokens there were and the refills since.
  lemma {:induction false} SpentIsCovered(b: Bucket, acts: seq<Act>, rate: real)
    ensures Spent(acts) <= Credit(rate, b.last, Run(b, acts, rate).last) + b.tokens - Run(b, acts, rate).tokens
  {
    hide Credit, Step;
    if acts == [] {
      Distribute(rate, b.last, b.last, b.last);
    } else {
      var front := acts[..|acts| - 1];
      SpentIsCovered(b, front, rate);
      var mid := Run(b, front, rate);
      StepIsCovered(mid, acts[|acts| - 1], rate);
      Distribute(rate, b.last, mid.last, Run(b, acts, rate).last);
    }
  }

  // What one step spends is covered by what it refills and takes.
  lemma StepIsCovered(b: Bucket, a: Act, rate: real)
    ensures var after := Step(b, a, rate);
            (if a.Consume? then a.units else 0.0) <= Credit(rate, b.last, after.last) + b.tokens - after.tokens
  {
  }

  // What a bucket is refilled by, were it not capped.
  function Credit(rate: real, from: real, to: real): real {
    (to - from) * rate
  }

  lemma Distribute(rate: real, x: real, y: real, z: real)
    ensures Credit(rate, x, z) == Credit(rate, x, y) + Credit(rate, y, z)
  {
  }

  // No request is sent in debt. A rate of zero disables the bucket.
  ghost predicate Disciplined(b: Bucket, acts: seq<Act>, rate: real) {
    forall i | 0 <= i < |acts| && acts[i].Issue? :: rate == 0.0 || Run(b, acts[..i], rate).tokens >= 0.0
  }

  lemma DisciplinedSnoc(b: Bucket, acts: seq<Act>, a: Act, rate: real)
    requires Disciplined(b, acts, rate) && (a.Issue? ==> rate == 0.0 || Run(b, acts, rate).tokens >= 0.0)
    ensures Disciplined(b, acts + [a], rate)
  {
    forall i | 0 <= i < |acts + [a]| ensures (acts + [a])[..i] == if i < |acts| then acts[..i] else acts {
    }
  }

  lemma {:induction false} NeverAboveRate(b: Bucket, acts: seq<Act>, rate: real)
    requires b.tokens <= rate && forall a | a in acts && a.Consume? :: a.units >= 0.0
    ensures Run(b, acts, rate).tokens <= rate
  {
    if acts != [] {
      NeverAboveRate(b, acts[..|acts| - 1], rate);
      assert acts[|acts| - 1] in acts;
    }
  }

  // What may be spent in a time: the rate for that long, and for one second more.
  function Allowed(rate: real, time: real): real {
    rate * (time + 1.0)
  }

  // From one request to a later one, the units spent in between are at most the
  // rate times the time and one second; up to any later moment, what was spent
  // since the later request more.
  lemma WindowBound(b: Bucket, acts: seq<Act>, rate: real, i: nat, j: nat, k: nat)
    requires Disciplined(b, acts, rate) && rate > 0.0 && b.tokens <= rate
    requires forall a | a in acts && a.Consume? :: a.units >= 0.0
    requires i <= j < |acts| && acts[j].Issue? && j <= k <= |acts|
    ensures var span := Run(b, acts[..j], rate).last - Run(b, acts[..i], rate).last;
            && Spent(acts[i..j]) <= Allowed(rate, span)
            && Spent(acts[i..k]) <= Allowed(rate, span) + Spent(acts[j..k])
  {
    hide Run, Step, Spent;
    var one, two := Run(b, acts[..i], rate), Run(b, acts[..j], rate);
    var span := two.last - one.last;
    NeverAboveRate(b, acts[..i], rate);
    assert acts[..j] == acts[..i] + acts[i..j];
    RunConcat(b, acts[..i], acts[i..j], rate);
    SpentIsCovered(one, acts[i..j], rate);
    OneSecondMore(rate, span);
    assert Spent(acts[i..j]) <= rate * (span + 1.0) by {
      assert one.tokens <= rate && two.tokens >= 0.0;
    }
    assert acts[i..k] == acts[i..j] + acts[j..k];
    RunConcat(b, acts[i..j], acts[j..k], rate);
  }

  lemma OneSecondMore(rate: real, span: real)
    ensures rate * (span + 1.0) == rate * span + rate
  {
  }

  // ---- what each request was charged ----------------------------------------

  // The charge of every request sent, in order; none for those without one.
  function Costs(acts: seq<Act>): seq<Option<real>> {
    if acts == [] then [] else Charged(Costs(acts[..|acts| - 1]), acts[|acts| - 1])
  }

  function Charged(costs: seq<Option<real>>, a: Act): seq<Option<real>> {
    match a
    case Refresh(_) => costs
    case Issue => costs + [None]
    case Consume(units) =>
      var last := |costs| - 1;
      if costs == [] then [] else costs[last := Some(costs[last].GetOr(0.0) + units)]
  }

  function TotalCost(costs: seq<Option<real>>): real {
    if costs == [] then 0.0 else TotalCost(costs[..|costs| - 1]) + costs[|costs| - 1].GetOr(0.0)
  }

  lemma CostsSnoc(acts: seq<Act>, a: Act)
    ensures Costs(acts + [a]) == Charged(Costs(acts), a)
  {
    assert (acts + [a])[..|acts|] == acts;
  }

  lemma {:induction false} CostsRefreshed(before: seq<Act>, after: seq<Act>)
    requires OnlyRefreshes(before, after) || before == after
    ensures Costs(after) == Costs(before)
  {
    if |before| < |after| {
      CostsRefreshed(before, after[..|after| - 1]);
    }
  }

  // When the request of this number was sent, among what happened.
  function SentAs(acts: seq<Act>, m: nat): (i: nat)
    requires m < |Costs(acts)|
    ensures i < |acts| && acts[i].Issue?
  {
    var front := acts[..|acts| - 1];
    if m < |Costs(front)| then SentAs(front, m) else |acts| - 1
  }

  // What happened before a request was sent decides the charges before it.
  lemma {:induction false} CostsBefore(acts: seq<Act>, m: nat)
    requires m < |Costs(acts)|
    ensures Costs(acts[..SentAs(acts, m)]) == Costs(acts)[..m]
    ensures forall k: nat | k < m :: SentAs(acts[..SentAs(acts, m)], k) == SentAs(acts, k)
  {
    var front := acts[..|acts| - 1];
    var i := SentAs(acts, m);
    if m < |Costs(front)| {
      CostsBefore(front, m);
      assert acts[..i] == front[..i];
      assert forall k: nat | k < m :: SentAs(acts, k) == SentAs(front, k);
    } else {
      assert acts[..i] == front;
    }
  }

  lemma TotalCostSnoc(costs: seq<Option<real>>, c: Option<real>)
    ensures TotalCost(costs + [c]) == TotalCost(costs) + c.GetOr(0.0)
  {
    assert (costs + [c])[..|costs|] == costs;
  }

  lemma SpentSnoc(acts: seq<Act>, a: Act)
    ensures Spent(acts + [a]) == Spent(acts) + if a.Consume? then a.units else 0.0
  {
    assert (acts + [a])[..|acts|] == acts;
  }

  lemma LastCharged(costs: seq<Option<real>>, m: nat, units: real)
    requires m < |costs|
    ensures var last := |costs| - 1;
            TotalCost(costs[last := Some(costs[last].GetOr(0.0) + units)][m..]) == TotalCost(costs[m..]) + units
  {
    hide TotalCost;
    var last := |costs| - 1;
    var c := Some(costs[last].GetOr(0.0) + units);
    TotalCostSnoc(costs[m..last], c);
    TotalCostSnoc(costs[m..last], costs[last]);
    assert costs[m..last] + [c] == costs[last := c][m..];
    assert costs[m..last] + [costs[last]] == costs[m..];
  }

  lemma ChargedTotal(costs: seq<Option<real>>, a: Act, m: nat)
    requires m < |costs|
    ensures m <= |Charged(costs, a)|
    ensures TotalCost(Charged(costs, a)[m..]) == TotalCost(costs[m..]) + if a.Consume? then a.units else 0.0
  {
    hide TotalCost;
    match a {
      case Refresh(_) =>
      case Issue =>
        assert (costs + [None])[m..] == costs[m..] + [None];
        TotalCostSnoc(costs[m..], None);
      case Consume(units) =>
        LastCharged(costs, m, units);
    }
  }

  lemma {:induction false} CostsAfter(acts: seq<Act>, m: nat)
    requires m < |Costs(acts)|
    ensures TotalCost(Costs(acts)[m..]) == Spent(acts[SentAs(acts, m)..])
  {
    var front, last := acts[..|acts| - 1], acts[|acts| - 1];
    var i, before := SentAs(acts, m), Costs(front);
    CostsSnoc(front, last);
    assert front + [last] == acts;
    if m < |before| {
      CostsAfter(front, m);
      SentEarlier(front, last, m);
      hide TotalCost, Spent, Costs, SentAs, Charged;
      assert acts[i..] == front[i..] + [last];
      SpentSnoc(front[i..], last);
      ChargedTotal(before, last, m);
    } else {
      assert last == Issue && i == |acts| - 1;
      assert Costs(acts)[m..] == [] + [None] && acts[i..] == [] + [Issue];
      TotalCostSnoc([], None);
      SpentSnoc([], Issue);
    }
  }

  lemma SentEarlier(front: seq<Act>, last: Act, m: nat)
    requires m < |Costs(front)| && m < |Costs(front + [last])|
    ensures SentAs(front + [last], m) == SentAs(front, m)
  {
    assert (front + [last])[..|front|] == front;
  }

  predicate FairActs(acts: seq<Act>) {
    forall a | a in acts && a.Consume? :: a.units >= 0.0
  }

  predicate Fair(costs: seq<Option<real>>) {
    forall c | c in costs && c.Some? :: c.value >= 0.0
  }

  function SentAt(b: Bucket, acts: seq<Act>, rate: real, m: nat): real
    requires m < |Costs(acts)|
  {
    Run(b, acts[..SentAs(acts, m)], rate).last
  }

  // From one request to a later one, the charges in between are at most the rate times
  // the time and one second.
  lemma RateIsKept(b: Bucket, acts: seq<Act>, rate: real, m: nat, n: nat)
    requires Disciplined(b, acts, rate) && rate > 0.0 && b.tokens <= rate && FairActs(acts)
    requires m <= n < |Costs(acts)|
    ensures TotalCost(Costs(acts)[m..n]) <=
            Allowed(rate, SentAt(b, acts, rate, n) - SentAt(b, acts, rate, m))
  {
    CostsBetween(acts, m, n);
    hide Run, Step, Spent, TotalCost, Costs, SentAs, Disciplined, FairActs, Allowed;
    var i, j := SentAs(acts, m), SentAs(acts, n);
    WindowBound(b, acts, rate, i, j, j);
  }

  lemma CostsBetween(acts: seq<Act>, m: nat, n: nat)
    requires m <= n < |Costs(acts)|
    ensures SentAs(acts, m) <= SentAs(acts, n)
    ensures TotalCost(Costs(acts)[m..n]) == Spent(acts[SentAs(acts, m)..SentAs(acts, n)])
  {
    var i, j := SentAs(acts, m), SentAs(acts, n);
    CostsBefore(acts, n);
    if m < n {
      var before := acts[..j];
      assert Costs(acts)[m..n] == Costs(before)[m..];
      CostsAfter(before, m);
      assert before[i..] == acts[i..j];
    } else {
      assert Costs(acts)[m..n] == [] && acts[j..j] == [];
    }
  }

  // With a negative rate the limit loop never ends: its test, after each refresh, finds
  // the bucket in debt, however often it has refreshed.
  lemma NegativeRate(b: Bucket, acts: seq<Act>, refreshes: seq<Act>, rate: real)
    requires rate < 0.0 && forall a | a in refreshes :: a.Refresh?
    ensures forall i | 0 < i <= |refreshes| :: Run(b, acts + refreshes[..i], rate).tokens < 0.0
  {
  }

  // ---- the limiter ----------------------------------------------------------

  // A monotonic source of seconds, and a sleep that lasts at least as long as asked.
  class Clock {
    var now: real
    ghost var asked: real  // for how long it was asked to sleep

    method Read() returns (t: real)
      modifies this`now
      ensures t == now >= old(now)
    {
      var gap: real := *;
      if gap > 0.0 {
        now := now + gap;
      }
      t := now;
    }

    method Sleep(seconds: real)
      modifies this
      ensures now >= old(now) && now >= old(now) + seconds
      ensures asked == old(asked) + (if seconds > 0.0 then seconds else 0.0)
    {
      asked := asked + (if seconds > 0.0 then seconds else 0.0);
      var gap: real := *;
      now := now + (if seconds > 0.0 then seconds else 0.0) + (if gap > 0.0 then gap else 0.0);
    }
  }

  class RateLimiter {
    const rcu: real
    const wcu: real
    const clock: Clock
    var readTokens: real
    var writeTokens: real
    var last: real
    // What happened so far, for each bucket.
    ghost var start: real
    ghost var readActs: seq<Act>
    ghost var writeActs: seq<Act>

    ghost predicate Valid()
      reads this, clock
    {
      && rcu >= 0.0 && wcu >= 0.0
      && start <= last <= clock.now
      && Run(Bucket(0.0, start), readActs, rcu) == Bucket(readTokens, last)
      && Run(Bucket(0.0, start), writeActs, wcu) == Bucket(writeTokens, last)
      && Disciplined(Bucket(0.0, start), readActs, rcu) && Disciplined(Bucket(0.0, start), writeActs, wcu)
    }

    constructor (rcu: real, wcu: real, clock: Clock)
      requires rcu >= 0.0 && wcu >= 0.0
      modifies clock`now
      ensures Valid() && this.rcu == rcu && this.wcu == wcu && this.clock == clock
      ensures readActs == [] && writeActs == [] && writeTokens == readTokens == 0.0
    {
      this.rcu, this.wcu, this.clock := rcu, wcu, clock;
      readTokens, writeTokens := 0.0, 0.0;
      readActs, writeActs := [], [];
      new;
      last := this.clock.Read();
      start := last;
    }

    // The total capacity of a response; none counts as nothing.
    method ConsumeReads(units: Option<real>)
      requires Valid()
      modifies this
      ensures Valid() && writeActs == old(writeActs) && writeTokens == old(writeTokens) && start == old(start)
      ensures readActs == old(readActs) + (if units.Some? then [Consume(units.value)] else [])
    {
      if units.Some? {
        readTokens := readTokens - units.value;
        DisciplinedSnoc(Bucket(0.0, start), readActs, Consume(units.value), rcu);
        readActs := readActs + [Consume(units.value)];
        assert readActs[..|readActs| - 1] == old(readActs);
      }
    }

    method ConsumeWrites(units: Option<real>)
      requires Valid()
      modifies this
      ensures Valid() && readActs == old(readActs) && readTokens == old(readTokens) && start == old(start)
      ensures writeActs == old(writeActs) + (if units.Some? then [Consume(units.value)] else [])
    {
      if units.Some? {
        writeTokens := writeTokens - units.value;
        DisciplinedSnoc(Bucket(0.0, start), writeActs, Consume(units.value), wcu);
        writeActs := writeActs + [Consume(units.value)];
        assert writeActs[..|writeActs| - 1] == old(writeActs);
      }
    }

    method RefreshBuckets()
      requires Valid()
      modifies this, clock`now
      ensures Valid() && clock.now >= old(clock.now) && last == clock.now && start == old(start)
      ensures readActs == old(readActs) + [Refresh(last)] && writeActs == old(writeActs) + [Refresh(last)]
      ensures readTokens == Refilled(old(readTokens), last - old(last), rcu)
      ensures writeTokens == Refilled(old(writeTokens), last - old(last), wcu)
    {
      hide Refilled, Disciplined, Run;
      var now := clock.Read();
      var elapsed := now - last;
      RunSnoc(Bucket(0.0, start), readActs, Refresh(now), rcu);
      RunSnoc(Bucket(0.0, start), writeActs, Refresh(now), wcu);
      readTokens := Refilled(readTokens, elapsed, rcu);
      writeTokens := Refilled(writeTokens, elapsed, wcu);
      last := now;
      DisciplinedSnoc(Bucket(0.0, start), readActs, Refresh(now), rcu);
      DisciplinedSnoc(Bucket(0.0, start), writeActs, Refresh(now), wcu);
      readActs, writeActs := readActs + [Refresh(now)], writeActs + [Refresh(now)];
    }

    // A request is sent: not in debt.
    ghost method SendRead()
      requires Valid() && (rcu == 0.0 || readTokens >= 0.0)
      modifies this
      ensures Valid() && readActs == old(readActs) + [Issue] && writeActs == old(writeActs) && start == old(start)
      ensures readTokens == old(readTokens) && writeTokens == old(writeTokens)
    {
      DisciplinedSnoc(Bucket(0.0, start), readActs, Issue, rcu);
      readActs := readActs + [Issue];
      assert readActs[..|readActs| - 1] == old(readActs);
    }

    ghost method SendWrite()
      requires Valid() && (wcu == 0.0 || writeTokens >= 0.0)
      modifies this
      ensures Valid() && writeActs == old(writeActs) + [Issue] && readActs == old(readActs) && start == old(start)
      ensures readTokens == old(readTokens) && writeTokens == old(writeTokens)
    {
      DisciplinedSnoc(Bucket(0.0, start), writeActs, Issue, wcu);
      writeActs := writeActs + [Issue];
      assert writeActs[..|writeActs| - 1] == old(writeActs);
    }

    // Both limits only add refreshes, the last of them at the moment of return, and
    // leave the bucket out of debt unless its rate is zero. They end: the first
    // sleep repays the debt.
    method ReadLimit()
      requires Valid()
      modifies this, clock
      ensures Valid() && start == old(start) && OnlyRefreshes(old(readActs), readActs)
              && OnlyRefreshes(old(writeActs), writeActs)
      ensures rcu == 0.0 || readTokens >= 0.0
      ensures clock.asked <= old(clock.asked) + Repayment(old(readTokens), rcu)
    {
      hide Refilled, Run, Repayment;
      ghost var owed, since := readTokens, last;
      RefreshBuckets();
      LessOwed(owed, rcu, last - since);
      if rcu == 0.0 || readTokens >= 0.0 {
        return;
      }
      var again := true;
      while again
        invariant Valid() && start == old(start)
        invariant OnlyRefreshes(old(readActs), readActs) && OnlyRefreshes(old(writeActs), writeActs)
        invariant again <==> readTokens < 0.0
        invariant clock.asked <= old(clock.asked) +
                  (if again then Repayment(owed, rcu) - Repayment(readTokens, rcu) else Repayment(owed, rcu))
        decreases again
      {
        ghost var debt, before := readTokens, last;
        clock.Sleep(-readTokens / rcu);
        RefreshBuckets();
        RepaidAfter(debt, rcu, last - before);
        RepaymentIs(debt, rcu);
        again := readTokens < 0.0;
      }
    }

    method WriteLimit()
      requires Valid()
      modifies this, clock
      ensures Valid() && start == old(start) && OnlyRefreshes(old(readActs), readActs)
              && OnlyRefreshes(old(writeActs), writeActs)
      ensures wcu == 0.0 || writeTokens >= 0.0
      ensures clock.asked <= old(clock.asked) + Repayment(old(writeTokens), wcu)
    {
      hide Refilled, Run, Repayment;
      ghost var owed, since := writeTokens, last;
      RefreshBuckets();
      LessOwed(owed, wcu, last - since);
      if wcu == 0.0 || writeTokens >= 0.0 {
        return;
      }
      var again := true;
      while again
        invariant Valid() && start == old(start)
        invariant OnlyRefreshes(old(readActs), readActs) && OnlyRefreshes(old(writeActs), writeActs)
        invariant again <==> writeTokens < 0.0
        invariant clock.asked <= old(clock.asked) +
                  (if again then Repayment(owed, wcu) - Repayment(writeTokens, wcu) else Repayment(owed, wcu))
        decreases again
      {
        ghost var debt, before := writeTokens, last;
        clock.Sleep(-writeTokens / wcu);
        RefreshBuckets();
        RepaidAfter(debt, wcu, last - before);
        RepaymentIs(debt, wcu);
        again := writeTokens < 0.0;
      }
    }
  }

  // How long the rate takes to repay a debt.
  function Repayment(tokens: real, rate: real): real {
    if rate == 0.0 || tokens >= 0.0 then 0.0 else -tokens / rate
  }

  lemma RepaymentIs(tokens: real, rate: real)
    requires tokens < 0.0 < rate
    ensures Repayment(tokens, rate) == -tokens / rate > 0.0
  {
  }

  // Time passing leaves less to repay.
  lemma LessOwed(tokens: real, rate: real, elapsed: real)
    requires rate >= 0.0 && elapsed >= 0.0
    ensures 0.0 <= Repayment(Refilled(tokens, elapsed, rate), rate) <= Repayment(tokens, rate)
  {
    var now := Refilled(tokens, elapsed, rate);
    assert elapsed * rate >= 0.0;
    if rate > 0.0 && now < 0.0 {
      assert tokens <= now;
      assert -now / rate <= -tokens / rate;
    }
  }

  ghost predicate OnlyRefreshes(before: seq<Act>, after: seq<Act>) {
    |before| < |after| && before == after[..|before|] && forall i | |before| <= i < |after| :: after[i].Refresh?
  }

  // Sleeping for debt over rate earns the debt.
  lemma RepaidAfter(tokens: real, rate: real, elapsed: real)
    requires tokens < 0.0 < rate && elapsed >= -tokens / rate
    ensures Refilled(tokens, elapsed, rate) >= 0.0
  {
    assert elapsed * rate >= (-tokens / rate) * rate == -tokens;
  }
}

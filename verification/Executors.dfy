// The UPDATE and DELETE executors over the service, a prefix source and a clock:
// the loops, tied to the functions of the world they run in.

module Executors {
  import opened Values
  import opened Expressions
  import opened Access
  import opened SingleItem
  import opened Symbols
  import opened Wheres
  import opened Updates
  import opened Requests
  import opened Planner
  import opened RateLimiters
  import opened Service
  import opened BulkWrites
  import opened Explains

  // ---- alias prefixes -------------------------------------------------------

  // a to z, then A to Z.
  function Letter(i: nat): char
    requires i < 52
  {
    if i < 26 then ('a' as int + i) as char else ('A' as int + (i - 26)) as char
  }

  // Three digits in base 52, the lowest first.
  function UniquePrefix(counter: nat): (prefix: string)
    ensures CleanPrefix(prefix)
  {
    [Letter(counter % 52), Letter(counter / 52 % 52), Letter(counter / 2704 % 52)]
  }

  // Two requests share a prefix exactly when their counters differ by a multiple of 52 * 52 * 52.
  lemma PrefixRepeats(a: nat, b: nat)
    ensures UniquePrefix(a) == UniquePrefix(b) <==> a % 140608 == b % 140608
  {
    var x, y := UniquePrefix(a), UniquePrefix(b);
    if x == y {
      assert x[0] == y[0] && x[1] == y[1] && x[2] == y[2];
    }
    Digits(a);
    Digits(b);
  }

  lemma Digits(a: nat)
    ensures a % 140608 == a % 52 + 52 * (a / 52 % 52) + 2704 * (a / 2704 % 52)
    ensures a % 140608 % 52 == a % 52 && a % 140608 / 52 % 52 == a / 52 % 52 && a % 140608 / 2704 % 52 == a / 2704 % 52
  {
    var p, q, r := a % 52, a / 52 % 52, a / 2704 % 52;
    var t := a / 140608;
    assert a / 52 / 52 == a / 2704 && a / 2704 / 52 == t;
    assert a == 140608 * t + 2704 * r + 52 * q + p;
  }

  class PrefixSource {
    var counter: nat

    method Next() returns (prefix: string)
      modifies this
      ensures prefix == UniquePrefix(old(counter)) && counter == old(counter) + 1
    {
      prefix := UniquePrefix(counter);
      counter := counter + 1;
    }
  }

  // ---- the requests a limiter saw -------------------------------------------

  function Footprint(limiter: RateLimiter?): set<object> {
    if limiter == null then {} else {limiter, limiter.clock}
  }

  // The limiter saw every request since the world was `base`, each with its charge, and
  // none was sent in debt.
  ghost predicate Metered(limiter: RateLimiter?, base: World, w: World)
    reads Footprint(limiter)
  {
    limiter != null ==>
      && limiter.Valid()
      && w.writeCosts == base.writeCosts + Costs(limiter.writeActs)
      && w.readCosts == base.readCosts + Costs(limiter.readActs)
      && (Fair(w.writeCosts) ==> FairActs(limiter.writeActs)) && (Fair(w.readCosts) ==> FairActs(limiter.readActs))
  }

  // Between any two writes, and any two reads, since then, the units charged are at most
  // the rate times the time and one second.
  ghost predicate Paced(limiter: RateLimiter, base: World, w: World)
    requires Metered(limiter, base, w)
    reads limiter, limiter.clock
  {
    var b := Bucket(0.0, limiter.start);
    var writes, reading := Costs(limiter.writeActs), Costs(limiter.readActs);
    && (Fair(w.writeCosts) && limiter.wcu > 0.0 ==>
          forall m, n | 0 <= m <= n < |writes| ::
            TotalCost(w.writeCosts[|base.writeCosts| + m..|base.writeCosts| + n]) <=
            Allowed(limiter.wcu, SentAt(b, limiter.writeActs, limiter.wcu, n)
                                 - SentAt(b, limiter.writeActs, limiter.wcu, m)))
    && (Fair(w.readCosts) && limiter.rcu > 0.0 ==>
          forall m, n | 0 <= m <= n < |reading| ::
            TotalCost(w.readCosts[|base.readCosts| + m..|base.readCosts| + n]) <=
            Allowed(limiter.rcu, SentAt(b, limiter.readActs, limiter.rcu, n)
                                 - SentAt(b, limiter.readActs, limiter.rcu, m)))
  }

  lemma MeteredIsPaced(limiter: RateLimiter, base: World, w: World)
    requires Metered(limiter, base, w)
    ensures Paced(limiter, base, w)
  {
    hide Allowed, SentAt, TotalCost, Costs, Disciplined, Run;
    var b := Bucket(0.0, limiter.start);
    if Fair(w.writeCosts) && limiter.wcu > 0.0 {
      CostsPaced(b, limiter.writeActs, limiter.wcu, base.writeCosts, w.writeCosts);
    }
    if Fair(w.readCosts) && limiter.rcu > 0.0 {
      CostsPaced(b, limiter.readActs, limiter.rcu, base.readCosts, w.readCosts);
    }
  }

  lemma CostsPaced(b: Bucket, acts: seq<Act>, rate: real, before: seq<Option<real>>, costs: seq<Option<real>>)
    requires Disciplined(b, acts, rate) && rate > 0.0 && b.tokens <= rate && FairActs(acts)
    requires costs == before + Costs(acts)
    ensures forall m, n | 0 <= m <= n < |Costs(acts)| ::
              TotalCost(costs[|before| + m..|before| + n]) <=
              Allowed(rate, SentAt(b, acts, rate, n) - SentAt(b, acts, rate, m))
  {
    hide Allowed, SentAt, TotalCost, Costs, Disciplined, Run, FairActs;
    forall m, n | 0 <= m <= n < |Costs(acts)|
      ensures TotalCost(costs[|before| + m..|before| + n]) <=
              Allowed(rate, SentAt(b, acts, rate, n) - SentAt(b, acts, rate, m))
    {
      RateIsKept(b, acts, rate, m, n);
      assert costs[|before| + m..|before| + n] == Costs(acts)[m..n];
    }
  }

  // ---- one write ------------------------------------------------------------

  // A request sent, and then perhaps charged: one cost more.
  lemma SentAndCharged(acts: seq<Act>, before: seq<Option<real>>, costs: seq<Option<real>>, units: Option<real>)
    requires costs == before + Costs(acts) && (Fair(costs) ==> FairActs(acts))
    ensures var all := acts + [Issue] + (if units.Some? then [Consume(units.value)] else []);
            costs + [units] == before + Costs(all) && (Fair(costs + [units]) ==> FairActs(all))
  {
    CostsSnoc(acts, Issue);
    if Fair(costs + [units]) {
      assert (costs + [units])[|costs|] == units;
      forall c | c in costs ensures c in costs + [units] {
      }
    }
    if units.Some? {
      CostsSnoc(acts + [Issue], Consume(units.value));
      hide Costs;
      var front := Costs(acts) + [None];
      assert front[|front| - 1 := Some(0.0 + units.value)] == Costs(acts) + [units];
    } else {
      assert acts + [Issue] + [] == acts + [Issue];
    }
  }

  lemma Refreshed(before: seq<Act>, after: seq<Act>)
    requires OnlyRefreshes(before, after) || before == after
    ensures Costs(after) == Costs(before) && (FairActs(before) ==> FairActs(after))
  {
    CostsRefreshed(before, after);
    if FairActs(before) {
      forall a | a in after && a.Consume? ensures a.units >= 0.0 {
        var i :| 0 <= i < |after| && after[i] == a;
        assert a in before;
      }
    }
  }

  lemma WriteIsSent(law: Law, w: World, r: WriteRequest)
    ensures var done := WriteItem(law, w, r);
            && done.0.issued == w.issued + [Writing(r)] && done.0.readCosts == w.readCosts
            && done.0.writeCosts == w.writeCosts + [if done.1.Ok? then done.2 else None]
  {
  }

  lemma ReadIsSent(law: Law, w: World, r: ReadRequest)
    ensures var page := ReadPage(law, w, r);
            && page.0.issued == w.issued + [Reading(r)] && page.0.writeCosts == w.writeCosts
            && page.0.readCosts == w.readCosts + [if page.1.Ok? then page.1.value.units else None]
  {
  }

  // The write limit comes before the write, the charge after its success.
  method WriteMetered(client: Client, r: WriteRequest, limiter: RateLimiter?, ghost base: World)
    returns (outcome: Result<Option<Item>, Failure>)
    requires Metered(limiter, base, client.world)
    modifies client, Footprint(limiter)
    ensures (client.world, outcome) ==
            (WriteItem(client.law, old(client.world), r).0, WriteItem(client.law, old(client.world), r).1)
    ensures Metered(limiter, base, client.world)
  {
    hide Costs, WriteItem, Run, Disciplined, Fair, FairActs;
    ghost var acts: seq<Act> := [];
    if limiter != null {
      LimitWrites(limiter, base, client.world);
      acts := limiter.writeActs;
      limiter.SendWrite();
    }
    WriteIsSent(client.law, client.world, r);
    ghost var costs := client.world.writeCosts;
    var units;
    outcome, units := client.Write(r);
    if limiter != null {
      SentAndCharged(acts, base.writeCosts, costs, if outcome.Ok? then units else None);
      assert acts + [Issue] + [] == acts + [Issue];
      if outcome.Ok? {
        limiter.ConsumeWrites(units);
      }
    }
  }

  method LimitWrites(limiter: RateLimiter, ghost base: World, ghost w: World)
    requires Metered(limiter, base, w)
    modifies limiter, limiter.clock
    ensures Metered(limiter, base, w) && (limiter.wcu == 0.0 || limiter.writeTokens >= 0.0)
  {
    ghost var reading, writes := limiter.readActs, limiter.writeActs;
    limiter.WriteLimit();
    Refreshed(reading, limiter.readActs);
    Refreshed(writes, limiter.writeActs);
  }

  // ---- a page of writes -----------------------------------------------------

  method RunPage(client: Client, rows: seq<Item>, template: WriteRequest, wantReturned: bool, start: Acct,
                 limiter: RateLimiter?, ghost base: World)
    returns (result: Result<Acct, Failure>)
    requires Metered(limiter, base, client.world)
    modifies client, Footprint(limiter)
    ensures (client.world, result) == RunRows(client.law, old(client.world), rows, template, wantReturned, start)
    ensures Metered(limiter, base, client.world)
  {
    hide WriteItem, Metered, Counted;
    ghost var law, all := client.law, RunRows(client.law, client.world, rows, template, wantReturned, start);
    var acct := start;
    for i := 0 to |rows|
      invariant Metered(limiter, base, client.world)
      invariant all == RunRows(law, client.world, rows[i..], template, wantReturned, acct)
    {
      assert rows[i..][0] == rows[i] && rows[i..][1..] == rows[i + 1..];
      var outcome := WriteMetered(client, template.(key := rows[i]), limiter, base);
      if Fatal(outcome) {
        return Err(outcome.error);
      }
      acct := Counted(acct, outcome, wantReturned);
    }
    result := Ok(acct);
  }

  method ReadMetered(client: Client, r: ReadRequest, limiter: RateLimiter?, ghost base: World)
    returns (page: Result<Page, Failure>)
    requires Metered(limiter, base, client.world)
    requires limiter != null ==> limiter.rcu == 0.0 || limiter.readTokens >= 0.0
    modifies client, Footprint(limiter)
    ensures (client.world, page) == ReadPage(client.law, old(client.world), r)
    ensures Metered(limiter, base, client.world)
  {
    hide Costs, ReadPage, Run, Disciplined, Fair, FairActs;
    ghost var acts: seq<Act> := [];
    if limiter != null {
      acts := limiter.readActs;
      limiter.SendRead();
    }
    ReadIsSent(client.law, client.world, r);
    ghost var costs := client.world.readCosts;
    page := client.ReadItems(r);
    if limiter != null {
      SentAndCharged(acts, base.readCosts, costs, if page.Ok? then page.value.units else None);
      assert acts + [Issue] + [] == acts + [Issue];
      if page.Ok? {
        limiter.ConsumeReads(page.value.units);
      }
    }
  }

  // ---- the paged loops ------------------------------------------------------

  method RunBulk(client: Client, read: ReadRequest, template: WriteRequest, wantReturned: bool, limiter: RateLimiter?,
                 ghost base: World)
    returns (result: Result<Acct, Failure>)
    requires Metered(limiter, base, client.world)
    requires limiter != null ==> limiter.rcu == 0.0 || limiter.readTokens >= 0.0
    modifies client, Footprint(limiter)
    ensures (client.world, result) ==
            RunPages(client.law, old(client.world), read, template, wantReturned, Acct(0, 0, 0, []))
    ensures Metered(limiter, base, client.world)
  {
    hide ReadPage, RunRows;
    ghost var law := client.law;
    ghost var all := RunPages(law, client.world, read, template, wantReturned, Acct(0, 0, 0, []));
    var acct, request, more := Acct(0, 0, 0, []), read, true;
    while more
      invariant Metered(limiter, base, client.world)
      invariant more && limiter != null ==> limiter.rcu == 0.0 || limiter.readTokens >= 0.0
      invariant if more then all == RunPages(law, client.world, request, template, wantReturned, acct)
                else all == (client.world, Ok(acct))
      decreases more, |client.world.turns|
    {
      ReadIssues(law, client.world, request);
      var page := ReadMetered(client, request, limiter, base);
      if page.Err? {
        return Err(page.error);
      }
      RowsUseTurns(law, client.world, page.value.rows, template, wantReturned, acct);
      var done := RunPage(client, page.value.rows, template, wantReturned, acct, limiter, base);
      if done.Err? {
        return Err(done.error);
      }
      acct := done.value;
      if page.value.last.None? || page.value.last.value == map[] {
        more := false;
      } else {
        request := request.(startKey := page.value.last);
        if limiter != null {
          ThrottleReads(limiter, base, client.world);
        }
      }
    }
    result := Ok(acct);
  }

  method ThrottleReads(limiter: RateLimiter, ghost base: World, ghost w: World)
    requires Metered(limiter, base, w)
    modifies limiter, limiter.clock
    ensures Metered(limiter, base, w) && (limiter.rcu == 0.0 || limiter.readTokens >= 0.0)
  {
    ghost var before, beforeW := limiter.readActs, limiter.writeActs;
    limiter.ReadLimit();
    Refreshed(before, limiter.readActs);
    Refreshed(beforeW, limiter.writeActs);
  }

  method ExplainRequestInto(client: Client, r: Request,
                            blocks: seq<Block>) returns (result: Result<seq<Block>, Failure>)
    modifies client
    ensures (client.world, result) == ExplainOne(client.law, old(client.world), r, blocks)
  {
    var body := client.Explain(r);
    result := match body
      case None => Err(Unexplained)
      case Some(text) => Ok(blocks + [Block(Api(r), text)]);
  }

  method ExplainBulk(client: Client, read: ReadRequest, template: WriteRequest, eachPage: bool, start: seq<Block>)
    returns (result: Result<seq<Block>, Failure>)
    modifies client
    ensures (client.world, result) == ExplainPages(client.law, old(client.world), read, template, eachPage, start)
  {
    hide ReadPage, ExplainOne;
    ghost var law := client.law;
    ghost var all := ExplainPages(law, client.world, read, template, eachPage, start);
    var blocks, request, more := start, read, true;
    while more
      invariant if more then all == ExplainPages(law, client.world, request, template, eachPage, blocks)
                else all == (client.world, Ok(blocks))
      decreases more, |client.world.turns|
    {
      ghost var before := client.world;
      OneShows(law, before, Reading(request), blocks);
      if eachPage {
        var shown := ExplainRequestInto(client, Reading(request), blocks);
        if shown.Err? {
          return shown;
        }
        blocks := shown.value;
      }
      ReadIssues(law, client.world, request);
      var page := client.ReadItems(request);
      if page.Err? {
        return Err(page.error);
      }
      RowsOnlyExplain(law, client.world, page.value.rows, template, blocks);
      var done := ExplainPage(client, page.value.rows, template, blocks);
      if done.Err? {
        return done;
      }
      blocks := done.value;
      if page.value.last.None? || page.value.last.value == map[] {
        more := false;
      } else {
        request := request.(startKey := page.value.last);
      }
    }
    result := Ok(blocks);
  }

  method ExplainPage(client: Client, rows: seq<Item>, template: WriteRequest, start: seq<Block>)
    returns (result: Result<seq<Block>, Failure>)
    modifies client
    ensures (client.world, result) == ExplainRows(client.law, old(client.world), rows, template, start)
  {
    hide ExplainOne;
    ghost var law, all := client.law, ExplainRows(client.law, client.world, rows, template, start);
    var blocks := start;
    for i := 0 to |rows|
      invariant all == ExplainRows(law, client.world, rows[i..], template, blocks)
    {
      assert rows[i..][0] == rows[i] && rows[i..][1..] == rows[i + 1..];
      var shown := ExplainRequestInto(client, Writing(template.(key := rows[i])), blocks);
      if shown.Err? {
        return shown;
      }
      blocks := shown.value;
    }
    result := Ok(blocks);
  }

  // ---- the statements -------------------------------------------------------

  datatype Schema = Schema(pk: seq<string>, rk: seq<string>)

  // A DELETE has no mutation.
  datatype Command = Command(table: string, index: Option<string>, mutation: Option<Mutation>, upsert: bool,
                             wantReturned: bool, rate: Option<(real, real)>)
  {
    predicate IsUpdate() {
      mutation.Some? && !upsert
    }

    function Metering(): Capacity {
      if rate.Some? then Total else NoCapacity
    }
  }

  datatype Report = Account(acct: Acct) | Explained(blocks: seq<Block>)

  function TemplateOf(cmd: Command, where: Option<Expr>, base: Schema, prefix: string): WriteRequest {
    WriteRequestOf(cmd.table, cmd.mutation, cmd.mutation.Some? && !cmd.upsert, where, First(base.pk), First(base.rk),
                   cmd.Metering(), prefix)
  }

  function ReadOf(cmd: Command, where: Option<Expr>, plan: Option<QueryKeyPlan>, base: Schema,
                  prefix: string): ReadRequest {
    ReadRequestOf(cmd.table, cmd.index, false, cmd.Metering(), BaseKeys(First(base.pk), First(base.rk)), where, plan,
                  prefix)
  }

  ghost predicate OneItem(where: Option<Expr>, base: Schema) {
    where.Some? && SingleItem.CanUpdateItem(Occs(where.value, true), base.pk, base.rk)
  }

  ghost function RunOne(law: Law, w: World, cmd: Command, r: WriteRequest,
                        explain: bool): (World, Result<Report, Failure>) {
    if explain then
      var shown := ExplainOne(law, w, Writing(r), []);
      (shown.0, AsExplained(shown.1))
    else
      var done := WriteItem(law, w, r);
      (done.0, if Fatal(done.1) then Err(done.1.error)
               else Ok(Account(Counted(Acct(0, 0, 0, []), done.1, cmd.wantReturned).(read := 0))))
  }

  function AsExplained(r: Result<seq<Block>, Failure>): Result<Report, Failure> {
    match r case Ok(blocks) => Ok(Explained(blocks)) case Err(e) => Err(e)
  }

  function AsAccount(r: Result<Acct, Failure>): Result<Report, Failure> {
    match r case Ok(acct) => Ok(Account(acct)) case Err(e) => Err(e)
  }

  ghost function RunMany(law: Law, w: World, cmd: Command, read: ReadRequest, t: WriteRequest,
                         explain: bool): (World, Result<Report, Failure>) {
    if explain then
      var shown := if cmd.mutation.Some? then ExplainPages(law, w, read, t, true, [])
                   else ExplainDelete(law, w, read, t);
      (shown.0, AsExplained(shown.1))
    else
      var done := RunPages(law, w, read, t, cmd.wantReturned, Acct(0, 0, 0, []));
      (done.0, AsAccount(done.1))
  }

  // A statement run to its end: the world, the next prefix, and what is reported.
  ghost function Execution(law: Law, w: World, counter: nat, cmd: Command, where: Option<Expr>, base: Schema,
                           schema: Schema, explain: bool): (World, nat, Result<Report, Failure>)
  {
    var t := TemplateOf(cmd, where, base, UniquePrefix(counter));
    if OneItem(where, base) then
      var key := GudKey(Occs(where.value, true), First(base.pk), First(base.rk));
      var done := RunOne(law, w, cmd, t.(key := key), explain);
      (done.0, counter + 1, done.1)
    else
      var read := ReadOf(cmd, where, PlanOf(where, schema.pk, schema.rk), base, UniquePrefix(counter + 1));
      var done := RunMany(law, w, cmd, read, t, explain);
      (done.0, counter + 2, done.1)
  }

  // A limiter at these rates, when there are any, that has seen nothing yet.
  method NewLimiter(rate: Option<(real, real)>, clock: Clock, ghost w: World) returns (limiter: RateLimiter?)
    requires rate.Some? ==> rate.value.0 >= 0.0 && rate.value.1 >= 0.0
    modifies clock
    ensures limiter != null <==> rate.Some?
    ensures limiter != null ==>
              && fresh(limiter) && limiter.clock == clock
              && limiter.rcu == rate.value.0 && limiter.wcu == rate.value.1
              && limiter.readTokens >= 0.0 && limiter.writeTokens >= 0.0
    ensures Metered(limiter, w, w)
  {
    limiter := null;
    if rate.Some? {
      limiter := new RateLimiter(rate.value.0, rate.value.1, clock);
    }
  }

  // Both executors: the write template from the first prefix, the single write, or
  // the plan against the schema of the read, from the second prefix, and its loop.
  method Execute(cmd: Command, where: Where?, base: Schema, schema: Schema, client: Client, prefixes: PrefixSource,
                 clock: Clock, explain: bool)
    returns (result: Result<Report, Failure>, limiter: RateLimiter?)
    requires ValidWhere(where) && (cmd.rate.Some? ==> cmd.rate.value.0 >= 0.0 && cmd.rate.value.1 >= 0.0)
    modifies client, prefixes, clock
    ensures (client.world, prefixes.counter, result) ==
            Execution(client.law, old(client.world), old(prefixes.counter), cmd, old(TreeOf(where)), base, schema,
                      explain)
    ensures limiter != null <==> cmd.rate.Some? && !explain
    ensures limiter != null ==>
              && fresh(limiter) && limiter.clock == clock
              && limiter.rcu == cmd.rate.value.0 && limiter.wcu == cmd.rate.value.1
    ensures Metered(limiter, old(client.world), client.world)
    ensures limiter != null ==> Paced(limiter, old(client.world), client.world)
  {
    hide RunOne, RunMany, Metered, Paced, TemplateOf, ReadOf, UniquePrefix, Occs, GudKey, PlannedQuery;
    var first := prefixes.Next();
    var template := MakeTemplate(cmd, where, base, first);
    limiter := NewLimiter(if explain then None else cmd.rate, clock, client.world);
    var single := false;
    if where != null {
      single := where.CanUpdateItem(base.pk, base.rk);
    }
    if single {
      var key := where.GetGudKey(base.pk, base.rk);
      result := ExecuteOne(cmd, client, template.(key := key), limiter, explain, old(client.world));
    } else {
      var plan := None;
      if where != null {
        plan := where.PlanQuery(schema.pk, schema.rk);
      }
      var second := prefixes.Next();
      var read := MakeRead(cmd, where, plan, base, second);
      result := ExecuteMany(cmd, client, read, template, limiter, explain, old(client.world));
    }
    if limiter != null {
      MeteredIsPaced(limiter, old(client.world), client.world);
    }
  }

  method MakeTemplate(cmd: Command, where: Where?, base: Schema, prefix: string) returns (t: WriteRequest)
    requires ValidWhere(where) && CleanPrefix(prefix)
    ensures t == TemplateOf(cmd, TreeOf(where), base, prefix)
  {
    var st := new SymbolTable(prefix);
    t := MakeWriteRequest(cmd.table, cmd.mutation, cmd.mutation.Some? && !cmd.upsert, where, First(base.pk),
                          First(base.rk), cmd.rate.Some?, st);
  }

  method MakeRead(cmd: Command, where: Where?, plan: Option<QueryKeyPlan>, base: Schema,
                  prefix: string) returns (r: ReadRequest)
    requires ValidWhere(where) && CleanPrefix(prefix) && (plan.Some? ==> where != null)
    ensures r == ReadOf(cmd, TreeOf(where), plan, base, prefix)
  {
    var st := new SymbolTable(prefix);
    r := BuildWriteRead(cmd.table, cmd.index, where, plan, First(base.pk), First(base.rk), cmd.rate.Some?, st);
  }

  method ExecuteOne(cmd: Command, client: Client, r: WriteRequest, limiter: RateLimiter?, explain: bool,
                    ghost base: World)
    returns (result: Result<Report, Failure>)
    requires Metered(limiter, base, client.world)
    requires explain ==> limiter == null
    modifies client, Footprint(limiter)
    ensures (client.world, result) == RunOne(client.law, old(client.world), cmd, r, explain)
    ensures Metered(limiter, base, client.world)
  {
    hide WriteItem, ExplainOne;
    if explain {
      var shown := ExplainRequestInto(client, Writing(r), []);
      result := AsExplained(shown);
    } else {
      var outcome := WriteMetered(client, r, limiter, base);
      if Fatal(outcome) {
        result := Err(outcome.error);
      } else {
        result := Ok(Account(Counted(Acct(0, 0, 0, []), outcome, cmd.wantReturned).(read := 0)));
      }
    }
  }

  method ExecuteMany(cmd: Command, client: Client, read: ReadRequest, template: WriteRequest, limiter: RateLimiter?,
                     explain: bool, ghost base: World)
    returns (result: Result<Report, Failure>)
    requires Metered(limiter, base, client.world)
    requires explain ==> limiter == null
    requires limiter != null ==> limiter.readTokens >= 0.0
    modifies client, Footprint(limiter)
    ensures (client.world, result) == RunMany(client.law, old(client.world), cmd, read, template, explain)
    ensures Metered(limiter, base, client.world)
  {
    hide RunPages, ExplainPages, ExplainDelete;
    if explain {
      var shown := ExplainMany(cmd, client, read, template);
      result := AsExplained(shown);
    } else {
      var done := RunBulk(client, read, template, cmd.wantReturned, limiter, base);
      result := AsAccount(done);
    }
  }

  // A DELETE shows its read once, up front; one planned as a Query shows nothing else.
  method ExplainMany(cmd: Command, client: Client, read: ReadRequest, template: WriteRequest)
    returns (result: Result<seq<Block>, Failure>)
    modifies client
    ensures (client.world, result) ==
            if cmd.mutation.Some? then ExplainPages(client.law, old(client.world), read, template, true, [])
            else ExplainDelete(client.law, old(client.world), read, template)
  {
    hide ExplainPages, ExplainOne;
    if cmd.mutation.Some? {
      result := ExplainBulk(client, read, template, true, []);
    } else {
      result := ExplainRequestInto(client, Reading(read), []);
      if result.Ok? && read.keyCondition.None? {
        result := ExplainBulk(client, read, template, false, result.value);
      }
    }
  }
}

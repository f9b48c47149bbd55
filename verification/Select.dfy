// SELECT by Query or Scan: the page loop, and what it returns.

module SelectRuns {
  import opened Values
  import opened Expressions
  import opened Reader
  import opened Access
  import opened SingleItem
  import opened Enforcing
  import opened Symbols
  import opened Updates
  import opened Requests
  import opened Planner
  import opened RateLimiters
  import opened Service
  import opened Reads
  import opened BulkWrites
  import opened BulkExactness
  import opened Explains
  import opened Executors
  import opened Statements

  // The items, and the capacity summed over the responses that carry one.
  datatype Selection = Selection(items: seq<Item>, units: Option<real>)

  function Added(total: Option<real>, units: Option<real>): Option<real> {
    if units.None? then total else Some(total.GetOr(0.0) + units.value)
  }

  function ReadAll(law: Law, w: World, read: ReadRequest, sofar: Selection): (World, Result<Selection, Failure>)
    decreases |w.turns|
  {
    var page := ReadPage(law, w, read);
    if page.1.Err? then (page.0, Err(page.1.error))
    else
      var now := Selection(sofar.items + page.1.value.rows, Added(sofar.units, page.1.value.units));
      if page.1.value.last.None? || page.1.value.last.value == map[] then (page.0, Ok(now))
      else ReadAll(law, page.0, read.(startKey := page.1.value.last), now)
  }

  method SelectItems(client: Client, read: ReadRequest,
                     limiter: RateLimiter?) returns (result: Result<Selection, Failure>)
    requires Metered(limiter, client.world, client.world)
    requires limiter != null ==> limiter.rcu == 0.0 || limiter.readTokens >= 0.0
    modifies client, Footprint(limiter)
    ensures (client.world, result) == ReadAll(client.law, old(client.world), read, Selection([], None))
    ensures Metered(limiter, old(client.world), client.world)
  {
    hide ReadPage;
    ghost var law, base := client.law, client.world;
    var found, request, more := Selection([], None), read, true;
    ghost var all := ReadAll(law, base, read, found);
    while more
      invariant Metered(limiter, base, client.world)
      invariant more && limiter != null ==> limiter.rcu == 0.0 || limiter.readTokens >= 0.0
      invariant all == if more then ReadAll(law, client.world, request, found) else (client.world, Ok(found))
      decreases more, |client.world.turns|
    {
      ReadIssues(law, client.world, request);
      var page := ReadMetered(client, request, limiter, base);
      if page.Err? {
        return Err(page.error);
      }
      found := Selection(found.items + page.value.rows, Added(found.units, page.value.units));
      if page.value.last.None? || page.value.last.value == map[] {
        more := false;
      } else {
        request := request.(startKey := page.value.last);
        if limiter != null {
          ThrottleReads(limiter, base, client.world);
        }
      }
    }
    result := Ok(found);
  }

  // A Query or Scan at its rates.
  method ExecuteReads(client: Client, read: ReadRequest, rate: Option<(real, real)>, clock: Clock)
    returns (result: Result<Selection, Failure>, limiter: RateLimiter?)
    requires rate.Some? ==> rate.value.0 >= 0.0 && rate.value.1 >= 0.0
    modifies client, clock
    ensures (client.world, result) == ReadAll(client.law, old(client.world), read, Selection([], None))
    ensures limiter != null <==> rate.Some?
    ensures limiter != null ==>
              && fresh(limiter) && limiter.clock == clock
              && limiter.rcu == rate.value.0 && limiter.wcu == rate.value.1
    ensures Metered(limiter, old(client.world), client.world)
    ensures limiter != null ==> Paced(limiter, old(client.world), client.world)
  {
    hide ReadAll, Metered, Paced;
    limiter := NewLimiter(rate, clock, client.world);
    result := SelectItems(client, read, limiter);
    if limiter != null {
      MeteredIsPaced(limiter, old(client.world), client.world);
    }
  }

  // ---- what a SELECT reports ------------------------------------------------

  function RowsOf(pages: seq<Page>): seq<Item> {
    if pages == [] then [] else pages[0].rows + RowsOf(pages[1..])
  }

  // The units of the responses that carry any.
  predicate SumsTo(total: Option<real>, costs: seq<Option<real>>) {
    && (total.None? <==> forall c | c in costs :: c.None?)
    && (total.Some? ==> total.value == TotalCost(costs))
  }

  lemma AddedSums(total: Option<real>, costs: seq<Option<real>>, units: Option<real>)
    requires SumsTo(total, costs)
    ensures SumsTo(Added(total, units), costs + [units])
  {
    TotalCostSnoc(costs, units);
    if total.None? {
      NoCosts(costs);
    }
    assert (costs + [units])[|costs|] == units;
    assert forall c | c in costs :: c in costs + [units];
  }

  lemma {:induction false} NoCosts(costs: seq<Option<real>>)
    requires forall c | c in costs :: c.None?
    ensures TotalCost(costs) == 0.0
  {
    if costs != [] {
      assert costs[|costs| - 1] in costs;
      NoCosts(costs[..|costs| - 1]);
    }
  }

  // After a SELECT that ended at result: it read up to the page without a last key, from
  // the cursor of the page before each; it returns the rows of its pages in order, and the
  // units they were charged.
  ghost predicate Reports(w: World, after: World, read: ReadRequest, sofar: Selection, result: Selection, n: nat) {
    && w.pages <= after.pages && n <= |after.readCosts|
    && Complete(after.pages[|w.pages|..])
    && after.issued == w.issued + Cursors(read, after.pages[|w.pages|..])
    && result.items == sofar.items + RowsOf(after.pages[|w.pages|..])
    && SumsTo(result.units, after.readCosts[n..])
  }

  lemma {:induction false} SelectReports(law: Law, w: World, read: ReadRequest, sofar: Selection, n: nat)
    requires n <= |w.readCosts| && SumsTo(sofar.units, w.readCosts[n..])
    ensures var done := ReadAll(law, w, read, sofar);
            done.1.Ok? ==> Reports(w, done.0, read, sofar, done.1.value, n)
    decreases |w.turns|
  {
    hide ReadPage, Complete, SumsTo, Added, Reports;
    var page := ReadPage(law, w, read);
    ReadIssues(law, w, read);
    ReadIsSent(law, w, read);
    if page.1.Ok? {
      var p := page.1.value;
      var now := Selection(sofar.items + p.rows, Added(sofar.units, p.units));
      assert page.0.readCosts[n..] == w.readCosts[n..] + [p.units];
      AddedSums(sofar.units, w.readCosts[n..], p.units);
      if Goes(p) {
        SelectReports(law, page.0, read.(startKey := p.last), now, n);
      }
      var all := ReadAll(law, w, read, sofar);
      if all.1.Ok? {
        ReportsFirst(w, page.0, all.0, read, p, sofar, now, all.1.value, n);
      }
    }
  }

  lemma ReportsFirst(w: World, next: World, after: World, read: ReadRequest, p: Page, sofar: Selection, now: Selection,
                     result: Selection, n: nat)
    requires next.pages == w.pages + [p] && next.issued == w.issued + [Reading(read)]
    requires now.items == sofar.items + p.rows && n <= |next.readCosts| && SumsTo(now.units, next.readCosts[n..])
    requires if Goes(p) then Reports(next, after, read.(startKey := p.last), now, result, n)
             else after == next && result == now
    ensures Reports(w, after, read, sofar, result, n)
  {
    hide Complete, SumsTo, Cursors, RowsOf;
    var rest := after.pages[|w.pages| + 1..];
    assert Goes(p) ==> next.pages <= after.pages && rest == after.pages[|next.pages|..];
    CompleteFrom(w.pages, p, after.pages);
    PagesFirst(read, w.pages, p, after.pages);
    if Goes(p) {
      assert sofar.items + p.rows + RowsOf(rest) == sofar.items + (p.rows + RowsOf(rest));
      var later := Cursors(read.(startKey := p.last), rest);
      assert w.issued + [Reading(read)] + later == w.issued + ([Reading(read)] + later);
    } else {
      NoPages(read.(startKey := p.last));
      assert rest == [];
      assert sofar.items + (p.rows + []) == sofar.items + p.rows;
      assert [Reading(read)] + [] == [Reading(read)];
    }
  }

  lemma NoPages(read: ReadRequest)
    ensures Cursors(read, []) == [] && RowsOf([]) == []
  {
  }

  // The reads that give these pages.
  function Cursors(read: ReadRequest, pages: seq<Page>): seq<Request>
    decreases |pages|
  {
    if pages == [] then [] else [Reading(read)] + Cursors(read.(startKey := pages[0].last), pages[1..])
  }

  lemma PagesFirst(read: ReadRequest, before: seq<Page>, page: Page, after: seq<Page>)
    requires before + [page] <= after
    ensures before <= after
    ensures Cursors(read, after[|before|..]) ==
            [Reading(read)] + Cursors(read.(startKey := page.last), after[|before| + 1..])
    ensures RowsOf(after[|before|..]) == page.rows + RowsOf(after[|before| + 1..])
  {
    assert after[|before|..][0] == page && after[|before|..][1..] == after[|before| + 1..];
    assert before <= after;
  }

  // ---- what a SELECT returns ------------------------------------------------

  // The items the WHERE selects, among those the index shows, in key order.
  function Matches(law: Law, store: Store, r: ReadRequest, where: Option<Expr>, keys: seq<Key>): seq<Item> {
    if keys == [] then []
    else (if keys[0] in store && Shown(law, r.index, store[keys[0]])
             && Wanted(where, law.sem, store[keys[0]]) then [Project(r, store[keys[0]])] else [])
         + Matches(law, store, r, where, keys[1..])
  }

  lemma {:induction false} RowsAreMatches(law: Law, store: Store, r: ReadRequest, where: Option<Expr>,
                                          plan: Option<QueryKeyPlan>, keys: seq<Key>)
    requires ReadsFor(r, where, plan) && Fit(where) && Accepted(r)
    ensures RowsAt(law, store, r, keys) == Matches(law, store, r, where, keys)
  {
    hide ReadsFor, Fit, Accepted, Selects;
    if keys != [] {
      RowsAreMatches(law, store, r, where, plan, keys[1..]);
      if keys[0] in store {
        AcceptedMeans(r, where, plan, ItemMeaning(law.sem, store[keys[0]]));
      }
    }
  }

  lemma {:induction false} MatchesConcat(law: Law, store: Store, r: ReadRequest, where: Option<Expr>, a: seq<Key>,
                                         b: seq<Key>)
    ensures Matches(law, store, r, where, a + b) == Matches(law, store, r, where, a) + Matches(law, store, r, where, b)
  {
    hide Wanted, Project;
    if a == [] {
      assert a + b == b;
    } else {
      assert (a + b)[0] == a[0] && (a + b)[1..] == a[1..] + b;
      MatchesConcat(law, store, r, where, a[1..], b);
    }
  }

  lemma {:induction false} MatchesElsewhere(law: Law, store: Store, r: ReadRequest, start: Option<Item>,
                                            where: Option<Expr>, keys: seq<Key>)
    ensures Matches(law, store, r.(startKey := start), where, keys) == Matches(law, store, r, where, keys)
  {
    if keys != [] {
      MatchesElsewhere(law, store, r, start, where, keys[1..]);
    }
  }

  // An undisturbed page.
  lemma PageMatches(law: Law, w: World, read: ReadRequest, where: Option<Expr>, plan: Option<QueryKeyPlan>)
    requires ReadsFor(read, where, plan) && Fit(where) && Accepted(read) && Quiet(w) && w.turns != []
    ensures var page := ReadPage(law, w, read);
            var start := Position(law, read);
            var end := PageEnd(law, start, w.turns[0].limit);
            && Quiet(page.0) && page.0.store == w.store && |page.0.turns| == |w.turns| - 1 && page.1.Ok?
            && page.1.value.rows == Matches(law, w.store, read, where, law.order[start..end])
            && page.1.value.last == (if end < |law.order| then Some(law.order[end - 1]) else None)
  {
    hide RowsAt, Matches, ReadsFor, Fit;
    var start := Position(law, read);
    assert w.turns[0] in w.turns;
    RowsAreMatches(law, w.store, read, where, plan, law.order[start..PageEnd(law, start, w.turns[0].limit)]);
    assert forall x | x in w.turns[1..] :: x in w.turns;
  }

  // Undisturbed, and given a turn for each key still to be evaluated and one more, an
  // accepted SELECT returns every item its WHERE selects and no other, once, in key
  // order, however the read is paged and whether it is a Query or a Scan.
  lemma {:induction false} SelectExact(law: Law, w: World, read: ReadRequest, where: Option<Expr>,
                                       plan: Option<QueryKeyPlan>, sofar: Selection)
    requires ReadsFor(read, where, plan) && Fit(where) && Accepted(read) && Quiet(w)
    requires Distinct(law.order) && map[] !in law.order && |w.turns| > |law.order| - Position(law, read)
    ensures var done := ReadAll(law, w, read, sofar);
            && done.0.store == w.store && done.1.Ok?
            && done.1.value.items == sofar.items + Matches(law, w.store, read, where, law.order[Position(law, read)..])
    decreases |w.turns|
  {
    hide ReadPage, ReadsFor, Fit, Accepted, Quiet, Matches, PageEnd, Added, Position, After, Distinct;
    PageMatches(law, w, read, where, plan);
    var page := ReadPage(law, w, read);
    var start := Position(law, read);
    var end := PageEnd(law, start, w.turns[0].limit);
    var now, later := law.order[start..end], law.order[end..];
    MatchesConcat(law, w.store, read, where, now, later);
    PageEndBounds(law, start, w.turns[0].limit);
    assert law.order[start..] == now + later;
    if end == |law.order| {
      NoMatches(law, w.store, read, where);
    } else {
      var next := read.(startKey := Some(law.order[end - 1]));
      NextPosition(law, read, end);
      StillReads(read, next.startKey, where, plan);
      SelectExact(law, page.0, next, where, plan,
                  Selection(sofar.items + page.1.value.rows, Added(sofar.units, page.1.value.units)));
      MatchesElsewhere(law, w.store, read, next.startKey, where, later);
    }
  }

  // A whole Query or Scan as planned: rejected when the clause is not ready for the
  // Query it was planned as, else the items the clause selects.
  lemma SelectStatementExact(law: Law, w: World, table: string, index: Option<string>, consistent: bool,
                             capacity: Capacity, paths: seq<string>, where: Option<Expr>, pk: seq<string>,
                             rk: seq<string>, prefix: string)
    requires CleanPrefix(prefix) && Fit(where) && Quiet(w)
    requires Distinct(law.order) && map[] !in law.order && |w.turns| > |law.order|
    ensures var plan := PlanOf(where, pk, rk);
            var read := ReadRequestOf(table, index, consistent, capacity, paths, where, plan, prefix);
            var done := ReadAll(law, w, read, Selection([], None));
            && done.0.store == w.store
            && if plan.Some? && !QueryReady(where.value, plan.value) then done.1 == Err(Rejected)
               else done.1.Ok? && done.1.value.items == Matches(law, w.store, read, where, law.order)
  {
    hide PlanOf, ReadsFor, Accepted, Fit, Matches, QueryReady, Encode, Distinct, PathsText, KeyText, FilterText;
    var plan := PlanOf(where, pk, rk);
    var read := ReadRequestOf(table, index, consistent, capacity, paths, where, plan, prefix);
    PlannedReads(table, index, consistent, capacity, paths, where, pk, rk, prefix);
    AcceptedExactly(read, where, plan);
    if Accepted(read) {
      SelectExact(law, w, read, where, plan, Selection([], None));
      assert law.order[0..] == law.order;
    } else {
      assert w.turns[0] in w.turns;
    }
  }

  // ---- GetItem --------------------------------------------------------------

  // The item under the key of a GetItem is what its clause selects from any table, unless
  // the clause is a negated conjunction: then it is the only item that it does not select.
  lemma GetItemFinds(law: Law, store: Store, e: Expr, base: Schema)
    requires BaseTable(base) && Arity(e, 2) && SingleItem.CanGetItem(Occs(e, true), base.pk, base.rk)
    requires KeyedLaw(law, e, base) && WellKeyed(store, First(base.pk), First(base.rk))
    ensures var key := GudKey(Occs(e, true), First(base.pk), First(base.rk));
            WantedKeys(law, store, None, Some(e)) ==
            if e.And? && e.negated then store.Keys - {key} else store.Keys * {key}
  {
    hide GudKey, Occs, KeyedLaw, SingleItem.CanGetItem, Wanted, Arity;
    var key := GudKey(Occs(e, true), First(base.pk), First(base.rk));
    forall k | k in store
      ensures Wanted(Some(e), law.sem, store[k]) <==> ((k == key) != (e.And? && e.negated)) {
      GotExactly(law, e, base, k, store[k]);
    }
  }

  lemma GotExactly(law: Law, e: Expr, base: Schema, k: Key, item: Item)
    requires BaseTable(base) && Arity(e, 2) && SingleItem.CanGetItem(Occs(e, true), base.pk, base.rk)
    requires KeyedLaw(law, e, base) && k.Keys == KeyNames(First(base.pk), First(base.rk)) && KeyMatches(k, item)
    ensures Wanted(Some(e), law.sem, item) <==>
            ((k == GudKey(Occs(e, true), First(base.pk), First(base.rk))) != (e.And? && e.negated))
  {
    hide GudKey, Occs, KeyNames, KeyMatches, Holds, Named, Arity;
    var key := GudKey(Occs(e, true), First(base.pk), First(base.rk));
    GetItemMeaning(e, base.pk, base.rk, law.sem, item);
    GudKeyIs(law, e, base, item);
    if KeyMatches(key, item) {
      SameKeys(k, key, item);
    }
  }

  lemma NoMatches(law: Law, store: Store, r: ReadRequest, where: Option<Expr>)
    ensures Matches(law, store, r, where, []) == []
  {
  }

  lemma StillReads(r: ReadRequest, start: Option<Item>, where: Option<Expr>, plan: Option<QueryKeyPlan>)
    requires ReadsFor(r, where, plan) && Accepted(r)
    ensures ReadsFor(r.(startKey := start), where, plan) && Accepted(r.(startKey := start))
  {
  }

  // The read PlanSelect builds is one of these.
  lemma PlannedReads(table: string, index: Option<string>, consistent: bool, capacity: Capacity, paths: seq<string>,
                     where: Option<Expr>, pk: seq<string>, rk: seq<string>, prefix: string)
    requires CleanPrefix(prefix)
    ensures ReadsFor(ReadRequestOf(table, index, consistent, capacity, paths, where, PlanOf(where, pk, rk), prefix),
                     where, PlanOf(where, pk, rk))
  {
    hide PlanOf, SafeOcc, PathsText, KeyText, FilterText;
    PlanIsSafe(where, pk, rk);
    ReadRequestDecodes(table, index, consistent, capacity, paths, where, PlanOf(where, pk, rk), prefix);
  }
}

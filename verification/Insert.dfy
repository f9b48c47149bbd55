// INSERT and REPLACE: each row is put by a request of its own, in order, up to the first
// that fails.

module Inserts {
  import opened Values
  import opened Expressions
  import opened Symbols
  import opened LogicalExpressions
  import opened Requests
  import opened Planner
  import opened RateLimiters
  import opened Service
  import opened BulkWrites
  import opened BulkExactness
  import opened Explains
  import opened Executors

  // REPLACE puts a row whether its key is taken or not.
  datatype Insert = Insert(table: string, columns: seq<string>, rows: seq<seq<Value>>, insert: bool,
                           wantReturned: bool, rate: Option<(real, real)>)
  {
    function Metering(): Capacity {
      if rate.Some? then Total else NoCapacity
    }

    function Token(): string {
      if insert then "INSERT" else "REPLACE"
    }
  }

  datatype Stop = WrongRow(number: nat) | Failing(failure: Failure)

  // A line for a row that was put, with what it replaced if that was asked for.
  datatype Emitted = Emitted(token: string, returned: Option<Item>)

  // The first row, counted from 1, that has not one value for each column.
  function WrongFrom(cmd: Insert, i: nat): Option<nat>
    decreases |cmd.rows| - i
  {
    if i >= |cmd.rows| then None
    else if |cmd.rows[i]| != |cmd.columns| then Some(i + 1)
    else WrongFrom(cmd, i + 1)
  }

  function RowItem(columns: seq<string>, row: seq<Value>): Item {
    map i | 0 <= i < |columns| && i < |row| && columns[i] !in columns[i + 1..] :: columns[i] := row[i]
  }

  function PutOf(cmd: Insert, pk: string, counter: nat, row: seq<Value>): PutRequest {
    PutRequestOf(cmd.table, RowItem(cmd.columns, row), cmd.insert, pk, cmd.Metering(), UniquePrefix(counter))
  }

  // An INSERT takes a prefix for each row.
  function NextCounter(cmd: Insert, counter: nat): nat {
    if cmd.insert then counter + 1 else counter
  }

  function PutRows(law: Law, w: World, counter: nat, cmd: Insert, pk: string, i: nat)
    : (World, nat, seq<Emitted>, Option<Failure>)
    decreases |cmd.rows| - i
  {
    if i >= |cmd.rows| then (w, counter, [], None)
    else
      var done := PutItem(law, w, PutOf(cmd, pk, counter, cmd.rows[i]));
      if done.1.Err? then (done.0, NextCounter(cmd, counter), [], Some(done.1.error))
      else
        After([LineOf(cmd, done.1.value)], PutRows(law, done.0, NextCounter(cmd, counter), cmd, pk, i + 1))
  }

  function LineOf(cmd: Insert, replaced: Option<Item>): Emitted {
    Emitted(cmd.Token(), if cmd.wantReturned then Some(replaced.GetOr(map[])) else None)
  }

  // What comes after these lines.
  function After(before: seq<Emitted>, rest: (World, nat, seq<Emitted>, Option<Failure>))
    : (World, nat, seq<Emitted>, Option<Failure>)
  {
    (rest.0, rest.1, before + rest.2, rest.3)
  }

  lemma PutStep(law: Law, w: World, counter: nat, cmd: Insert, pk: string, i: nat, before: seq<Emitted>)
    requires i < |cmd.rows|
    ensures var done := PutItem(law, w, PutOf(cmd, pk, counter, cmd.rows[i]));
            var here := After(before, PutRows(law, w, counter, cmd, pk, i));
            if done.1.Err? then here == (done.0, NextCounter(cmd, counter), before, Some(done.1.error))
            else
              here == After(before + [LineOf(cmd, done.1.value)],
                            PutRows(law, done.0, NextCounter(cmd, counter), cmd, pk, i + 1))
  {
    hide PutItem, PutOf;
    assert before + [] == before;
    var done := PutItem(law, w, PutOf(cmd, pk, counter, cmd.rows[i]));
    if done.1.Ok? {
      var rest := PutRows(law, done.0, NextCounter(cmd, counter), cmd, pk, i + 1);
      assert before + ([LineOf(cmd, done.1.value)] + rest.2) == before + [LineOf(cmd, done.1.value)] + rest.2;
    }
  }

  lemma PutNone(law: Law, w: World, counter: nat, cmd: Insert, pk: string, before: seq<Emitted>)
    ensures After(before, PutRows(law, w, counter, cmd, pk, |cmd.rows|)) == (w, counter, before, None)
    ensures After([], PutRows(law, w, counter, cmd, pk, 0)) == PutRows(law, w, counter, cmd, pk, 0)
  {
    assert before + [] == before;
    var all := PutRows(law, w, counter, cmd, pk, 0);
    assert [] + all.2 == all.2;
  }

  // ---- the executor ---------------------------------------------------------

  method Validate(cmd: Insert) returns (wrong: Option<nat>)
    ensures wrong == WrongFrom(cmd, 0)
    ensures wrong.None? <==> forall row | row in cmd.rows :: |row| == |cmd.columns|
    ensures wrong.Some? ==>
              && 1 <= wrong.value <= |cmd.rows| && |cmd.rows[wrong.value - 1]| != |cmd.columns|
              && forall row | row in cmd.rows[..wrong.value - 1] :: |row| == |cmd.columns|
  {
    for i := 0 to |cmd.rows|
      invariant WrongFrom(cmd, 0) == WrongFrom(cmd, i)
      invariant forall row | row in cmd.rows[..i] :: |row| == |cmd.columns|
    {
      if |cmd.rows[i]| != |cmd.columns| {
        assert cmd.rows[i] in cmd.rows;
        return Some(i + 1);
      }
    }
    assert cmd.rows[..|cmd.rows|] == cmd.rows;
    return None;
  }

  method MakePut(cmd: Insert, row: seq<Value>, pk: string, prefixes: PrefixSource) returns (r: PutRequest)
    modifies prefixes
    ensures r == PutOf(cmd, pk, old(prefixes.counter), row)
    ensures prefixes.counter == NextCounter(cmd, old(prefixes.counter))
  {
    var item := RowItem(cmd.columns, row);
    if !cmd.insert {
      return PutRequest(cmd.table, item, None, map[], cmd.Metering());
    }
    var prefix := prefixes.Next();
    var st := new SymbolTable(prefix);
    var token := st.NewAttribute(pk);
    var names := st.GetNames();
    GuardEncodes(pk, prefix);
    r := PutRequest(cmd.table, item, Some([Word("attribute_not_exists("), Attr(token), Word(")")]), names,
                    cmd.Metering());
  }

  lemma GuardEncodes(pk: string, prefix: string)
    ensures var t := EncodePath(Fresh(prefix), pk);
            Encode([Word("attribute_not_exists("), Attr(pk), Word(")")], Fresh(prefix)) ==
            ([Word("attribute_not_exists("), Attr(t.0), Word(")")], t.1)
  {
    var t := EncodePath(Fresh(prefix), pk);
    var open: Text, attr: Text, close: Text := [Word("attribute_not_exists(")], [Attr(pk)], [Word(")")];
    EncodeOne(open[0], Fresh(prefix));
    EncodeOne(attr[0], Fresh(prefix));
    EncodeOne(close[0], t.1);
    hide EncodePath, Encode;
    EncodeConcat(attr, close, Fresh(prefix));
    EncodeConcat(open, attr + close, Fresh(prefix));
    assert open + (attr + close) == [Word("attribute_not_exists("), Attr(pk), Word(")")];
    var out: Aliased := [Word("attribute_not_exists(")];
    assert out + ([Attr(t.0)] + [Word(")")]) == [Word("attribute_not_exists("), Attr(t.0), Word(")")];
  }

  lemma PutIsSent(law: Law, w: World, r: PutRequest)
    ensures var done := PutItem(law, w, r);
            && done.0.issued == w.issued + [Putting(r)] && done.0.readCosts == w.readCosts
            && done.0.writeCosts == w.writeCosts + [if done.1.Ok? then done.2 else None]
  {
  }

  // Here the charge and the limit come after the write: the first is sent with an
  // empty bucket, every later one with a bucket that is out of debt.
  method ExecuteInsert(cmd: Insert, pk: string, client: Client, prefixes: PrefixSource, clock: Clock)
    returns (emitted: seq<Emitted>, stop: Option<Stop>, limiter: RateLimiter?)
    requires cmd.rate.Some? ==> cmd.rate.value.0 >= 0.0 && cmd.rate.value.1 >= 0.0
    modifies client, prefixes, clock
    ensures WrongFrom(cmd, 0).Some? ==>
              emitted == [] && stop == Some(WrongRow(WrongFrom(cmd, 0).value)) && client.world == old(client.world)
    ensures WrongFrom(cmd, 0).None? ==>
              var done := PutRows(client.law, old(client.world), old(prefixes.counter), cmd, pk, 0);
              && client.world == done.0 && prefixes.counter == done.1 && emitted == done.2
              && stop == (if done.3.None? then None else Some(Failing(done.3.value)))
    ensures limiter != null ==>
              && fresh(limiter) && limiter.clock == clock
              && cmd.rate.Some? && limiter.rcu == cmd.rate.value.0 && limiter.wcu == cmd.rate.value.1
    ensures cmd.rate.Some? && WrongFrom(cmd, 0).None? ==> limiter != null
    ensures Metered(limiter, old(client.world), client.world)
    ensures limiter != null ==> Paced(limiter, old(client.world), client.world)
  {
    hide PutRows, Metered, Paced;
    var wrong := Validate(cmd);
    if wrong.Some? {
      UnlimitedIsMetered(client.world, client.world);
      return [], Some(WrongRow(wrong.value)), null;
    }
    limiter := NewLimiter(cmd.rate, clock, client.world);
    var failure;
    emitted, failure := PutAll(cmd, pk, client, prefixes, limiter);
    stop := match failure case None => None case Some(f) => Some(Failing(f));
    if limiter != null {
      MeteredIsPaced(limiter, old(client.world), client.world);
    }
  }

  method PutAll(cmd: Insert, pk: string, client: Client, prefixes: PrefixSource, limiter: RateLimiter?)
    returns (emitted: seq<Emitted>, failure: Option<Failure>)
    requires Metered(limiter, client.world, client.world)
    requires limiter != null ==> limiter.wcu == 0.0 || limiter.writeTokens >= 0.0
    modifies client, prefixes, Footprint(limiter)
    ensures (client.world, prefixes.counter, emitted, failure) ==
            PutRows(client.law, old(client.world), old(prefixes.counter), cmd, pk, 0)
    ensures Metered(limiter, old(client.world), client.world)
  {
    hide PutItem, Metered, PutOf, PutRows, LineOf, NextCounter;
    ghost var law, base := client.law, client.world;
    ghost var all := PutRows(law, base, prefixes.counter, cmd, pk, 0);
    emitted := [];
    PutNone(law, base, prefixes.counter, cmd, pk, []);
    for i := 0 to |cmd.rows|
      invariant Metered(limiter, base, client.world)
      invariant limiter != null ==> limiter.wcu == 0.0 || limiter.writeTokens >= 0.0
      invariant all == After(emitted, PutRows(law, client.world, prefixes.counter, cmd, pk, i))
    {
      PutStep(law, client.world, prefixes.counter, cmd, pk, i, emitted);
      var put := MakePut(cmd, cmd.rows[i], pk, prefixes);
      var result := PutMetered(client, put, limiter, base);
      if result.Err? {
        return emitted, Some(result.error);
      }
      emitted := emitted + [LineOf(cmd, result.value)];
      if limiter != null {
        LimitWrites(limiter, base, client.world);
      }
    }
    PutNone(law, client.world, prefixes.counter, cmd, pk, emitted);
    failure := None;
  }

  lemma UnlimitedIsMetered(base: World, w: World)
    ensures Metered(null, base, w)
  {
  }

  method PutMetered(client: Client, r: PutRequest, limiter: RateLimiter?, ghost base: World)
    returns (result: Result<Option<Item>, Failure>)
    requires Metered(limiter, base, client.world)
    requires limiter != null ==> limiter.wcu == 0.0 || limiter.writeTokens >= 0.0
    modifies client, Footprint(limiter)
    ensures (client.world, result) ==
            (PutItem(client.law, old(client.world), r).0, PutItem(client.law, old(client.world), r).1)
    ensures Metered(limiter, base, client.world)
  {
    hide Costs, PutItem, Run, Disciplined, Fair, FairActs;
    ghost var acts: seq<Act> := [];
    if limiter != null {
      acts := limiter.writeActs;
      limiter.SendWrite();
    }
    PutIsSent(client.law, client.world, r);
    ghost var costs := client.world.writeCosts;
    var units;
    result, units := client.Put(r);
    if limiter != null {
      SentAndCharged(acts, base.writeCosts, costs, if result.Ok? then units else None);
      assert acts + [Issue] + [] == acts + [Issue];
      if result.Ok? {
        limiter.ConsumeWrites(units);
      }
    }
  }

  // ---- what an undisturbed INSERT or REPLACE does ---------------------------

  function ItemAt(cmd: Insert, i: nat): Item
    requires i < |cmd.rows|
  {
    RowItem(cmd.columns, cmd.rows[i])
  }

  function KeyAt(law: Law, cmd: Insert, i: nat): Key
    requires i < |cmd.rows|
  {
    KeyOf(law, ItemAt(cmd, i))
  }

  lemma {:induction false} LastOf(columns: seq<string>, name: string) returns (i: nat)
    requires name in columns
    ensures i < |columns| && columns[i] == name && name !in columns[i + 1..]
  {
    var n := |columns| - 1;
    if columns[n] == name {
      i := n;
    } else {
      assert columns[..n] + [columns[n]] == columns;
      i := LastOf(columns[..n], name);
      assert columns[i + 1..] == columns[..n][i + 1..] + [columns[n]];
    }
  }

  // The item of a row has the columns for attributes, each with the value in its place.
  lemma RowIs(columns: seq<string>, row: seq<Value>)
    requires |row| == |columns|
    ensures RowItem(columns, row).Keys == (set name | name in columns)
    ensures forall i | 0 <= i < |columns| && columns[i] !in columns[i + 1..] ::
              RowItem(columns, row)[columns[i]] == row[i]
  {
    forall name | name in columns ensures name in RowItem(columns, row) {
      var i := LastOf(columns, name);
    }
  }

  // The service takes the condition of an INSERT for what it is: nothing under that key.
  lemma PutJudged(law: Law, store: Store, cmd: Insert, pk: string, counter: nat, i: nat)
    requires i < |cmd.rows| && forall k | k in store :: pk in store[k]
    ensures PutVerdict(law, store, PutOf(cmd, pk, counter, cmd.rows[i])) ==
            Some(!cmd.insert || KeyAt(law, cmd, i) !in store)
  {
    PutRequestDecodes(cmd.table, ItemAt(cmd, i), pk, cmd.Metering(), UniquePrefix(counter));
  }

  // The statement names the key, and every row has a value for each column.
  ghost predicate Insertable(law: Law, cmd: Insert, pk: string) {
    && pk in law.keyNames && (forall a | a in law.keyNames :: a in cmd.columns)
    && forall row | row in cmd.rows :: |row| == |cmd.columns|
  }

  lemma PutOne(law: Law, w: World, counter: nat, cmd: Insert, pk: string, i: nat)
    requires Insertable(law, cmd, pk) && Quiet(w) && w.turns != [] && i < |cmd.rows|
    requires forall k | k in w.store :: pk in w.store[k]
    ensures var done := PutItem(law, w, PutOf(cmd, pk, counter, cmd.rows[i]));
            && Quiet(done.0) && |done.0.turns| == |w.turns| - 1
            && if cmd.insert && KeyAt(law, cmd, i) in w.store then
                 done.1 == Err(ConditionFailed) && done.0.store == w.store
               else
                 && done.1 == Ok(Under(w.store, KeyAt(law, cmd, i)))
                 && done.0.store == w.store[KeyAt(law, cmd, i) := ItemAt(cmd, i)]
                 && forall k | k in done.0.store :: pk in done.0.store[k]
  {
    hide PutVerdict, PutOf, KeyOf, RowItem, PutItem, Quiet, Insertable, ItemAt;
    PutJudged(law, w.store, cmd, pk, counter, i);
    RowHasKey(law, cmd, pk, i);
    PutsItem(cmd, pk, counter, i);
    QuietPut(law, w, PutOf(cmd, pk, counter, cmd.rows[i]), !cmd.insert || KeyAt(law, cmd, i) !in w.store);
  }

  lemma RowHasKey(law: Law, cmd: Insert, pk: string, i: nat)
    requires Insertable(law, cmd, pk) && i < |cmd.rows|
    ensures law.keyNames <= ItemAt(cmd, i).Keys && pk in ItemAt(cmd, i)
  {
    assert cmd.rows[i] in cmd.rows;
    RowIs(cmd.columns, cmd.rows[i]);
    hide RowItem;
  }

  lemma QuietPut(law: Law, w: World, r: PutRequest, free: bool)
    requires Quiet(w) && w.turns != [] && law.keyNames <= r.item.Keys && PutVerdict(law, w.store, r) == Some(free)
    ensures var done := PutItem(law, w, r);
            && Quiet(done.0) && |done.0.turns| == |w.turns| - 1
            && if free then
                 && done.1 == Ok(Under(w.store, KeyOf(law, r.item)))
                 && done.0.store == w.store[KeyOf(law, r.item) := r.item]
               else done.1 == Err(ConditionFailed) && done.0.store == w.store
  {
    hide PutVerdict, KeyOf;
    assert w.turns[0] in w.turns;
    assert forall x | x in w.turns[1..] :: x in w.turns;
  }

  lemma PutsItem(cmd: Insert, pk: string, counter: nat, i: nat)
    requires i < |cmd.rows|
    ensures PutOf(cmd, pk, counter, cmd.rows[i]).item == ItemAt(cmd, i)
  {
  }

  function Under(store: Store, k: Key): Option<Item> {
    if k in store then Some(store[k]) else None
  }

  // The store after rows i up to j were put.
  function Landing(law: Law, before: Store, cmd: Insert, i: nat, j: nat): Store
    requires j <= |cmd.rows|
  {
    if j <= i then before else Landing(law, before, cmd, i, j - 1)[KeyAt(law, cmd, j - 1) := ItemAt(cmd, j - 1)]
  }

  // The last of these rows with this key.
  function LastRow(law: Law, cmd: Insert, k: Key, i: nat, j: nat): Option<nat>
    requires j <= |cmd.rows|
  {
    if j <= i then None else if KeyAt(law, cmd, j - 1) == k then Some(j - 1) else LastRow(law, cmd, k, i, j - 1)
  }

  lemma {:induction false} LastRowIs(law: Law, cmd: Insert, k: Key, i: nat, j: nat)
    requires j <= |cmd.rows|
    ensures match LastRow(law, cmd, k, i, j)
            case None => forall l | i <= l < j :: KeyAt(law, cmd, l) != k
            case Some(l) => i <= l < j && KeyAt(law, cmd, l) == k && forall m | l < m < j :: KeyAt(law, cmd, m) != k
  {
    hide KeyAt;
    if i < j {
      LastRowIs(law, cmd, k, i, j - 1);
    }
  }

  // Under each key is the last row with it, or else what was there before.
  lemma {:induction false} LandingAt(law: Law, before: Store, cmd: Insert, k: Key, i: nat, j: nat)
    requires j <= |cmd.rows|
    ensures var after := Landing(law, before, cmd, i, j);
            match LastRow(law, cmd, k, i, j)
            case None => (k in after <==> k in before) && (k in before ==> after[k] == before[k])
            case Some(l) => l < |cmd.rows| && k in after && after[k] == ItemAt(cmd, l)
  {
    hide KeyAt, ItemAt;
    if i < j {
      LandingAt(law, before, cmd, k, i, j - 1);
    }
  }

  lemma {:induction false} LandingFirst(law: Law, before: Store, cmd: Insert, i: nat, j: nat)
    requires i < j <= |cmd.rows|
    ensures Landing(law, before[KeyAt(law, cmd, i) := ItemAt(cmd, i)], cmd, i + 1, j) == Landing(law, before, cmd, i, j)
  {
    hide KeyAt, ItemAt;
    if i + 1 < j {
      LandingFirst(law, before, cmd, i, j - 1);
    }
  }

  // A row of an INSERT is put when its key is free, in the table and among the rows
  // before it.
  ghost predicate Free(law: Law, store: Store, cmd: Insert, i: nat, l: nat)
    requires l < |cmd.rows|
  {
    KeyAt(law, cmd, l) !in store && forall m | i <= m < l :: KeyAt(law, cmd, m) != KeyAt(law, cmd, l)
  }

  // Rows were put, and their lines came out, up to the first that is not free.
  ghost predicate Inserted(law: Law, before: Store, after: Store, lines: seq<Emitted>, stop: Option<Failure>,
                           cmd: Insert, i: nat)
  {
    var j := i + |lines|;
    && j <= |cmd.rows| && after == Landing(law, before, cmd, i, j)
    && stop == (if j == |cmd.rows| then None else Some(ConditionFailed))
    && (cmd.insert ==> AllFree(law, before, cmd, i, j))
    && (j < |cmd.rows| ==> cmd.insert && !Free(law, before, cmd, i, j))
    && forall m | 0 <= m < |lines| :: Fits(law, before, cmd, i, i + m, lines[m])
  }

  // The line of row l: the verb and, if asked for, the item that the row replaced.
  predicate Fits(law: Law, before: Store, cmd: Insert, i: nat, l: nat, line: Emitted)
    requires l < |cmd.rows|
  {
    && line.token == (if cmd.insert then "INSERT" else "REPLACE")
    && line.returned ==
       if cmd.wantReturned then Some(Under(Landing(law, before, cmd, i, l), KeyAt(law, cmd, l)).GetOr(map[])) else None
  }

  lemma InsertedFirst(law: Law, before: Store, after: Store, line: Emitted, rest: seq<Emitted>, stop: Option<Failure>,
                      cmd: Insert, i: nat)
    requires i < |cmd.rows| && (cmd.insert ==> KeyAt(law, cmd, i) !in before)
    requires Inserted(law, before[KeyAt(law, cmd, i) := ItemAt(cmd, i)], after, rest, stop, cmd, i + 1)
    requires Fits(law, before, cmd, i, i, line)
    ensures Inserted(law, before, after, [line] + rest, stop, cmd, i)
  {
    hide Landing, Free, AllFree, KeyAt, ItemAt, Fits;
    var j := i + 1 + |rest|;
    LandingFirst(law, before, cmd, i, j);
    if cmd.insert {
      AllFreeFirst(law, before, cmd, i, j);
    }
    if j < |cmd.rows| {
      FreeFrom(law, before, cmd, i, j);
    }
    forall m | 0 <= m < |[line] + rest| ensures Fits(law, before, cmd, i, i + m, ([line] + rest)[m]) {
      if m > 0 {
        FitsFrom(law, before, cmd, i, i + m, rest[m - 1]);
      }
    }
    assert i + |[line] + rest| == j;
  }

  lemma FitsFrom(law: Law, before: Store, cmd: Insert, i: nat, l: nat, line: Emitted)
    requires i < l < |cmd.rows|
    requires Fits(law, before[KeyAt(law, cmd, i) := ItemAt(cmd, i)], cmd, i + 1, l, line)
    ensures Fits(law, before, cmd, i, l, line)
  {
    hide Landing, KeyAt, ItemAt;
    LandingFirst(law, before, cmd, i, l);
  }

  ghost predicate AllFree(law: Law, store: Store, cmd: Insert, i: nat, j: nat)
    requires j <= |cmd.rows|
  {
    forall l | i <= l < j :: Free(law, store, cmd, i, l)
  }

  lemma AllFreeFirst(law: Law, store: Store, cmd: Insert, i: nat, j: nat)
    requires i < j <= |cmd.rows| && KeyAt(law, cmd, i) !in store
    requires AllFree(law, store[KeyAt(law, cmd, i) := ItemAt(cmd, i)], cmd, i + 1, j)
    ensures AllFree(law, store, cmd, i, j)
  {
    hide Free;
    forall l | i <= l < j ensures Free(law, store, cmd, i, l) {
      if l == i {
        FirstFree(law, store, cmd, i);
      } else {
        FreeFrom(law, store, cmd, i, l);
      }
    }
  }

  lemma FirstFree(law: Law, store: Store, cmd: Insert, i: nat)
    requires i < |cmd.rows|
    ensures Free(law, store, cmd, i, i) <==> KeyAt(law, cmd, i) !in store
  {
    hide KeyAt;
  }

  // Undisturbed, a REPLACE puts all its rows; an INSERT puts its rows in order up to the
  // first whose key is taken, and fails there. One line comes out for each row put, with
  // what it replaced, and nothing else changes.
  lemma {:induction false} InsertExact(law: Law, w: World, counter: nat, cmd: Insert, pk: string, i: nat)
    requires Insertable(law, cmd, pk) && Quiet(w) && i <= |cmd.rows| && |w.turns| >= |cmd.rows| - i
    requires forall k | k in w.store :: pk in w.store[k]
    ensures var done := PutRows(law, w, counter, cmd, pk, i);
            Inserted(law, w.store, done.0.store, done.2, done.3, cmd, i)
    decreases |cmd.rows| - i
  {
    hide PutItem, PutOf, Inserted, Quiet, KeyAt, ItemAt;
    if i < |cmd.rows| {
      PutOne(law, w, counter, cmd, pk, i);
      var one := PutItem(law, w, PutOf(cmd, pk, counter, cmd.rows[i]));
      if one.1.Ok? {
        var next := NextCounter(cmd, counter);
        InsertExact(law, one.0, next, cmd, pk, i + 1);
        var rest := PutRows(law, one.0, next, cmd, pk, i + 1);
        InsertedFirst(law, w.store, rest.0.store, LineOf(cmd, one.1.value), rest.2, rest.3, cmd, i);
      } else {
        NoneInserted(law, w.store, cmd, i);
      }
    } else {
      NoneInserted(law, w.store, cmd, i);
    }
  }

  lemma NoneInserted(law: Law, store: Store, cmd: Insert, i: nat)
    requires i <= |cmd.rows| && (i < |cmd.rows| ==> cmd.insert && KeyAt(law, cmd, i) in store)
    ensures Inserted(law, store, store, [], if i == |cmd.rows| then None else Some(ConditionFailed), cmd, i)
  {
    if i < |cmd.rows| {
      FirstFree(law, store, cmd, i);
    }
  }

  // Whether a row is free with row i put before it.
  lemma FreeFrom(law: Law, store: Store, cmd: Insert, i: nat, l: nat)
    requires i < l < |cmd.rows|
    ensures var after := store[KeyAt(law, cmd, i) := ItemAt(cmd, i)];
            Free(law, after, cmd, i + 1, l) <==> Free(law, store, cmd, i, l)
  {
    hide KeyAt, ItemAt;
  }

  // ---- EXPLAIN --------------------------------------------------------------

  // EXPLAIN shows the request of every row and sends none.
  function ExplainPuts(law: Law, w: World, counter: nat, cmd: Insert, pk: string, i: nat, blocks: seq<Block>)
    : (World, nat, Result<seq<Block>, Failure>)
    decreases |cmd.rows| - i
  {
    if i >= |cmd.rows| then (w, counter, Ok(blocks))
    else
      var shown := ExplainOne(law, w, Putting(PutOf(cmd, pk, counter, cmd.rows[i])), blocks);
      if shown.1.Err? then (shown.0, NextCounter(cmd, counter), shown.1)
      else ExplainPuts(law, shown.0, NextCounter(cmd, counter), cmd, pk, i + 1, shown.1.value)
  }

  method ExplainInsert(cmd: Insert, pk: string, client: Client, prefixes: PrefixSource)
    returns (result: Result<seq<Block>, Failure>)
    modifies client, prefixes
    ensures (client.world, prefixes.counter, result) ==
            ExplainPuts(client.law, old(client.world), old(prefixes.counter), cmd, pk, 0, [])
  {
    hide ExplainOne, PutOf;
    ghost var law, all := client.law, ExplainPuts(client.law, client.world, prefixes.counter, cmd, pk, 0, []);
    var blocks := [];
    for i := 0 to |cmd.rows|
      invariant all == ExplainPuts(law, client.world, prefixes.counter, cmd, pk, i, blocks)
    {
      var put := MakePut(cmd, cmd.rows[i], pk, prefixes);
      var shown := ExplainRequestInto(client, Putting(put), blocks);
      if shown.Err? {
        return shown;
      }
      blocks := shown.value;
    }
    result := Ok(blocks);
  }

  // The requests of a run in which every row is put.
  function PutScript(cmd: Insert, pk: string, counter: nat, i: nat): seq<Request>
    decreases |cmd.rows| - i
  {
    if i >= |cmd.rows| then []
    else [Putting(PutOf(cmd, pk, counter, cmd.rows[i]))] + PutScript(cmd, pk, NextCounter(cmd, counter), i + 1)
  }

  // In any world a request is sent for each row that is put, and for one that fails.
  lemma {:induction false} PutsIssued(law: Law, w: World, counter: nat, cmd: Insert, pk: string, i: nat)
    requires i <= |cmd.rows|
    ensures var done, script := PutRows(law, w, counter, cmd, pk, i), PutScript(cmd, pk, counter, i);
            var sent := |done.2| + if done.3.None? then 0 else 1;
            && |script| == |cmd.rows| - i && sent <= |script| && (done.3.None? ==> sent == |script|)
            && done.0.issued == w.issued + script[..sent]
    decreases |cmd.rows| - i
  {
    hide PutItem, PutOf, NextCounter, LineOf;
    if i == |cmd.rows| {
      assert w.issued + [] == w.issued;
    } else {
      var r := PutOf(cmd, pk, counter, cmd.rows[i]);
      PutIsSent(law, w, r);
      var one := PutItem(law, w, r);
      PutsIssued(law, one.0, NextCounter(cmd, counter), cmd, pk, i + 1);
      var rest := PutScript(cmd, pk, NextCounter(cmd, counter), i + 1);
      if one.1.Ok? {
        var after := PutRows(law, one.0, NextCounter(cmd, counter), cmd, pk, i + 1);
        SentFirst(w.issued, Putting(r), rest, |after.2| + if after.3.None? then 0 else 1);
      } else {
        SentFirst(w.issued, Putting(r), rest, 0);
        assert w.issued + [Putting(r)] + rest[..0] == w.issued + [Putting(r)];
      }
    }
  }

  lemma SentFirst(before: seq<Request>, r: Request, rest: seq<Request>, n: nat)
    requires n <= |rest|
    ensures before + [r] + rest[..n] == before + ([r] + rest)[..n + 1]
  {
    assert ([r] + rest)[..n + 1] == [r] + rest[..n];
  }

  lemma {:induction false} PutScriptAt(cmd: Insert, pk: string, counter: nat, i: nat, m: nat)
    requires i + m < |cmd.rows|
    ensures var script := PutScript(cmd, pk, counter, i);
            && m < |script|
            && script[m] == Putting(PutOf(cmd, pk, if cmd.insert then counter + m else counter, cmd.rows[i + m]))
    decreases m
  {
    hide PutOf;
    if m > 0 {
      PutScriptAt(cmd, pk, NextCounter(cmd, counter), i + 1, m - 1);
    }
  }

  lemma {:induction false} PutsShown(law: Law, w: World, counter: nat, cmd: Insert, pk: string, i: nat,
                                     blocks: seq<Block>)
    requires i <= |cmd.rows|
    ensures var done := ExplainPuts(law, w, counter, cmd, pk, i, blocks);
            && done.0 == w.(explained := done.0.explained)
            && (done.2.Ok? ==> Shows(law, w, blocks, (done.0, done.2), PutScript(cmd, pk, counter, i)))
    decreases |cmd.rows| - i
  {
    hide PutOf, ExplainOne, Shows;
    if i == |cmd.rows| {
      NothingShown(law, w, blocks);
    } else {
      var r := Putting(PutOf(cmd, pk, counter, cmd.rows[i]));
      var one := ExplainOne(law, w, r, blocks);
      OneShows(law, w, r, blocks);
      if one.1.Ok? {
        var next := NextCounter(cmd, counter);
        PutsShown(law, one.0, next, cmd, pk, i + 1, one.1.value);
        var rest := ExplainPuts(law, one.0, next, cmd, pk, i + 1, one.1.value);
        if rest.2.Ok? {
          ShowsThen(law, w, blocks, one, [r], one.0, (rest.0, rest.2), PutScript(cmd, pk, next, i + 1));
        }
      }
    }
  }

  // What EXPLAIN shows of a valid statement is what a run sends that puts every row.
  lemma InsertExplained(law: Law, live: World, dry: World, counter: nat, cmd: Insert, pk: string)
    requires PutRows(law, live, counter, cmd, pk, 0).3.None?
    ensures var run := PutRows(law, live, counter, cmd, pk, 0).0;
            var shown := ExplainPuts(law, dry, counter, cmd, pk, 0, []);
            && live.issued <= run.issued && shown.0 == dry.(explained := shown.0.explained)
            && (shown.2.Ok? ==> Shows(law, dry, [], (shown.0, shown.2), run.issued[|live.issued|..]))
  {
    hide PutRows, ExplainPuts, PutScript, Shows;
    PutsIssued(law, live, counter, cmd, pk, 0);
    assert PutScript(cmd, pk, counter, 0)[..|PutScript(cmd, pk, counter, 0)|] == PutScript(cmd, pk, counter, 0);
    PutsShown(law, dry, counter, cmd, pk, 0, []);
    var run := PutRows(law, live, counter, cmd, pk, 0).0;
    assert run.issued[|live.issued|..] == PutScript(cmd, pk, counter, 0);
  }
}

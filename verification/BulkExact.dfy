// What a bulk UPDATE, UPSERT or DELETE does that nobody interferes with: it changes
// or removes, each once and however the read is paged, the items the WHERE selects,
// exactly those of them that pass the condition.

module BulkExactness {
  import opened Values
  import opened Expressions
  import opened Splitting
  import opened Reader
  import opened Access
  import opened SingleItem
  import opened Enforcing
  import opened Symbols
  import opened Updates
  import opened Requests
  import opened Planner
  import opened Service
  import opened Reads
  import opened BulkWrites

  // ---- accounting -----------------------------------------------------------

  predicate Balanced(acct: Acct, wantReturned: bool) {
    acct.read == acct.modified + acct.ccf && |acct.returned| == if wantReturned then acct.modified else 0
  }

  lemma {:induction false} RowsBalanced(law: Law, w: World, rows: seq<Item>, t: WriteRequest, wantReturned: bool,
                                        acct: Acct)
    requires Balanced(acct, wantReturned)
    ensures var r := RunRows(law, w, rows, t, wantReturned, acct).1; r.Ok? ==> Balanced(r.value, wantReturned)
    decreases |rows|
  {
    if rows != [] {
      var done := WriteItem(law, w, t.(key := rows[0]));
      if !Fatal(done.1) {
        RowsBalanced(law, done.0, rows[1..], t, wantReturned, Counted(acct, done.1, wantReturned));
      }
    }
  }

  // Every successful bulk run reports read = modified + ccf, and returns one item
  // per modification when items were asked for.
  lemma {:induction false} BulkRunBalanced(law: Law, w: World, read: ReadRequest, t: WriteRequest, wantReturned: bool,
                                           acct: Acct)
    requires Balanced(acct, wantReturned)
    ensures var r := RunPages(law, w, read, t, wantReturned, acct).1; r.Ok? ==> Balanced(r.value, wantReturned)
    decreases |w.turns|
  {
    var page := ReadPage(law, w, read);
    if page.1.Ok? {
      RowsBalanced(law, page.0, page.1.value.rows, t, wantReturned, acct);
      RowsUseTurns(law, page.0, page.1.value.rows, t, wantReturned, acct);
      var done := RunRows(law, page.0, page.1.value.rows, t, wantReturned, acct);
      if done.1.Ok? && page.1.value.last.Some? {
        BulkRunBalanced(law, done.0, read.(startKey := page.1.value.last), t, wantReturned, done.1.value);
      }
    }
  }

  // What the writes that went through gave back, in order.
  function Returned(writes: seq<Written>): seq<Item> {
    if writes == [] then []
    else
      var last := writes[|writes| - 1].outcome;
      Returned(writes[..|writes| - 1]) + if last.Ok? then [last.value.GetOr(map[])] else []
  }

  // The account of these writes: each was read, some went through, the others failed
  // their condition.
  predicate Accounts(acct: Acct, writes: seq<Written>, wantReturned: bool) {
    && acct.read == |writes| && acct.modified == |Returned(writes)| && acct.ccf == |writes| - |Returned(writes)|
    && acct.returned == (if wantReturned then Returned(writes) else [])
    && forall d | d in writes :: d.outcome.Ok? || d.outcome == Err(ConditionFailed)
  }

  lemma OneMoreWrite(acct: Acct, writes: seq<Written>, done: Written, wantReturned: bool)
    requires Accounts(acct, writes, wantReturned) && !Fatal(done.outcome)
    ensures Accounts(Counted(acct, done.outcome, wantReturned), writes + [done], wantReturned)
  {
    assert (writes + [done])[..|writes|] == writes;
  }

  lemma {:induction false} RowsAccount(law: Law, w: World, rows: seq<Item>, t: WriteRequest, wantReturned: bool,
                                       acct: Acct, n: nat)
    requires n <= |w.writes| && Accounts(acct, w.writes[n..], wantReturned)
    ensures var done := RunRows(law, w, rows, t, wantReturned, acct);
            done.1.Ok? ==> n <= |done.0.writes| && Accounts(done.1.value, done.0.writes[n..], wantReturned)
    decreases |rows|
  {
    hide Accounts;
    if rows != [] {
      var r := t.(key := rows[0]);
      var done := WriteItem(law, w, r);
      if !Fatal(done.1) {
        WriteIsLogged(law, w, r);
        var d := done.0.writes[|w.writes|];
        assert done.0.writes[n..] == w.writes[n..] + [d];
        OneMoreWrite(acct, w.writes[n..], d, wantReturned);
        RowsAccount(law, done.0, rows[1..], t, wantReturned, Counted(acct, done.1, wantReturned), n);
      }
    }
  }

  lemma WriteIsLogged(law: Law, w: World, r: WriteRequest)
    requires !Fatal(WriteItem(law, w, r).1)
    ensures var done := WriteItem(law, w, r);
            |done.0.writes| == |w.writes| + 1 && w.writes <= done.0.writes
            && done.0.writes[|w.writes|].outcome == done.1
  {
  }

  // Every successful bulk run reports its writes: their number as read, those that went
  // through as modified, with what each gave back when that was asked for, and those
  // that failed their condition as ccf.
  lemma {:induction false} BulkRunAccounts(law: Law, w: World, read: ReadRequest, t: WriteRequest, wantReturned: bool,
                                           acct: Acct, n: nat)
    requires n <= |w.writes| && Accounts(acct, w.writes[n..], wantReturned)
    ensures var done := RunPages(law, w, read, t, wantReturned, acct);
            done.1.Ok? ==> n <= |done.0.writes| && Accounts(done.1.value, done.0.writes[n..], wantReturned)
    decreases |w.turns|
  {
    hide RunRows, Accounts;
    var page := ReadPage(law, w, read);
    if page.1.Ok? {
      RowsAccount(law, page.0, page.1.value.rows, t, wantReturned, acct, n);
      RowsUseTurns(law, page.0, page.1.value.rows, t, wantReturned, acct);
      var done := RunRows(law, page.0, page.1.value.rows, t, wantReturned, acct);
      if done.1.Ok? && page.1.value.last.Some? && page.1.value.last.value != map[] {
        BulkRunAccounts(law, done.0, read.(startKey := page.1.value.last), t, wantReturned, done.1.value, n);
      }
    }
  }

  // ---- left alone -----------------------------------------------------------

  ghost predicate Quiet(w: World) {
    forall t | t in w.turns :: t.foreign.None? && !t.fault
  }

  ghost predicate Distinct(keys: seq<Key>) {
    forall i, j | 0 <= i < j < |keys| :: keys[i] != keys[j]
  }

  predicate Picked(law: Law, store: Store, index: Option<string>, where: Option<Expr>, k: Key) {
    k in store && Shown(law, index, store[k]) && Wanted(where, law.sem, store[k])
  }

  // The keys the WHERE selects, of the items the index shows, in the order given. With
  // the condition in its place, and no index, the keys whose writes go through.
  function Chosen(law: Law, store: Store, index: Option<string>, where: Option<Expr>, keys: seq<Key>): seq<Key> {
    if keys == [] then []
    else (if Picked(law, store, index, where, keys[0]) then [keys[0]] else [])
         + Chosen(law, store, index, where, keys[1..])
  }

  lemma {:induction false} ChosenMembers(law: Law, store: Store, index: Option<string>, where: Option<Expr>,
                                          keys: seq<Key>)
    ensures forall k :: k in Chosen(law, store, index, where, keys) <==>
            k in keys && Picked(law, store, index, where, k)
    ensures Distinct(keys) ==> Distinct(Chosen(law, store, index, where, keys))
  {
    if keys != [] {
      ChosenMembers(law, store, index, where, keys[1..]);
      assert forall k :: k in keys <==> k == keys[0] || k in keys[1..];
      if Distinct(keys) {
        assert forall j | 0 <= j < |keys[1..]| :: keys[1..][j] == keys[j + 1] && keys[j + 1] != keys[0];
      }
    }
  }

  lemma {:induction false} ChosenConcat(law: Law, store: Store, index: Option<string>, where: Option<Expr>, a: seq<Key>,
                                         b: seq<Key>)
    ensures Chosen(law, store, index, where, a + b) ==
            Chosen(law, store, index, where, a) + Chosen(law, store, index, where, b)
  {
    hide Picked;
    if a == [] {
      assert a + b == b;
    } else {
      assert (a + b)[0] == a[0] && (a + b)[1..] == a[1..] + b;
      ChosenConcat(law, store, index, where, a[1..], b);
    }
  }

  lemma {:induction false} ChosenFrame(law: Law, s: Store, t: Store, index: Option<string>, where: Option<Expr>,
                                        keys: seq<Key>)
    requires forall k | k in keys :: (k in s <==> k in t) && (k in s ==> s[k] == t[k])
    ensures Chosen(law, s, index, where, keys) == Chosen(law, t, index, where, keys)
  {
    if keys != [] {
      ChosenFrame(law, s, t, index, where, keys[1..]);
    }
  }

  lemma {:induction false} DistinctCount(keys: seq<Key>)
    requires Distinct(keys)
    ensures |keys| == |set k | k in keys|
  {
    if keys != [] {
      DistinctCount(keys[1..]);
      assert (set k | k in keys) == {keys[0]} + (set k | k in keys[1..]);
      assert forall j | 0 <= j < |keys[1..]| :: keys[1..][j] == keys[j + 1] && keys[j + 1] != keys[0];
    }
  }

  // An accepted read of the table or an index, wherever it starts.
  ghost predicate QuietRead(r: ReadRequest, where: Option<Expr>, plan: Option<QueryKeyPlan>, pk: string, rk: string) {
    Fit(where) && IsRead(r, where, plan, pk, rk) && Accepted(r)
  }

  lemma {:induction false} RowsAreChosen(law: Law, store: Store, r: ReadRequest, keys: seq<Key>, where: Option<Expr>,
                                         plan: Option<QueryKeyPlan>, pk: string, rk: string)
    requires QuietRead(r, where, plan, pk, rk) && WellKeyed(store, pk, rk)
    ensures RowsAt(law, store, r, keys) == Chosen(law, store, r.index, where, keys)
  {
    hide QuietRead, WellKeyed, RowAt, Picked;
    if keys != [] {
      RowsAreChosen(law, store, r, keys[1..], where, plan, pk, rk);
      RowIsChosen(law, store, r, keys[0], where, plan, pk, rk);
    }
  }

  lemma RowIsChosen(law: Law, store: Store, r: ReadRequest, k: Key, where: Option<Expr>, plan: Option<QueryKeyPlan>,
                    pk: string, rk: string)
    requires QuietRead(r, where, plan, pk, rk) && WellKeyed(store, pk, rk)
    ensures RowAt(law, store, r, k) == if Picked(law, store, r.index, where, k) then [k] else []
  {
    hide ReadsFor, Accepted, Selects, Project;
    if k in store {
      AcceptedMeans(r, where, plan, ItemMeaning(law.sem, store[k]));
      RowIsKey(r, where, plan, pk, rk, k, store[k]);
    }
  }

  // ---- what the writes of a run do ------------------------------------------

  // The store with the template's write done at these keys: items removed, or each
  // updated as it was.
  function Effect(law: Law, store: Store, t: WriteRequest, keys: set<Key>): Store {
    if t.update.None? then store - keys
    else map k | k in store :: if k in keys then Updated(law, t.(key := k), store[k]) else store[k]
  }

  lemma NoEffect(law: Law, store: Store, t: WriteRequest)
    ensures Effect(law, store, t, {}) == store
  {
  }

  lemma EffectAgain(law: Law, store: Store, t: WriteRequest, a: set<Key>, b: set<Key>)
    requires a !! b
    ensures Effect(law, Effect(law, store, t, a), t, b) == Effect(law, store, t, a + b)
  {
    hide Updated;
  }

  lemma EffectElsewhere(law: Law, store: Store, t: WriteRequest, keys: set<Key>, k: Key)
    requires k !in keys
    ensures var after := Effect(law, store, t, keys);
            (k in after <==> k in store) && (k in store ==> after[k] == store[k])
  {
    hide Updated;
  }

  lemma EffectKeyed(law: Law, store: Store, t: WriteRequest, keys: set<Key>, pk: string, rk: string)
    requires pk != "" && WellKeyed(store, pk, rk)
    ensures WellKeyed(Effect(law, store, t, keys), pk, rk)
  {
    hide Updated, KeyMatches;
    var after := Effect(law, store, t, keys);
    forall k | k in after
      ensures k.Keys == (set a | a in BaseKeys(pk, rk)) && KeyMatches(k, after[k]) && "" !in after[k]
    {
      UpdatedKeyed(law, t.(key := k), store[k], pk, rk);
    }
  }

  lemma UpdatedKeyed(law: Law, t: WriteRequest, item: Item, pk: string, rk: string)
    requires pk != "" && t.key.Keys == (set a | a in BaseKeys(pk, rk))
    ensures KeyMatches(t.key, Updated(law, t, item)) && "" !in Updated(law, t, item)
  {
  }

  function KeySet(keys: seq<Key>): set<Key> {
    set k | k in keys
  }

  // The part of the WHERE that is the condition of a write.
  function ConditionOf(where: Option<Expr>, pk: string, rk: string): Option<Expr> {
    if where.None? then None else Prune(where.value, Residual(pk, rk))
  }

  lemma PassesCondition(where: Option<Expr>, pk: string, rk: string, sem: Semantics, item: Item)
    ensures Passes(where, pk, rk, sem, item) <==> Wanted(ConditionOf(where, pk, rk), sem, item)
  {
  }

  // The template of a write that the service takes for what it means.
  ghost predicate QuietTemplate(law: Law, t: WriteRequest, guarded: bool, where: Option<Expr>, pk: string, rk: string) {
    && pk != "" && Fit(where) && IsTemplate(t, guarded, where, pk, rk) && (guarded ==> ExistsIsPresence(law.sem, pk))
    && Taken(t, where, pk, rk)
  }

  // Writing one item: it goes through when the item passes the condition.
  lemma QuietWrite(law: Law, w: World, t: WriteRequest, guarded: bool, where: Option<Expr>, pk: string, rk: string)
    requires QuietTemplate(law, t, guarded, where, pk, rk)
    requires Quiet(w) && w.turns != [] && WellKeyed(w.store, pk, rk)
    requires t.key in w.store
    ensures var done := WriteItem(law, w, t);
            var passes := Wanted(ConditionOf(where, pk, rk), law.sem, w.store[t.key]);
            && Quiet(done.0) && |done.0.turns| == |w.turns| - 1
            && done.1 == (if passes then Ok(Some(w.store[t.key])) else Err(ConditionFailed))
            && done.0.store == Effect(law, w.store, t, if passes then {t.key} else {})
  {
    hide Verdict, IsTemplate, Fit, WellKeyed, Updated, ExistsIsPresence, Passes, Taken, Wanted, ConditionOf;
    assert w.turns[0] in w.turns;
    PassesCondition(where, pk, rk, law.sem, w.store[t.key]);
    WriteVerdict(law, w.store, t, guarded, where, pk, rk);
    NoEffect(law, w.store, t);
    assert forall x | x in w.turns[1..] :: x in w.turns;
    assert t.(key := t.key) == t;
  }

  lemma {:induction false} QuietRows(law: Law, w: World, rows: seq<Item>, t: WriteRequest, wantReturned: bool,
                                     acct: Acct, guarded: bool, where: Option<Expr>, pk: string, rk: string)
    requires QuietTemplate(law, t, guarded, where, pk, rk)
    requires Quiet(w) && WellKeyed(w.store, pk, rk) && Distinct(rows) && |w.turns| >= |rows|
    requires forall row | row in rows :: row in w.store
    ensures var done := RunRows(law, w, rows, t, wantReturned, acct);
            && Quiet(done.0) && |done.0.turns| == |w.turns| - |rows|
            && Wrote(law, w, done, t, acct, rows, Chosen(law, w.store, None, ConditionOf(where, pk, rk), rows))
    decreases |rows|
  {
    hide QuietTemplate, Wanted, WriteItem, Quiet, WellKeyed, Effect, Chosen, ConditionOf;
    var condition := ConditionOf(where, pk, rk);
    if rows == [] {
      NoEffect(law, w.store, t);
      ChosenEmpty(law, w.store, None, condition);
      assert KeySet(rows) == {};
    } else {
      var done := WriteItem(law, w, t.(key := rows[0]));
      var first := Chosen(law, w.store, None, condition, [rows[0]]);
      var rest := Chosen(law, w.store, None, condition, rows[1..]);
      assert rows[0] in rows;
      QuietFirst(law, w, t, rows[0], guarded, where, pk, rk);
      TailDistinct(rows);
      EffectFrame(law, w.store, t, first, rows[1..], None, condition);
      QuietRows(law, done.0, rows[1..], t, wantReturned, Counted(acct, done.1, wantReturned), guarded, where, pk, rk);
      ChosenConcat(law, w.store, None, condition, [rows[0]], rows[1..]);
      ChosenMembers(law, w.store, None, condition, rows[1..]);
      assert [rows[0]] + rows[1..] == rows;
      hide Wrote;
      var last := RunRows(law, w, rows, t, wantReturned, acct);
      WroteFirst(law, w, done, last, t, acct, wantReturned, first, rows[1..], rest);
    }
  }

  // The first write, as one of a list.
  lemma QuietFirst(law: Law, w: World, t: WriteRequest, k: Key, guarded: bool, where: Option<Expr>, pk: string,
                   rk: string)
    requires QuietTemplate(law, t, guarded, where, pk, rk)
    requires Quiet(w) && w.turns != [] && WellKeyed(w.store, pk, rk) && k in w.store
    ensures var done := WriteItem(law, w, t.(key := k));
            var first := Chosen(law, w.store, None, ConditionOf(where, pk, rk), [k]);
            && Quiet(done.0) && |done.0.turns| == |w.turns| - 1 && WellKeyed(done.0.store, pk, rk)
            && done.0.store == Effect(law, w.store, t, KeySet(first))
            && |first| <= 1 && (forall x | x in first :: x == k)
            && !Fatal(done.1) && if first == [] then done.1 == Err(ConditionFailed) else done.1.Ok?
  {
    hide QuietTemplate, Wanted, WriteItem, Quiet, WellKeyed, Effect, Chosen, ConditionOf;
    var condition := ConditionOf(where, pk, rk);
    OtherKey(law, t, k, guarded, where, pk, rk);
    QuietWrite(law, w, t.(key := k), guarded, where, pk, rk);
    ChosenOne(law, w.store, None, condition, k);
    var first := Chosen(law, w.store, None, condition, [k]);
    SameEffect(law, w.store, t, k, KeySet(first));
    EffectKeyed(law, w.store, t, KeySet(first), pk, rk);
  }

  lemma ChosenOne(law: Law, store: Store, index: Option<string>, where: Option<Expr>, k: Key)
    ensures var one := Chosen(law, store, index, where, [k]);
            && one == (if Picked(law, store, index, where, k) then [k] else [])
            && KeySet(one) == (if Picked(law, store, index, where, k) then {k} else {})
  {
    hide Picked;
    assert [k][1..] == [];
  }

  // Writes elsewhere do not change what is selected of these keys.
  lemma EffectFrame(law: Law, store: Store, t: WriteRequest, written: seq<Key>, keys: seq<Key>,
                    index: Option<string>, where: Option<Expr>)
    requires forall k | k in keys :: k !in written
    ensures var after := Effect(law, store, t, KeySet(written));
            && Chosen(law, after, index, where, keys) == Chosen(law, store, index, where, keys)
            && forall k | k in keys :: k in after <==> k in store
  {
    hide Effect, Chosen;
    var after := Effect(law, store, t, KeySet(written));
    forall k | k in keys ensures (k in after <==> k in store) && (k in after ==> after[k] == store[k]) {
      EffectElsewhere(law, store, t, KeySet(written), k);
    }
    ChosenFrame(law, after, store, index, where, keys);
  }

  // One write, and the others after it.
  lemma WroteFirst(law: Law, w: World, done: (World, Result<Option<Item>, Failure>, Option<real>),
                   last: (World, Result<Acct, Failure>), t: WriteRequest, acct: Acct, wantReturned: bool,
                   first: seq<Key>, rows: seq<Key>, rest: seq<Key>)
    requires |first| <= 1 && done.0.store == Effect(law, w.store, t, KeySet(first))
    requires if first == [] then done.1 == Err(ConditionFailed) else done.1.Ok?
    requires Wrote(law, done.0, last, t, Counted(acct, done.1, wantReturned), rows, rest)
    requires forall k | k in first :: k !in rest
    ensures forall k: Key :: Wrote(law, w, last, t, acct, [k] + rows, first + rest)
  {
    hide Effect;
    assert KeySet(first + rest) == KeySet(first) + KeySet(rest);
    EffectAgain(law, w.store, t, KeySet(first), KeySet(rest));
  }

  lemma SameEffect(law: Law, store: Store, t: WriteRequest, k: Key, keys: set<Key>)
    ensures Effect(law, store, t.(key := k), keys) == Effect(law, store, t, keys)
  {
    hide Updated;
    assert forall x: Key :: t.(key := k).(key := x) == t.(key := x);
  }

  lemma OtherKey(law: Law, t: WriteRequest, k: Key, guarded: bool, where: Option<Expr>, pk: string, rk: string)
    requires QuietTemplate(law, t, guarded, where, pk, rk)
    ensures QuietTemplate(law, t.(key := k), guarded, where, pk, rk) && pk != ""
  {
    SameUpdate(t, k);
  }

  lemma TailDistinct(rows: seq<Key>)
    requires Distinct(rows) && rows != []
    ensures Distinct(rows[1..]) && rows[0] !in rows[1..]
  {
    assert forall j | 0 <= j < |rows[1..]| :: rows[1..][j] == rows[j + 1] && rows[j + 1] != rows[0];
  }

  lemma {:induction false} AfterIs(order: seq<Key>, i: nat)
    requires i < |order| && Distinct(order)
    ensures After(order, order[i]) == i + 1
  {
    if i > 0 {
      AfterIs(order[1..], i - 1);
    }
  }

  // The run tried these keys, wrote at some of them, and counted each.
  ghost predicate Wrote(law: Law, before: World, done: (World, Result<Acct, Failure>), t: WriteRequest, acct: Acct,
                        keys: seq<Key>, hits: seq<Key>) {
    && done.1.Ok?
    && done.0.store == Effect(law, before.store, t, KeySet(hits))
    && done.1.value.read == acct.read + |keys| && done.1.value.modified == acct.modified + |hits|
    && done.1.value.ccf == acct.ccf + |keys| - |hits|
  }

  // An undisturbed page holds the keys selected among those it evaluates.
  lemma QuietPage(law: Law, w: World, read: ReadRequest, where: Option<Expr>, plan: Option<QueryKeyPlan>, pk: string,
                  rk: string)
    requires QuietRead(read, where, plan, pk, rk)
    requires Quiet(w) && WellKeyed(w.store, pk, rk) && w.turns != []
    ensures var page := ReadPage(law, w, read);
            var start := Position(law, read);
            var end := PageEnd(law, start, w.turns[0].limit);
            && Quiet(page.0) && page.0.store == w.store && |page.0.turns| == |w.turns| - 1 && page.1.Ok?
            && page.1.value.rows == Chosen(law, w.store, read.index, where, law.order[start..end])
            && page.1.value.last == (if end < |law.order| then Some(law.order[end - 1]) else None)
  {
    hide RowsAt, Chosen;
    var start := Position(law, read);
    assert w.turns[0] in w.turns;
    RowsAreChosen(law, w.store, read, law.order[start..PageEnd(law, start, w.turns[0].limit)], where, plan, pk, rk);
    assert forall x | x in w.turns[1..] :: x in w.turns;
  }

  // Two batches of writes, one after the other.
  lemma WroteTwice(law: Law, w: World, first: (World, Result<Acct, Failure>), second: (World, Result<Acct, Failure>),
                   t: WriteRequest, acct: Acct, a: seq<Key>, b: seq<Key>, hitsA: seq<Key>, hitsB: seq<Key>)
    requires Wrote(law, w, first, t, acct, a, hitsA) && Wrote(law, first.0, second, t, first.1.value, b, hitsB)
    requires forall k | k in hitsA :: k !in hitsB
    ensures Wrote(law, w, second, t, acct, a + b, hitsA + hitsB)
  {
    hide Effect;
    assert KeySet(hitsA + hitsB) == KeySet(hitsA) + KeySet(hitsB);
    EffectAgain(law, w.store, t, KeySet(hitsA), KeySet(hitsB));
  }

  // The keys a run that continues here is to try, and those of any that pass.
  function Ahead(law: Law, store: Store, read: ReadRequest, where: Option<Expr>): seq<Key> {
    Chosen(law, store, read.index, where, law.order[Position(law, read)..])
  }

  function Hits(law: Law, store: Store, where: Option<Expr>, pk: string, rk: string, keys: seq<Key>): seq<Key> {
    Chosen(law, store, None, ConditionOf(where, pk, rk), keys)
  }

  // From wherever the read stands, given a turn for each key still to be evaluated,
  // one more, and one for each write, the run tries what is selected from there on, and
  // writes at what passes.
  lemma {:induction false} QuietPages(law: Law, w: World, read: ReadRequest, t: WriteRequest, wantReturned: bool,
                                      acct: Acct, guarded: bool, where: Option<Expr>, plan: Option<QueryKeyPlan>,
                                      pk: string, rk: string)
    requires QuietRead(read, where, plan, pk, rk) && QuietTemplate(law, t, guarded, where, pk, rk)
    requires Quiet(w) && WellKeyed(w.store, pk, rk) && Distinct(law.order) && map[] !in law.order
    requires |w.turns| > |law.order| - Position(law, read) + |Ahead(law, w.store, read, where)|
    ensures var keys := Ahead(law, w.store, read, where);
            Wrote(law, w, RunPages(law, w, read, t, wantReturned, acct), t, acct, keys,
                  Hits(law, w.store, where, pk, rk, keys))
    decreases |w.turns|
  {
    hide RunRows, ReadPage, QuietRead, QuietTemplate, Wanted, Quiet, WellKeyed, Chosen, Effect, Position, PageEnd;
    hide ConditionOf;
    QuietPage(law, w, read, where, plan, pk, rk);
    var page := ReadPage(law, w, read);
    var rows := page.1.value.rows;
    var start := Position(law, read);
    var end := PageEnd(law, start, w.turns[0].limit);
    PageEndBounds(law, start, w.turns[0].limit);
    var now, later := law.order[start..end], law.order[end..];
    ChosenConcat(law, w.store, read.index, where, now, later);
    assert law.order[start..] == now + later;
    PageWrites(law, page.0, read.index, rows, t, wantReturned, acct, guarded, where, pk, rk, start, end);
    RowsUseTurns(law, page.0, rows, t, wantReturned, acct);
    var done := RunRows(law, page.0, rows, t, wantReturned, acct);
    if end == |law.order| {
      ChosenEmpty(law, w.store, read.index, where);
      assert rows + [] == rows;
    } else {
      var todo := Chosen(law, w.store, read.index, where, later);
      var next := read.(startKey := Some(law.order[end - 1]));
      NextPosition(law, read, end);
      ReadAnywhere(read, next, where, plan, pk, rk);
      QuietPages(law, done.0, next, t, wantReturned, done.1.value, guarded, where, plan, pk, rk);
      var rest := RunPages(law, done.0, next, t, wantReturned, done.1.value);
      ChosenConcat(law, w.store, None, ConditionOf(where, pk, rk), rows, todo);
      WroteTwice(law, w, done, rest, t, acct, rows, todo, Hits(law, w.store, where, pk, rk, rows),
                 Hits(law, w.store, where, pk, rk, todo));
    }
  }

  // The writes of one page, and what they leave to the pages after it.
  lemma PageWrites(law: Law, w: World, index: Option<string>, rows: seq<Key>, t: WriteRequest, wantReturned: bool,
                   acct: Acct, guarded: bool, where: Option<Expr>, pk: string, rk: string, start: nat, end: nat)
    requires QuietTemplate(law, t, guarded, where, pk, rk)
    requires Quiet(w) && WellKeyed(w.store, pk, rk) && Distinct(law.order) && |w.turns| >= |rows|
    requires start <= end <= |law.order| && rows == Chosen(law, w.store, index, where, law.order[start..end])
    ensures var done := RunRows(law, w, rows, t, wantReturned, acct);
            var later := law.order[end..];
            var todo, hits := Chosen(law, w.store, index, where, later), Hits(law, w.store, where, pk, rk, rows);
            && Quiet(done.0) && |done.0.turns| == |w.turns| - |rows|
            && Wrote(law, w, done, t, acct, rows, hits) && WellKeyed(done.0.store, pk, rk)
            && Chosen(law, done.0.store, index, where, later) == todo
            && Hits(law, done.0.store, where, pk, rk, todo) == Hits(law, w.store, where, pk, rk, todo)
            && forall k | k in hits :: k !in Hits(law, w.store, where, pk, rk, todo)
  {
    hide RunRows, QuietTemplate, Wanted, Quiet, WellKeyed, Chosen, Effect, Distinct, ConditionOf;
    var now, later := law.order[start..end], law.order[end..];
    var condition, todo := ConditionOf(where, pk, rk), Chosen(law, w.store, index, where, later);
    var hits := Hits(law, w.store, where, pk, rk, rows);
    SliceDistinct(law.order, start, end);
    ChosenMembers(law, w.store, index, where, now);
    ChosenMembers(law, w.store, index, where, later);
    ChosenMembers(law, w.store, None, condition, rows);
    ChosenMembers(law, w.store, None, condition, todo);
    QuietRows(law, w, rows, t, wantReturned, acct, guarded, where, pk, rk);
    OtherKey(law, t, t.key, guarded, where, pk, rk);
    EffectKeyed(law, w.store, t, KeySet(hits), pk, rk);
    EffectFrame(law, w.store, t, hits, later, index, where);
    EffectFrame(law, w.store, t, hits, todo, None, condition);
  }

  lemma NextPosition(law: Law, read: ReadRequest, end: nat)
    requires Distinct(law.order) && map[] !in law.order && 0 < end <= |law.order|
    ensures Position(law, read.(startKey := Some(law.order[end - 1]))) == end && law.order[end - 1] != map[]
  {
    AfterIs(law.order, end - 1);
    assert law.order[end - 1] in law.order;
  }

  lemma PageEndBounds(law: Law, start: nat, limit: nat)
    requires start <= |law.order|
    ensures start <= PageEnd(law, start, limit) <= |law.order|
    ensures start < |law.order| ==> start < PageEnd(law, start, limit)
  {
  }

  lemma SliceDistinct(order: seq<Key>, start: nat, end: nat)
    requires Distinct(order) && start <= end <= |order|
    ensures Distinct(order[start..end])
    ensures forall k | k in order[start..end] :: k !in order[end..]
  {
    forall i, j | start <= i < end && end <= j < |order| ensures order[i] != order[j] {
    }
    forall k | k in order[start..end] ensures k !in order[end..] {
      var i :| start <= i < end && order[i] == k;
    }
  }

  lemma ChosenEmpty(law: Law, store: Store, index: Option<string>, where: Option<Expr>)
    ensures Chosen(law, store, index, where, []) == []
  {
  }

  lemma ReadAnywhere(read: ReadRequest, next: ReadRequest, where: Option<Expr>, plan: Option<QueryKeyPlan>, pk: string,
                     rk: string)
    requires QuietRead(read, where, plan, pk, rk) && next == read.(startKey := next.startKey)
    ensures QuietRead(next, where, plan, pk, rk)
  {
  }

  // The keys of the items a clause selects, of those the index shows.
  function WantedKeys(law: Law, store: Store, index: Option<string>, where: Option<Expr>): set<Key> {
    set k | k in store && Picked(law, store, index, where, k)
  }

  // Those of them whose items pass the condition.
  function HitKeys(law: Law, store: Store, index: Option<string>, where: Option<Expr>, pk: string,
                   rk: string): (keys: set<Key>)
    ensures keys <= WantedKeys(law, store, index, where)
  {
    set k | k in WantedKeys(law, store, index, where) && Passes(where, pk, rk, law.sem, store[k])
  }

  // All of them, when the condition follows from the clause.
  lemma KeptHitsAll(law: Law, store: Store, index: Option<string>, where: Option<Expr>, pk: string, rk: string)
    requires Fit(where) && Kept(where, pk, rk) && ConditionReady(where, pk, rk)
    ensures HitKeys(law, store, index, where, pk, rk) == WantedKeys(law, store, index, where)
  {
    hide Fit, Kept, ConditionReady, Wanted, Passes, Shown;
    forall k | k in WantedKeys(law, store, index, where) ensures Passes(where, pk, rk, law.sem, store[k]) {
      WantedPasses(where, pk, rk, law.sem, store[k]);
    }
  }

  // And only then, in every store and whatever the predicates mean.
  lemma KeptHitsExactly(where: Option<Expr>, pk: string, rk: string)
    requires Fit(where) && ConditionReady(where, pk, rk) && (where.Some? ==> Linear(where.value)) && pk != ""
    ensures Kept(where, pk, rk) <==>
            forall law: Law, store: Store, index: Option<string> | WellKeyed(store, pk, rk) ::
              HitKeys(law, store, index, where, pk, rk) == WantedKeys(law, store, index, where)
  {
    hide WellKeyed, HitKeys, WantedKeys;
    if Kept(where, pk, rk) {
      forall law: Law, store: Store, index: Option<string> | WellKeyed(store, pk, rk)
        ensures HitKeys(law, store, index, where, pk, rk) == WantedKeys(law, store, index, where)
      {
        KeptHitsAll(law, store, index, where, pk, rk);
      }
    } else {
      ArityWeaken(where.value);
      SolidExactly(where.value, Residual(pk, rk));
      KeptExactly(where.value, Residual(pk, rk));
      var m: Meaning :| Eval(where.value, m) && !EvalOption(Prune(where.value, Residual(pk, rk)), m);
      var law, store := Missing(m, where, pk, rk);
    }
  }

  // A store with one item, which is wanted and does not pass.
  lemma Missing(m: Meaning, where: Option<Expr>, pk: string, rk: string) returns (law: Law, store: Store)
    requires where.Some? && pk != ""
    requires Eval(where.value, m) && !EvalOption(Prune(where.value, Residual(pk, rk)), m)
    ensures WellKeyed(store, pk, rk) && HitKeys(law, store, None, where, pk, rk) != WantedKeys(law, store, None, where)
  {
    hide Eval, Prune;
    var sem: Semantics := (p, x) => m(p);
    law := Law(sem, {}, [], (u, item) => item, (index, item) => true, r => None);
    var k: Key := map a | a in BaseKeys(pk, rk) :: Null;
    store := map[k := k];
    assert forall a | a in k :: Lookup(k, a) == Some(k[a]);
    MeansIs(m, sem, k);
    assert k in WantedKeys(law, store, None, where) && k !in HitKeys(law, store, None, where, pk, rk);
  }

  lemma MeansIs(m: Meaning, sem: Semantics, item: Item)
    requires forall p, x :: sem(p, x) == m(p)
    ensures forall e: Expr :: Eval(e, ItemMeaning(sem, item)) == Eval(e, m)
  {
    forall p: Pred ensures ItemMeaning(sem, item)(p) == m(p) {
      assert sem(p, Lookup(item, p.lhs)) == m(p);
    }
    forall e: Expr ensures Eval(e, ItemMeaning(sem, item)) == Eval(e, m) {
      EvalFrame(e, ItemMeaning(sem, item), m);
    }
  }

  // A world left alone, in which the service sees every key, and goes on long enough.
  ghost predicate Undisturbed(law: Law, w: World, index: Option<string>, where: Option<Expr>, pk: string, rk: string) {
    && Quiet(w) && WellKeyed(w.store, pk, rk)
    && Distinct(law.order) && map[] !in law.order && (forall k | k in w.store :: k in law.order)
    && |w.turns| > |law.order| + |WantedKeys(law, w.store, index, where)|
  }

  lemma AheadIsWanted(law: Law, w: World, read: ReadRequest, where: Option<Expr>, pk: string, rk: string)
    requires Undisturbed(law, w, read.index, where, pk, rk) && read.startKey.None?
    ensures var keys := Ahead(law, w.store, read, where);
            && KeySet(keys) == WantedKeys(law, w.store, read.index, where) && Distinct(keys)
            && |keys| == |WantedKeys(law, w.store, read.index, where)|
  {
    hide Chosen, Wanted, Shown;
    assert law.order[0..] == law.order;
    ChosenMembers(law, w.store, read.index, where, law.order);
    DistinctCount(Chosen(law, w.store, read.index, where, law.order));
    assert KeySet(Chosen(law, w.store, read.index, where, law.order)) == WantedKeys(law, w.store, read.index, where);
  }

  // Of the keys tried, those that pass.
  lemma HitsAreHitKeys(law: Law, store: Store, index: Option<string>, where: Option<Expr>, pk: string, rk: string,
                       keys: seq<Key>)
    requires Distinct(keys) && KeySet(keys) == WantedKeys(law, store, index, where)
    ensures var hits, hit := Hits(law, store, where, pk, rk, keys), HitKeys(law, store, index, where, pk, rk);
            KeySet(hits) == hit && |hits| == |hit|
  {
    var hits := Hits(law, store, where, pk, rk, keys);
    ChosenMembers(law, store, None, ConditionOf(where, pk, rk), keys);
    hide Chosen, Wanted, Passes, ConditionOf, Distinct, Shown;
    assert forall k :: Shown(law, None, k) by { ShownByTable(law); }
    forall k ensures k in hits <==> k in HitKeys(law, store, index, where, pk, rk) {
      assert k in keys <==> k in KeySet(keys);
      if k in store {
        PassesCondition(where, pk, rk, law.sem, store[k]);
      }
    }
    DistinctCount(hits);
  }

  // Undisturbed, a bulk write removes (DELETE) or updates once, from what it was
  // (UPDATE, UPSERT), exactly the items the WHERE selects that pass the condition, of
  // those the index shows when it reads one,
  // leaves every other as it was, and reports what was read, modified, and failed the
  // condition. Those are all the WHERE selects when the condition follows from it.
  lemma BulkWriteExact(law: Law, w: World, read: ReadRequest, t: WriteRequest, wantReturned: bool, guarded: bool,
                       where: Option<Expr>, plan: Option<QueryKeyPlan>, pk: string, rk: string)
    requires QuietRead(read, where, plan, pk, rk) && read.startKey.None?
             && QuietTemplate(law, t, guarded, where, pk, rk)
    requires Undisturbed(law, w, read.index, where, pk, rk)
    ensures var done := RunPages(law, w, read, t, wantReturned, Acct(0, 0, 0, []));
            var wanted := WantedKeys(law, w.store, read.index, where);
            var hit := HitKeys(law, w.store, read.index, where, pk, rk);
            && done.1.Ok? && done.0.store == Effect(law, w.store, t, hit)
            && done.1.value.read == |wanted| && done.1.value.modified == |hit|
            && done.1.value.ccf == |wanted| - |hit|
            && (done.1.value.ccf == 0 <==> hit == wanted)
            && (Kept(where, pk, rk) ==> hit == wanted)
  {
    hide RunPages, QuietRead, Chosen, Picked, WellKeyed, Quiet, Effect, WantedKeys, HitKeys, Kept, IsTemplate, Fit,
         ConditionReady, UpdateTaken, ExistsIsPresence, Ahead, Hits;
    AheadIsWanted(law, w, read, where, pk, rk);
    HitsAreHitKeys(law, w.store, read.index, where, pk, rk, Ahead(law, w.store, read, where));
    SubsetCount(HitKeys(law, w.store, read.index, where, pk, rk), WantedKeys(law, w.store, read.index, where));
    if Kept(where, pk, rk) {
      KeptHitsAll(law, w.store, read.index, where, pk, rk);
    }
    QuietPages(law, w, read, t, wantReturned, Acct(0, 0, 0, []), guarded, where, plan, pk, rk);
  }

  lemma SubsetCount(some: set<Key>, all: set<Key>)
    requires some <= all
    ensures |all| == |some| + |all - some| && (|all| == |some| <==> some == all)
  {
    assert all == some + (all - some);
  }

  // ---- a condition with an empty group --------------------------------------

  lemma ShownByTable(law: Law)
    ensures forall item :: Shown(law, None, item)
  {
  }

  lemma RejectedWrite(law: Law, w: World, rows: seq<Item>, t: WriteRequest, wantReturned: bool, acct: Acct,
                      guarded: bool, where: Option<Expr>, pk: string, rk: string)
    requires Fit(where) && IsTemplate(t, guarded, where, pk, rk) && !Taken(t, where, pk, rk)
    requires Quiet(w) && w.turns != []
    ensures var done := RunRows(law, w, rows, t, wantReturned, acct);
            done.0.store == w.store && if rows == [] then done == (w, Ok(acct)) else done.1 == Err(Rejected)
  {
    if rows != [] {
      var r := t.(key := rows[0]);
      assert w.turns[0] in w.turns;
      ConditionJudged(r, guarded, where, pk, rk,
                      ItemMeaning(law.sem, if r.key in w.store then w.store[r.key] else map[]));
    }
  }

  lemma {:induction false} RejectedPages(law: Law, w: World, read: ReadRequest, t: WriteRequest, wantReturned: bool,
                                         acct: Acct, guarded: bool, where: Option<Expr>, plan: Option<QueryKeyPlan>,
                                         pk: string, rk: string)
    requires QuietRead(read, where, plan, pk, rk) && IsTemplate(t, guarded, where, pk, rk)
             && !Taken(t, where, pk, rk)
    requires Quiet(w) && WellKeyed(w.store, pk, rk) && Distinct(law.order) && map[] !in law.order
    requires |w.turns| > |law.order| - Position(law, read) + |Ahead(law, w.store, read, where)|
    ensures var done := RunPages(law, w, read, t, wantReturned, acct);
            && done.0.store == w.store
            && done.1 == if Ahead(law, w.store, read, where) == [] then Ok(acct) else Err(Rejected)
    decreases |w.turns|
  {
    hide RunRows, ReadPage, QuietRead, IsTemplate, Wanted, Quiet, WellKeyed, Chosen, Position, PageEnd, Taken;
    QuietPage(law, w, read, where, plan, pk, rk);
    var page := ReadPage(law, w, read);
    var rows := page.1.value.rows;
    var start := Position(law, read);
    var end := PageEnd(law, start, w.turns[0].limit);
    PageEndBounds(law, start, w.turns[0].limit);
    var now, later := law.order[start..end], law.order[end..];
    ChosenConcat(law, w.store, read.index, where, now, later);
    assert law.order[start..] == now + later;
    RowsUseTurns(law, page.0, rows, t, wantReturned, acct);
    if |w.turns| > 1 {
      FitOf(read, where, plan, pk, rk);
      RejectedWrite(law, page.0, rows, t, wantReturned, acct, guarded, where, pk, rk);
    } else {
      NoRows(law, page.0, t, wantReturned, acct);
    }
    if end == |law.order| {
      ChosenEmpty(law, w.store, read.index, where);
    } else if rows == [] {
      var next := read.(startKey := Some(law.order[end - 1]));
      NextPosition(law, read, end);
      ReadAnywhere(read, next, where, plan, pk, rk);
      RejectedPages(law, page.0, next, t, wantReturned, acct, guarded, where, plan, pk, rk);
    }
  }

  lemma FitOf(read: ReadRequest, where: Option<Expr>, plan: Option<QueryKeyPlan>, pk: string, rk: string)
    requires QuietRead(read, where, plan, pk, rk)
    ensures Fit(where)
  {
  }

  lemma NoRows(law: Law, w: World, t: WriteRequest, wantReturned: bool, acct: Acct)
    ensures RunRows(law, w, [], t, wantReturned, acct) == (w, Ok(acct))
  {
  }

  // With an empty group in its condition a bulk write changes nothing: the service
  // rejects the first write, if the clause selects anything at all.
  lemma BulkWriteRejected(law: Law, w: World, read: ReadRequest, t: WriteRequest, wantReturned: bool, guarded: bool,
                          where: Option<Expr>, plan: Option<QueryKeyPlan>, pk: string, rk: string)
    requires QuietRead(read, where, plan, pk, rk) && read.startKey.None?
    requires IsTemplate(t, guarded, where, pk, rk) && !Taken(t, where, pk, rk)
    requires Undisturbed(law, w, read.index, where, pk, rk)
    ensures var done := RunPages(law, w, read, t, wantReturned, Acct(0, 0, 0, []));
            && done.0.store == w.store
            && done.1 ==
               if WantedKeys(law, w.store, read.index, where) == {} then Ok(Acct(0, 0, 0, [])) else Err(Rejected)
  {
    hide RunPages, QuietRead, IsTemplate, Chosen, Wanted, WellKeyed, Quiet, Taken;
    AheadIsWanted(law, w, read, where, pk, rk);
    var keys := Ahead(law, w.store, read, where);
    assert keys != [] ==> keys[0] in KeySet(keys);
    RejectedPages(law, w, read, t, wantReturned, Acct(0, 0, 0, []), guarded, where, plan, pk, rk);
  }
}

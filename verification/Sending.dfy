// Where the requests of a statement go, what they ask for, and how EXPLAIN names them.

module Sending {
  import opened Values
  import opened Expressions
  import opened Access
  import opened SingleItem
  import opened Symbols
  import opened Updates
  import opened Requests
  import opened Planner
  import opened Service
  import opened BulkWrites
  import opened Explains
  import opened Executors
  import opened Inserts

  // ---- nothing else is sent -------------------------------------------------

  // This read, from somewhere, or this write, of some item.
  predicate IsOf(r: Request, read: ReadRequest, t: WriteRequest) {
    match r
    case Reading(x) => x == read.(startKey := x.startKey)
    case Writing(x) => x == t.(key := x.key)
    case Putting(_) => false
  }

  // Since w, nothing else was sent or explained.
  ghost predicate OnlySends(w: World, after: World, read: ReadRequest, t: WriteRequest) {
    && w.issued <= after.issued && w.explained <= after.explained
    && (forall r | r in after.issued[|w.issued|..] :: IsOf(r, read, t))
    && (forall r | r in after.explained[|w.explained|..] :: IsOf(r, read, t))
  }

  lemma SendsNothing(w: World, read: ReadRequest, t: WriteRequest)
    ensures OnlySends(w, w, read, t)
  {
  }

  lemma SendsThen(w: World, one: World, two: World, read: ReadRequest, t: WriteRequest)
    requires OnlySends(w, one, read, t) && OnlySends(one, two, read, t)
    ensures OnlySends(w, two, read, t)
  {
    hide IsOf;
    assert two.issued[|w.issued|..] == one.issued[|w.issued|..] + two.issued[|one.issued|..];
    assert two.explained[|w.explained|..] == one.explained[|w.explained|..] + two.explained[|one.explained|..];
  }

  lemma SendsOne(law: Law, w: World, r: Request, blocks: seq<Block>, read: ReadRequest, t: WriteRequest)
    requires IsOf(r, read, t)
    ensures OnlySends(w, ExplainOne(law, w, r, blocks).0, read, t)
    ensures r.Writing? ==> OnlySends(w, WriteItem(law, w, r.write).0, read, t)
    ensures r.Reading? ==> OnlySends(w, ReadPage(law, w, r.read).0, read, t)
  {
    hide Accepted, RowsAt, PageEnd, Verdict, Updated, IsOf;
    assert (w.issued + [r])[|w.issued|..] == [r] && (w.explained + [r])[|w.explained|..] == [r];
    assert w.issued[|w.issued|..] == [] && w.explained[|w.explained|..] == [];
  }

  lemma {:induction false} RowsOnlySend(law: Law, w: World, rows: seq<Item>, t: WriteRequest, wantReturned: bool,
                                        acct: Acct, read: ReadRequest)
    ensures OnlySends(w, RunRows(law, w, rows, t, wantReturned, acct).0, read, t)
    decreases |rows|
  {
    hide OnlySends, WriteItem;
    SendsNothing(w, read, t);
    if rows != [] {
      var r := t.(key := rows[0]);
      var done := WriteItem(law, w, r);
      SendsOne(law, w, Writing(r), [], read, t);
      if !Fatal(done.1) {
        RowsOnlySend(law, done.0, rows[1..], t, wantReturned, Counted(acct, done.1, wantReturned), read);
        SendsThen(w, done.0, RunRows(law, w, rows, t, wantReturned, acct).0, read, t);
      }
    }
  }

  lemma {:induction false} PagesOnlySend(law: Law, w: World, at: ReadRequest, t: WriteRequest, wantReturned: bool,
                                         acct: Acct, read: ReadRequest)
    requires at == read.(startKey := at.startKey)
    ensures OnlySends(w, RunPages(law, w, at, t, wantReturned, acct).0, read, t)
    decreases |w.turns|
  {
    hide OnlySends, ReadPage, RunRows;
    var page := ReadPage(law, w, at);
    SendsOne(law, w, Reading(at), [], read, t);
    if page.1.Ok? {
      var rows, last := page.1.value.rows, page.1.value.last;
      var done := RunRows(law, page.0, rows, t, wantReturned, acct);
      RowsOnlySend(law, page.0, rows, t, wantReturned, acct, read);
      SendsThen(w, page.0, done.0, read, t);
      ReadIssues(law, w, at);
      RowsUseTurns(law, page.0, rows, t, wantReturned, acct);
      if done.1.Ok? && last.Some? && last.value != map[] {
        PagesOnlySend(law, done.0, at.(startKey := last), t, wantReturned, done.1.value, read);
        SendsThen(w, done.0, RunPages(law, w, at, t, wantReturned, acct).0, read, t);
      }
    }
  }

  lemma {:induction false} RowsOnlyShow(law: Law, w: World, rows: seq<Item>, t: WriteRequest, blocks: seq<Block>,
                                        read: ReadRequest)
    ensures OnlySends(w, ExplainRows(law, w, rows, t, blocks).0, read, t)
    decreases |rows|
  {
    hide OnlySends, ExplainOne;
    SendsNothing(w, read, t);
    if rows != [] {
      var r := Writing(t.(key := rows[0]));
      var done := ExplainOne(law, w, r, blocks);
      SendsOne(law, w, r, blocks, read, t);
      if done.1.Ok? {
        RowsOnlyShow(law, done.0, rows[1..], t, done.1.value, read);
        SendsThen(w, done.0, ExplainRows(law, w, rows, t, blocks).0, read, t);
      }
    }
  }

  lemma {:induction false} PagesOnlyShow(law: Law, w: World, at: ReadRequest, t: WriteRequest, eachPage: bool,
                                         blocks: seq<Block>, read: ReadRequest)
    requires at == read.(startKey := at.startKey)
    ensures OnlySends(w, ExplainPages(law, w, at, t, eachPage, blocks).0, read, t)
    decreases |w.turns|
  {
    hide OnlySends, ReadPage, ExplainRows, ExplainOne;
    var shown := if eachPage then ExplainOne(law, w, Reading(at), blocks) else (w, Ok(blocks));
    SendsNothing(w, read, t);
    SendsOne(law, w, Reading(at), blocks, read, t);
    OneShows(law, w, Reading(at), blocks);
    if shown.1.Ok? {
      var page := ReadPage(law, shown.0, at);
      SendsOne(law, shown.0, Reading(at), [], read, t);
      SendsThen(w, shown.0, page.0, read, t);
      ReadIssues(law, shown.0, at);
      if page.1.Ok? {
        var rows, last := page.1.value.rows, page.1.value.last;
        var done := ExplainRows(law, page.0, rows, t, shown.1.value);
        RowsOnlyShow(law, page.0, rows, t, shown.1.value, read);
        SendsThen(w, page.0, done.0, read, t);
        RowsOnlyExplain(law, page.0, rows, t, shown.1.value);
        if done.1.Ok? && last.Some? && last.value != map[] {
          PagesOnlyShow(law, done.0, at.(startKey := last), t, eachPage, done.1.value, read);
          SendsThen(w, done.0, ExplainPages(law, w, at, t, eachPage, blocks).0, read, t);
        }
      }
    }
  }

  // ---- what they are --------------------------------------------------------

  // Every name token of a request starts with this prefix, and every value token.
  predicate TokensFrom(names: map<string, string>, values: map<string, Value>, prefix: string) {
    (forall n | n in names :: "#a" + prefix <= n) && forall v | v in values :: ":v" + prefix <= v
  }

  lemma TablesFrom(s: Sym)
    ensures TokensFrom(NamesOf(s), ValuesOf(s), s.prefix)
  {
    forall n | n in NamesOf(s) ensures "#a" + s.prefix <= n {
      var i := NamesTableToken(s.prefix, s.names, n);
    }
    forall v | v in ValuesOf(s) ensures ":v" + s.prefix <= v {
      var i := ValuesTableToken(s.prefix, s.values, v);
    }
  }

  // A request of this statement: to its table, a read through its index and not a
  // consistent one, with the capacity asked for exactly when it is metered; an update or a
  // delete, a Query or a Scan; with tokens of its own prefix.
  ghost predicate Belongs(r: Request, cmd: Command, planned: bool, counter: nat) {
    match r
    case Reading(x) =>
      && x.table == cmd.table && x.index == cmd.index && !x.consistent
      && x.capacity == (if cmd.rate.Some? then Total else NoCapacity)
      && Api(r) == (if planned then "Query" else "Scan")
      && TokensFrom(x.names, x.values, UniquePrefix(counter + 1))
    case Writing(x) =>
      && x.table == cmd.table
      && x.capacity == (if cmd.rate.Some? then Total else NoCapacity)
      && Api(r) == (if cmd.mutation.Some? then "UpdateItem" else "DeleteItem")
      && TokensFrom(x.names, x.values, UniquePrefix(counter))
    case Putting(_) => false
  }

  lemma KeepsPrefix(text: Text, s: Sym)
    requires Symbols.Sound(s)
    ensures Encode(text, s).1.prefix == s.prefix && Symbols.Sound(Encode(text, s).1)
  {
    EncodeExtends(text, s);
  }

  lemma ReadBelongs(cmd: Command, where: Option<Expr>, plan: Option<QueryKeyPlan>, base: Schema, counter: nat,
                    start: Option<Item>)
    ensures var read := ReadOf(cmd, where, plan, base, UniquePrefix(counter + 1));
            Belongs(Reading(read.(startKey := start)), cmd, plan.Some?, counter)
  {
    var prefix := UniquePrefix(counter + 1);
    var paths := PathsText(BaseKeys(First(base.pk), First(base.rk)));
    var p := Encode(paths, Fresh(prefix));
    var k := Encode(KeyText(where, plan), p.1);
    var f := Encode(FilterText(where, plan), k.1);
    KeepsPrefix(paths, Fresh(prefix));
    KeepsPrefix(KeyText(where, plan), p.1);
    KeepsPrefix(FilterText(where, plan), k.1);
    TablesFrom(f.1);
  }

  lemma WriteBelongs(cmd: Command, where: Option<Expr>, base: Schema, counter: nat, planned: bool, key: Key)
    ensures var t := TemplateOf(cmd, where, base, UniquePrefix(counter));
            Belongs(Writing(t.(key := key)), cmd, planned, counter)
  {
    var prefix := UniquePrefix(counter);
    var update := if cmd.mutation.Some? then UpdateText(cmd.mutation.value) else [];
    var condition := ConditionText(cmd.IsUpdate(), where, First(base.pk), First(base.rk));
    var u := Encode(update, Fresh(prefix));
    KeepsPrefix(update, Fresh(prefix));
    KeepsPrefix(condition, u.1);
    TablesFrom(Encode(condition, u.1).1);
  }

  // Every request that a statement sends or explains is one of its own.
  lemma StatementRequests(law: Law, w: World, counter: nat, cmd: Command, where: Option<Expr>, base: Schema,
                          schema: Schema, explain: bool)
    ensures var after := Execution(law, w, counter, cmd, where, base, schema, explain).0;
            var planned := PlanOf(where, schema.pk, schema.rk).Some?;
            && w.issued <= after.issued && w.explained <= after.explained
            && (forall r | r in after.issued[|w.issued|..] :: Belongs(r, cmd, planned, counter))
            && (forall r | r in after.explained[|w.explained|..] :: Belongs(r, cmd, planned, counter))
  {
    hide RunPages, ExplainPages, ExplainOne, WriteItem, TemplateOf, ReadOf, PlanOf, GudKey, Occs, Belongs, UniquePrefix;
    var plan := PlanOf(where, schema.pk, schema.rk);
    var t := TemplateOf(cmd, where, base, UniquePrefix(counter));
    var read := ReadOf(cmd, where, plan, base, UniquePrefix(counter + 1));
    var done := Execution(law, w, counter, cmd, where, base, schema, explain);
    if OneItem(where, base) {
      var r := t.(key := GudKey(Occs(where.value, true), First(base.pk), First(base.rk)));
      SendsOne(law, w, Writing(r), [], read, t);
    } else if !explain {
      PagesOnlySend(law, w, read, t, cmd.wantReturned, Acct(0, 0, 0, []), read);
    } else {
      var shown := ExplainOne(law, w, Reading(read), []);
      SendsOne(law, w, Reading(read), [], read, t);
      PagesOnlyShow(law, w, read, t, true, [], read);
      if shown.1.Ok? {
        PagesOnlyShow(law, shown.0, read, t, false, shown.1.value, read);
        SendsThen(w, shown.0, ExplainPages(law, shown.0, read, t, false, shown.1.value).0, read, t);
      }
    }
    OwnRequests(w, done.0, read, t, cmd, where, plan, base, counter);
  }

  lemma OwnRequests(w: World, after: World, read: ReadRequest, t: WriteRequest, cmd: Command, where: Option<Expr>,
                    plan: Option<QueryKeyPlan>, base: Schema, counter: nat)
    requires OnlySends(w, after, read, t)
    requires t == TemplateOf(cmd, where, base, UniquePrefix(counter))
    requires read == ReadOf(cmd, where, plan, base, UniquePrefix(counter + 1))
    ensures w.issued <= after.issued && w.explained <= after.explained
    ensures forall r | r in after.issued[|w.issued|..] :: Belongs(r, cmd, plan.Some?, counter)
    ensures forall r | r in after.explained[|w.explained|..] :: Belongs(r, cmd, plan.Some?, counter)
  {
    hide TemplateOf, ReadOf, Belongs, UniquePrefix;
    forall r | IsOf(r, read, t) ensures Belongs(r, cmd, plan.Some?, counter) {
      match r {
        case Reading(x) => ReadBelongs(cmd, where, plan, base, counter, x.startKey);
        case Writing(x) => WriteBelongs(cmd, where, base, counter, plan.Some?, x.key);
        case _ =>
      }
    }
  }

  // The request for row l of an INSERT or REPLACE puts its item into the table, for an
  // INSERT unless one is there, which it says by a token of a prefix of its own.
  ghost predicate PutBelongs(r: Request, cmd: Insert, pk: string, counter: nat, l: nat)
    requires l < |cmd.rows|
  {
    && r.Putting? && Api(r) == "PutItem"
    && r.put.table == cmd.table && r.put.item == ItemAt(cmd, l)
    && r.put.capacity == (if cmd.rate.Some? then Total else NoCapacity)
    && (cmd.insert ==>
          && DecodesTo(r.put.condition, r.put.names, map[], [Word("attribute_not_exists("), Attr(pk), Word(")")])
          && TokensFrom(r.put.names, map[], UniquePrefix(counter + l)))
    && (!cmd.insert ==> r.put.condition.None?)
  }

  lemma RowBelongs(cmd: Insert, pk: string, counter: nat, l: nat)
    requires l < |cmd.rows|
    ensures var r := PutOf(cmd, pk, if cmd.insert then counter + l else counter, cmd.rows[l]);
            PutBelongs(Putting(r), cmd, pk, counter, l)
  {
    hide ItemAt;
    if cmd.insert {
      var prefix := UniquePrefix(counter + l);
      PutRequestDecodes(cmd.table, RowItem(cmd.columns, cmd.rows[l]), pk, cmd.Metering(), prefix);
      var text: Text := [Word("attribute_not_exists("), Attr(pk), Word(")")];
      KeepsPrefix(text, Fresh(prefix));
      TablesFrom(Encode(text, Fresh(prefix)).1);
    }
    PutsItem(cmd, pk, if cmd.insert then counter + l else counter, l);
  }

  // In any world the requests of an INSERT or REPLACE are those of its rows, in order, up
  // to the first that fails.
  lemma InsertRequests(law: Law, w: World, counter: nat, cmd: Insert, pk: string)
    ensures var done := PutRows(law, w, counter, cmd, pk, 0);
            && w.issued <= done.0.issued
            && var sent := done.0.issued[|w.issued|..];
               && |sent| == |done.2| + (if done.3.None? then 0 else 1)
               && |sent| <= |cmd.rows| && (done.3.None? ==> |sent| == |cmd.rows|)
               && forall l | 0 <= l < |sent| :: PutBelongs(sent[l], cmd, pk, counter, l)
  {
    hide PutRows, PutScript, PutBelongs, PutOf, UniquePrefix;
    PutsIssued(law, w, counter, cmd, pk, 0);
    var sent := PutRows(law, w, counter, cmd, pk, 0).0.issued[|w.issued|..];
    forall l | 0 <= l < |sent| ensures PutBelongs(sent[l], cmd, pk, counter, l) {
      PutScriptAt(cmd, pk, counter, 0, l);
      RowBelongs(cmd, pk, counter, l);
    }
  }
}

// Whole UPDATE, UPSERT and DELETE statements, from the clause to the report:
// what an execution does to the store, and what its EXPLAIN shows.

module Statements {
  import opened Values
  import opened Expressions
  import opened Splitting
  import opened Reader
  import opened Access
  import opened SingleItem
  import opened Enforcing
  import opened Symbols
  import opened Updates
  import opened Requests
  import opened Planner
  import opened Service
  import opened Reads
  import opened BulkWrites
  import opened BulkExactness
  import opened Explains
  import opened Executors

  // A base table has a partition key, and perhaps a sort key, that are not called "".
  predicate BaseTable(base: Schema) {
    |base.pk| == 1 && base.pk[0] != ""
      && (base.rk == [] || (|base.rk| == 1 && base.rk[0] != "" && base.rk[0] != base.pk[0]))
  }

  lemma PlanIsSafe(where: Option<Expr>, pk: seq<string>, rk: seq<string>)
    ensures var plan := PlanOf(where, pk, rk);
            plan.Some? ==>
            where.Some? && forall o | o in Occs(where.value, true) :: SafeOcc(o, plan.value.pk, plan.value.sk)
  {
    hide QueryRule, SafeOcc;
    if PlanOf(where, pk, rk).Some? {
      var os := Occs(where.value, true);
      var n: nat :| QueryRule(os, pk, rk, n);
      PlannedIs(os, pk, rk, n);
      RuleMakesSafe(os, pk, rk, n);
    }
  }

  // The requests of a statement are what the bulk theorems ask for.
  lemma ReadIsPlanned(cmd: Command, where: Option<Expr>, base: Schema, schema: Schema, prefix: string)
    requires CleanPrefix(prefix)
    ensures var plan := PlanOf(where, schema.pk, schema.rk);
            IsRead(ReadOf(cmd, where, plan, base, prefix), where, plan, First(base.pk), First(base.rk))
  {
    hide PlanOf, Encode, SafeOcc, Prune;
    var plan := PlanOf(where, schema.pk, schema.rk);
    PlanIsSafe(where, schema.pk, schema.rk);
    ReadRequestDecodes(cmd.table, cmd.index, false, cmd.Metering(), BaseKeys(First(base.pk), First(base.rk)), where,
                       plan, prefix);
  }

  lemma TemplateIsPlanned(cmd: Command, where: Option<Expr>, base: Schema, prefix: string)
    requires CleanPrefix(prefix)
    ensures IsTemplate(TemplateOf(cmd, where, base, prefix), cmd.IsUpdate(), where, First(base.pk), First(base.rk))
  {
    hide Encode, Prune;
    WriteRequestDecodes(cmd.table, cmd.mutation, cmd.IsUpdate(), where, First(base.pk), First(base.rk), cmd.Metering(),
                        prefix);
  }

  // ---- the key of a single write --------------------------------------------

  // What the single write needs of the service: that = on the key is equality.
  ghost predicate KeyedLaw(law: Law, e: Expr, base: Schema) {
    EqualityOn(law.sem, {First(base.pk), First(base.rk)}) && Named(e)
  }

  // No attribute is called "".
  predicate Named(e: Expr) {
    forall o | o in Occs(e, true) :: o.pred.lhs != ""
  }

  lemma GudKeyIs(law: Law, e: Expr, base: Schema, item: Item)
    requires BaseTable(base) && SingleItem.CanUpdateItem(Occs(e, true), base.pk, base.rk) && KeyedLaw(law, e, base)
    ensures GudKey(Occs(e, true), First(base.pk), First(base.rk)).Keys == KeyNames(First(base.pk), First(base.rk))
    ensures GudTrue(Occs(e, true), First(base.pk), First(base.rk), ItemMeaning(law.sem, item)) <==>
            KeyMatches(GudKey(Occs(e, true), First(base.pk), First(base.rk)), item)
  {
    var os, pk, rk := Occs(e, true), First(base.pk), First(base.rk);
    NoGud(os);
    forall a ensures a in GudKey(os, pk, rk) <==> a in KeyNames(pk, rk) {
      GudKeyEntry(os, pk, rk, a);
      assert a in KeyNames(pk, rk) <==> a in BaseKeys(pk, rk);
    }
    GudTrueIsKeyMatch(os, pk, rk, law.sem, item);
  }

  // A key given by the clause itself vouches for its items, when the clause cannot be
  // false where its key equalities and its condition are true.
  lemma KeyStandsForClause(law: Law, e: Expr, base: Schema)
    requires BaseTable(base) && Arity(e, 2) && ConditionReady(Some(e), First(base.pk), First(base.rk))
    requires SingleItem.CanUpdateItem(Occs(e, true), base.pk, base.rk) && KeyedLaw(law, e, base)
    requires !Can(e, First(base.pk), First(base.rk), false, true)
    ensures Vouched(GudKey(Occs(e, true), First(base.pk), First(base.rk)), Some(e), First(base.pk), First(base.rk),
                    law.sem)
  {
    var os, pk, rk := Occs(e, true), First(base.pk), First(base.rk);
    ArityWeaken(e);
    SolidExactly(e, Residual(pk, rk));
    GudKeyIs(law, e, base, map[]);
    forall item | KeyMatches(GudKey(os, pk, rk), item) && "" !in item
      ensures KeyVouches(Some(e), pk, rk, law.sem, item)
    {
      GudKeyIs(law, e, base, item);
      if Passes(Some(e), pk, rk, law.sem, item) {
        SingleWriteSound(e, pk, rk, ItemMeaning(law.sem, item));
      }
    }
  }

  lemma {:induction false} NoGud(os: seq<Occ>)
    requires forall o | o in os :: o.pred.lhs != ""
    ensures CountGud(os, "") == 0
  {
    if os != [] {
      assert os[0] in os;
      NoGud(os[1..]);
    }
  }

  // ---- safety ---------------------------------------------------------------

  // What the grammar makes of a WHERE, on a table, for a service that means = and
  // attribute_exists by these comparisons of key attributes.
  ghost predicate Posed(law: Law, cmd: Command, where: Option<Expr>, base: Schema) {
    && BaseTable(base) && Fit(where)
    && (cmd.IsUpdate() ==> ExistsIsPresence(law.sem, First(base.pk)))
  }

  // What a caller can check: by key, the clause cannot be false where its key equalities
  // and its condition are true; in bulk, nothing slips, unless the plan covers the key
  // of the table or the service rejects the read. Nothing if it rejects the condition.
  ghost predicate SafeToWrite(law: Law, where: Option<Expr>, base: Schema, schema: Schema) {
    if OneItem(where, base) then
      ConditionReady(where, First(base.pk), First(base.rk)) ==>
        !Can(where.value, First(base.pk), First(base.rk), false, true) && KeyedLaw(law, where.value, base)
    else SafeBulk(where, PlanOf(where, schema.pk, schema.rk), First(base.pk), First(base.rk))
  }

  // A Query of the table covers its key.
  lemma QueryCovers(where: Option<Expr>, base: Schema)
    requires BaseTable(base) && PlanOf(where, base.pk, base.rk).Some? && Named(where.value)
    ensures Covers(where.value, PlanOf(where, base.pk, base.rk).value, First(base.pk), First(base.rk))
  {
    var os := Occs(where.value, true);
    var n: nat :| QueryRule(os, base.pk, base.rk, n);
    PlannedIs(os, base.pk, base.rk, n);
    hide SafeOcc, OnceByEquality;
    forall o | o in os && (o.pred.lhs == First(base.pk) || o.pred.lhs == First(base.rk))
      ensures o.pred.lhs in base.pk || o.pred.lhs in base.rk[..n]
    {
      if o.pred.lhs == First(base.rk) {
        assert Mentioned(os, base.rk[0]);
        assert base.rk[..n][0] == base.rk[0];
      }
    }
  }

  // Nothing is asked of it.
  lemma QueryIsSafe(law: Law, where: Option<Expr>, base: Schema)
    requires BaseTable(base) && PlanOf(where, base.pk, base.rk).Some? && Named(where.value) && !OneItem(where, base)
    ensures SafeToWrite(law, where, base, base)
  {
    hide PlanOf, Covers, OneItem, Named, BaseTable;
    QueryCovers(where, base);
  }

  // And what it wants passes the condition.
  lemma QueryIsKept(where: Option<Expr>, base: Schema)
    requires BaseTable(base) && Fit(where) && PlanOf(where, base.pk, base.rk).Some? && Named(where.value)
    requires QueryReady(where.value, PlanOf(where, base.pk, base.rk).value)
    ensures Kept(where, First(base.pk), First(base.rk))
  {
    hide PlanOf, Covers, QueryReady, Named, BaseTable, SafeOcc, Kept;
    QueryCovers(where, base);
    PlanIsSafe(where, base.pk, base.rk);
    CoveredIsKept(where.value, PlanOf(where, base.pk, base.rk).value, First(base.pk), First(base.rk));
  }

  // Whatever other writers do while an UPDATE, UPSERT or DELETE runs, by key or in
  // bulk, every item it changes or removes satisfies the full WHERE at that moment,
  // and an UPDATE creates none unless its WHERE is an unparenthesised OR.
  lemma StatementIsSafe(law: Law, w: World, counter: nat, cmd: Command, where: Option<Expr>, base: Schema,
                        schema: Schema)
    requires Posed(law, cmd, where, base) && SafeToWrite(law, where, base, schema)
    requires WellKeyedWorld(w, First(base.pk), First(base.rk)) && AllLawful(w.writes, cmd.IsUpdate(), where, law.sem)
    ensures AllLawful(Execution(law, w, counter, cmd, where, base, schema, false).0.writes, cmd.IsUpdate(), where,
                      law.sem)
  {
    hide RunPages, WriteItem, TemplateOf, ReadOf, PlanOf, IsRead, IsTemplate, WellKeyedWorld, AllLawful, Fit, Vouched,
      GudKey, Occs, ExistsIsPresence, ConditionReady, UpdateTaken, SafeBulk, Can, KeyedLaw;
    var pk, rk := First(base.pk), First(base.rk);
    var t := TemplateOf(cmd, where, base, UniquePrefix(counter));
    TemplateIsPlanned(cmd, where, base, UniquePrefix(counter));
    if OneItem(where, base) {
      var r := t.(key := GudKey(Occs(where.value, true), pk, rk));
      AnyKey(t, r.key, cmd.IsUpdate(), where, pk, rk);
      if Taken(r, where, pk, rk) {
        SingleVouched(law, cmd, where, base, schema);
        WriteLawful(law, w, r, cmd.IsUpdate(), where, pk, rk);
      } else {
        RejectedLawful(law, w, r, cmd.IsUpdate(), where, pk, rk);
      }
    } else {
      var plan := PlanOf(where, schema.pk, schema.rk);
      var read := ReadOf(cmd, where, plan, base, UniquePrefix(counter + 1));
      ReadIsPlanned(cmd, where, base, schema, UniquePrefix(counter + 1));
      BulkWriteIsSafe(law, w, read, t, cmd.wantReturned, Acct(0, 0, 0, []), cmd.IsUpdate(), where, plan, pk, rk);
    }
  }

  lemma SingleVouched(law: Law, cmd: Command, where: Option<Expr>, base: Schema, schema: Schema)
    requires Posed(law, cmd, where, base) && SafeToWrite(law, where, base, schema) && OneItem(where, base)
    requires ConditionReady(where, First(base.pk), First(base.rk))
    ensures Vouched(GudKey(Occs(where.value, true), First(base.pk), First(base.rk)), where, First(base.pk),
                    First(base.rk), law.sem)
  {
    KeyStandsForClause(law, where.value, base);
  }

  lemma AnyKey(t: WriteRequest, k: Key, guarded: bool, where: Option<Expr>, pk: string, rk: string)
    requires IsTemplate(t, guarded, where, pk, rk)
    ensures IsTemplate(t.(key := k), guarded, where, pk, rk)
  {
  }

  // ---- the change a statement asks for ---------------------------------------

  // A command for this change, or for none, as the parser makes it.
  ghost predicate Commands(cmd: Command, change: Option<Change>) {
    match change
    case None => cmd.mutation.None?
    case Some(c) => cmd.mutation == Some(BuildChange(c)) && Listed(c)
  }

  // What a caller can check for the service to take the writes of a statement.
  predicate WriteReady(change: Option<Change>, where: Option<Expr>, base: Schema) {
    ConditionReady(where, First(base.pk), First(base.rk)) && (change.Some? ==> Readable(change.value))
  }

  // The writes of a statement ask for what it says.
  lemma TemplateMeans(cmd: Command, change: Option<Change>, where: Option<Expr>, base: Schema, prefix: string)
    requires CleanPrefix(prefix) && Commands(cmd, change)
    ensures var t := TemplateOf(cmd, where, base, prefix);
            && (t.update.None? <==> change.None?)
            && (Taken(t, where, First(base.pk), First(base.rk)) <==> WriteReady(change, where, base))
            && (change.Some? && Readable(change.value) ==> UpdateMeant(t) == Some(Meant(change.value)))
  {
    hide ConditionReady, Readable, Meant, UpdateMeant, Listed, BuildChange;
    if change.Some? {
      UpdateIsMeant(cmd.table, change.value, cmd.IsUpdate(), where, First(base.pk), First(base.rk), cmd.Metering(),
                    prefix);
    }
  }

  // The items under these keys removed, or changed as the statement says.
  function ChangedAt(law: Law, store: Store, change: Option<Change>, keys: set<Key>): Store {
    if change.None? then store - keys
    else map k | k in store :: if k in keys then Changed(law, Meant(change.value), k, store[k]) else store[k]
  }

  lemma EffectIsMeant(law: Law, store: Store, t: WriteRequest, change: Option<Change>, keys: set<Key>)
    requires t.update.None? <==> change.None?
    requires change.Some? ==> UpdateMeant(t) == Some(Meant(change.value))
    ensures Effect(law, store, t, keys) == ChangedAt(law, store, change, keys)
  {
    hide Changed, Meant, UpdateMeant;
    assert forall k: Key :: UpdateMeant(t.(key := k)) == UpdateMeant(t) by {
      forall k: Key ensures UpdateMeant(t.(key := k)) == UpdateMeant(t) {
        SameUpdate(t, k);
      }
    }
  }

  // ---- an undisturbed statement ---------------------------------------------

  // The read a statement plans is accepted exactly when its clause is ready for it.
  lemma ReadIsAccepted(cmd: Command, where: Option<Expr>, base: Schema, schema: Schema, prefix: string)
    requires CleanPrefix(prefix) && Fit(where)
    ensures var plan := PlanOf(where, schema.pk, schema.rk);
            Accepted(ReadOf(cmd, where, plan, base, prefix)) <==> (plan.Some? ==> QueryReady(where.value, plan.value))
  {
    hide PlanOf, ReadOf, QueryReady, ReadsFor, Fit, Accepted;
    ReadIsPlanned(cmd, where, base, schema, prefix);
    var plan := PlanOf(where, schema.pk, schema.rk);
    ReadIsFor(ReadOf(cmd, where, plan, base, prefix), where, plan, First(base.pk), First(base.rk));
    AcceptedExactly(ReadOf(cmd, where, plan, base, prefix), where, plan);
  }

  // Undisturbed, an UPDATE, UPSERT or DELETE without a full key, on the table or through
  // an index, changes nothing when the service rejects its read or its writes, which is
  // when the clause is not ready for a Query or for the condition. Else it changes as it
  // says, or removes, exactly the items the WHERE selects, of those the index shows, that
  // pass the condition, each once, and reports what it read, modified, and left for a
  // failed condition. Nothing fails where the condition follows from the clause, and
  // always for a Query that covers the key of the table.
  lemma StatementExact(law: Law, w: World, counter: nat, cmd: Command, change: Option<Change>, where: Option<Expr>,
                       base: Schema, schema: Schema)
    requires Posed(law, cmd, where, base) && Commands(cmd, change) && !OneItem(where, base)
    requires Undisturbed(law, w, cmd.index, where, First(base.pk), First(base.rk))
    ensures var done := Execution(law, w, counter, cmd, where, base, schema, false);
            var plan, wanted := PlanOf(where, schema.pk, schema.rk), WantedKeys(law, w.store, cmd.index, where);
            var hit := HitKeys(law, w.store, cmd.index, where, First(base.pk), First(base.rk));
            if plan.Some? && !QueryReady(where.value, plan.value) then
              done.0.store == w.store && done.2 == Err(Rejected)
            else if !WriteReady(change, where, base) then
              done.0.store == w.store
                && done.2 == if wanted == {} then Ok(Account(Acct(0, 0, 0, []))) else Err(Rejected)
            else
              && done.0.store == ChangedAt(law, w.store, change, hit)
              && done.2.Ok? && done.2.value.Account?
              && done.2.value.acct.read == |wanted| && done.2.value.acct.modified == |hit|
              && done.2.value.acct.ccf == |wanted| - |hit|
              && (done.2.value.acct.ccf == 0 <==> hit == wanted)
              && (Kept(where, First(base.pk), First(base.rk)) ==> hit == wanted)
              && (plan.Some? && Covers(where.value, plan.value, First(base.pk), First(base.rk)) ==> hit == wanted)
  {
    hide TemplateOf, ReadOf, PlanOf, IsRead, IsTemplate, OneItem, Wanted, Accepted, RunPages, QueryReady,
         ConditionReady, Kept, Covers, HitKeys, Taken, WriteReady, Commands, Effect, ChangedAt;
    hide Undisturbed, WantedKeys, ExistsIsPresence;
    var pk, rk := First(base.pk), First(base.rk);
    var t := TemplateOf(cmd, where, base, UniquePrefix(counter));
    var plan := PlanOf(where, schema.pk, schema.rk);
    var read := ReadOf(cmd, where, plan, base, UniquePrefix(counter + 1));
    TemplateIsPlanned(cmd, where, base, UniquePrefix(counter));
    TemplateMeans(cmd, change, where, base, UniquePrefix(counter));
    ReadIsPlanned(cmd, where, base, schema, UniquePrefix(counter + 1));
    ReadIsAccepted(cmd, where, base, schema, UniquePrefix(counter + 1));
    ReadShape(cmd, where, plan, base, UniquePrefix(counter + 1));
    if !Accepted(read) {
      RejectedRead(law, w, read, t, cmd.wantReturned, where, pk, rk);
    } else if Taken(t, where, pk, rk) {
      ReadyParts(change, where, base);
      BulkWriteExact(law, w, read, t, cmd.wantReturned, cmd.IsUpdate(), where, plan, pk, rk);
      EffectIsMeant(law, w.store, t, change, HitKeys(law, w.store, cmd.index, where, pk, rk));
      PlanIsSafe(where, schema.pk, schema.rk);
      if plan.Some? && Covers(where.value, plan.value, pk, rk) {
        CoveredIsKept(where.value, plan.value, pk, rk);
      }
    } else {
      BulkWriteRejected(law, w, read, t, cmd.wantReturned, cmd.IsUpdate(), where, plan, pk, rk);
    }
  }

  lemma ReadyParts(change: Option<Change>, where: Option<Expr>, base: Schema)
    requires WriteReady(change, where, base)
    ensures change.Some? ==> Readable(change.value)
  {
  }

  lemma ReadShape(cmd: Command, where: Option<Expr>, plan: Option<QueryKeyPlan>, base: Schema, q: string)
    ensures ReadOf(cmd, where, plan, base, q).index == cmd.index && ReadOf(cmd, where, plan, base, q).startKey.None?
  {
  }

  lemma RejectedRead(law: Law, w: World, read: ReadRequest, t: WriteRequest, wantReturned: bool, where: Option<Expr>,
                     pk: string, rk: string)
    requires Undisturbed(law, w, read.index, where, pk, rk) && !Accepted(read)
    ensures var done := RunPages(law, w, read, t, wantReturned, Acct(0, 0, 0, []));
            done.0.store == w.store && done.1 == Err(Rejected)
  {
    hide Accepted, WellKeyed, Wanted;
    assert w.turns[0] in w.turns;
  }

  // ---- a statement with the full key ----------------------------------------

  lemma SameKeys(a: Key, b: Key, item: Item)
    requires a.Keys == b.Keys && KeyMatches(a, item) && KeyMatches(b, item)
    ensures a == b
  {
    forall n | n in a ensures a[n] == b[n] {
      assert Lookup(item, n) == Some(a[n]) && Lookup(item, n) == Some(b[n]);
    }
  }

  // What a caller can check for a single write to be exact.
  ghost predicate KeyedExactly(law: Law, where: Option<Expr>, base: Schema) {
    OneItem(where, base) && KeyStands(where.value, First(base.pk), First(base.rk)) && KeyedLaw(law, where.value, base)
  }

  // Only the item with the clause's key can satisfy it, and it does when it passes
  // the condition.
  lemma WantedHasKey(law: Law, cmd: Command, where: Option<Expr>, base: Schema, k: Key, item: Item)
    requires Posed(law, cmd, where, base) && KeyedExactly(law, where, base)
    requires ConditionReady(where, First(base.pk), First(base.rk))
    requires k.Keys == KeyNames(First(base.pk), First(base.rk)) && KeyMatches(k, item)
    ensures Wanted(where, law.sem, item) <==>
            k == GudKey(Occs(where.value, true), First(base.pk), First(base.rk))
            && Passes(where, First(base.pk), First(base.rk), law.sem, item)
  {
    var e, pk, rk := where.value, First(base.pk), First(base.rk);
    ArityWeaken(e);
    SolidExactly(e, Residual(pk, rk));
    SingleWriteMeaning(e, pk, rk, ItemMeaning(law.sem, item));
    GudKeyIs(law, e, base, item);
    if KeyMatches(GudKey(Occs(e, true), pk, rk), item) {
      SameKeys(k, GudKey(Occs(e, true), pk, rk), item);
    }
  }

  // A clause that gives a key is not an OR.
  lemma KeyedIsNoOr(where: Option<Expr>, base: Schema)
    requires OneItem(where, base)
    ensures !where.value.Or?
  {
    if where.value.Or? {
      OffSpineAll(where.value.kids, false);
      CountPositive(Occs(where.value, true), base.pk[0]);
    }
  }

  lemma WantedKeysAre(law: Law, store: Store, key: Key, cmd: Command, where: Option<Expr>, base: Schema)
    requires Posed(law, cmd, where, base) && KeyedExactly(law, where, base)
    requires ConditionReady(where, First(base.pk), First(base.rk)) && WellKeyed(store, First(base.pk), First(base.rk))
    requires key == GudKey(Occs(where.value, true), First(base.pk), First(base.rk))
    ensures WantedKeys(law, store, None, where) ==
            if key in store && Wanted(where, law.sem, store[key]) then {key} else {}
    ensures key in store ==>
              Wanted(where, law.sem, store[key]) == Passes(where, First(base.pk), First(base.rk), law.sem, store[key])
  {
    hide Posed, KeyedExactly, ConditionReady, Wanted, Passes, GudKey, Occs, Shown;
    ShownByTable(law);
    forall k | k in store
      ensures Wanted(where, law.sem, store[k]) <==>
              k == key && Passes(where, First(base.pk), First(base.rk), law.sem, store[k])
    {
      WantedHasKey(law, cmd, where, base, k, store[k]);
    }
  }

  // Whether the single write goes through: if the item under the key passes the
  // condition; without one, if nothing at all does, but an UPDATE never.
  predicate GoesThrough(law: Law, store: Store, key: Key, cmd: Command, where: Option<Expr>, base: Schema) {
    var pk, rk := First(base.pk), First(base.rk);
    if key in store then Passes(where, pk, rk, law.sem, store[key])
    else !cmd.IsUpdate() && Passes(where, pk, rk, law.sem, map[])
  }

  lemma SingleVerdict(law: Law, store: Store, t: WriteRequest, cmd: Command, where: Option<Expr>, base: Schema)
    requires Posed(law, cmd, where, base) && OneItem(where, base)
    requires Taken(t, where, First(base.pk), First(base.rk))
    requires IsTemplate(t, cmd.IsUpdate(), where, First(base.pk), First(base.rk))
    requires WellKeyed(store, First(base.pk), First(base.rk))
    ensures Verdict(law, store, t) == Some(GoesThrough(law, store, t.key, cmd, where, base))
  {
    var pk, rk := First(base.pk), First(base.rk);
    KeyedIsNoOr(where, base);
    hide Judge, UpdateMeant, IsTemplate, OneItem, Wanted, Ungated, ConditionReady, WellKeyed;
    if t.key in store {
      WriteVerdict(law, store, t, cmd.IsUpdate(), where, pk, rk);
    } else {
      ConditionJudged(t, cmd.IsUpdate(), where, pk, rk, ItemMeaning(law.sem, map[]));
      if cmd.IsUpdate() {
        UpdateCreatesExactly(law, store, t, where, pk, rk);
      }
    }
  }

  lemma UntakenVerdict(law: Law, store: Store, t: WriteRequest, guarded: bool, where: Option<Expr>, pk: string,
                       rk: string)
    requires Fit(where) && IsTemplate(t, guarded, where, pk, rk) && !Taken(t, where, pk, rk)
    ensures Verdict(law, store, t).None?
  {
    ConditionJudged(t, guarded, where, pk, rk, ItemMeaning(law.sem, if t.key in store then store[t.key] else map[]));
  }

  // The store after the change under one key: the item removed, changed as the statement
  // says, or made from nothing.
  function ChangedOne(law: Law, store: Store, change: Option<Change>, key: Key): Store {
    if change.None? then store - {key}
    else store[key := Changed(law, Meant(change.value), key, if key in store then store[key] else map[])]
  }

  // A statement whose clause gives the full key, answered by the service: rejected, and
  // nothing changed, when the clause is not ready for the condition. Else a DELETE, UPDATE
  // or UPSERT goes through exactly when the item under that key passes the condition, or
  // without one, a DELETE or UPSERT when nothing does; then the item is removed, changed
  // or made, and reported as modified; otherwise nothing changes and the failed condition
  // is reported. Where the key stands for what was dropped, an item that is there is
  // changed exactly when the WHERE selects it.
  lemma SingleStatementExact(law: Law, w: World, counter: nat, cmd: Command, change: Option<Change>,
                             where: Option<Expr>, base: Schema, schema: Schema)
    requires Posed(law, cmd, where, base) && Commands(cmd, change) && OneItem(where, base)
    requires w.turns != [] && !w.turns[0].fault && WellKeyedWorld(w, First(base.pk), First(base.rk))
    ensures var done := Execution(law, w, counter, cmd, where, base, schema, false);
            var met := w.turns[0].foreign.GetOr(w.store);
            var key := GudKey(Occs(where.value, true), First(base.pk), First(base.rk));
            if !WriteReady(change, where, base) then
              done.2 == Err(Rejected) && done.0.store == met
            else if GoesThrough(law, met, key, cmd, where, base) then
              var before := if key in met then met[key] else map[];
              && done.0.store == ChangedOne(law, met, change, key)
              && done.2 == Ok(Account(Acct(0, 1, 0, if cmd.wantReturned then [before] else [])))
            else
              done.0.store == met && done.2 == Ok(Account(Acct(0, 0, 1, [])))
    ensures var met := w.turns[0].foreign.GetOr(w.store);
            var key := GudKey(Occs(where.value, true), First(base.pk), First(base.rk));
            KeyedExactly(law, where, base) && WriteReady(change, where, base) ==>
              WantedKeys(law, met, None, where) ==
              if key in met && GoesThrough(law, met, key, cmd, where, base) then {key} else {}
  {
    hide TemplateOf, IsTemplate, Fit, KeyedLaw, KeyStands, Wanted, ConditionReady, UpdateTaken, GudKey, Occs, Verdict,
         WellKeyed, WantedKeys, ExistsIsPresence, BaseTable, UniquePrefix, Passes, Ungated, KeyedExactly, Changed,
         UpdateMeant, Meant, Commands, GoesThrough, Readable;
    var pk, rk := First(base.pk), First(base.rk);
    var t := TemplateOf(cmd, where, base, UniquePrefix(counter));
    var key := GudKey(Occs(where.value, true), pk, rk);
    var r := t.(key := key);
    TemplateIsPlanned(cmd, where, base, UniquePrefix(counter));
    TemplateMeans(cmd, change, where, base, UniquePrefix(counter));
    AnyKey(t, key, cmd.IsUpdate(), where, pk, rk);
    SameUpdate(t, key);
    TakenAnyKey(t, key, where, pk, rk);
    assert w.turns[0] in w.turns;
    var met := w.turns[0].foreign.GetOr(w.store);
    if Taken(r, where, pk, rk) {
      SingleVerdict(law, met, r, cmd, where, base);
      var before := if key in met then met[key] else map[];
      assert [] + [before] == [before];
      var none: seq<Item> := [];
      assert [] + none == none;
      if KeyedExactly(law, where, base) {
        KeyedGoes(law, met, key, cmd, where, base);
      }
    } else {
      UntakenVerdict(law, met, r, cmd.IsUpdate(), where, pk, rk);
    }
  }

  lemma TakenAnyKey(t: WriteRequest, k: Key, where: Option<Expr>, pk: string, rk: string)
    ensures Taken(t.(key := k), where, pk, rk) <==> Taken(t, where, pk, rk)
  {
    SameUpdate(t, k);
  }

  lemma KeyedGoes(law: Law, store: Store, key: Key, cmd: Command, where: Option<Expr>, base: Schema)
    requires Posed(law, cmd, where, base) && KeyedExactly(law, where, base)
    requires ConditionReady(where, First(base.pk), First(base.rk)) && WellKeyed(store, First(base.pk), First(base.rk))
    requires key == GudKey(Occs(where.value, true), First(base.pk), First(base.rk))
    ensures WantedKeys(law, store, None, where) ==
            if key in store && GoesThrough(law, store, key, cmd, where, base) then {key} else {}
  {
    hide Passes, Wanted, WantedKeys, KeyedExactly, WellKeyed, ConditionReady;
    WantedKeysAre(law, store, key, cmd, where, base);
  }

  // ---- EXPLAIN --------------------------------------------------------------

  // What a successful run sent since w.
  ghost function SentBy(w: World, after: World): seq<Request>
    requires w.issued <= after.issued
  {
    after.issued[|w.issued|..]
  }

  lemma OneExplained(law: Law, live: World, dry: World, cmd: Command, r: WriteRequest)
    ensures var run := RunOne(law, live, cmd, r, false);
            var shown := RunOne(law, dry, cmd, r, true);
            && shown.0.writes == dry.writes && live.issued <= run.0.issued
            && (shown.1.Ok? ==> shown.0.explained == dry.explained + SentBy(live, run.0)
                                && shown.1 == Ok(Explained(BlocksOf(law, SentBy(live, run.0)))))
  {
    hide WriteItem;
    WriteIsSent(law, live, r);
    OneShows(law, dry, Writing(r), []);
    assert SentBy(live, RunOne(law, live, cmd, r, false).0) == [Writing(r)];
    assert [] + BlocksOf(law, [Writing(r)]) == BlocksOf(law, [Writing(r)]);
  }

  lemma ManyExplained(law: Law, live: World, dry: World, cmd: Command, read: ReadRequest, t: WriteRequest)
    ensures var run := RunMany(law, live, cmd, read, t, false);
            var shown := RunMany(law, dry, cmd, read, t, true);
            && shown.0.writes == dry.writes
            && (run.1.Ok? && shown.1.Ok? && live.pages <= run.0.pages && dry.pages <= shown.0.pages
                && shown.0.pages[|dry.pages|..] == run.0.pages[|live.pages|..] ==>
                  && live.issued <= run.0.issued
                  && (cmd.mutation.Some? ==>
                        shown.0.explained == dry.explained + SentBy(live, run.0)
                        && shown.1 == Ok(Explained(BlocksOf(law, SentBy(live, run.0)))))
                  && (cmd.mutation.None? && read.keyCondition.None? ==>
                        shown.0.explained == dry.explained + ([Reading(read)] + OnlyWrites(SentBy(live, run.0)))))
  {
    hide RunPages, ExplainPages, ExplainDelete, BlocksOf, OnlyWrites;
    ExplainWritesNothing(law, dry, read, t);
    if RunPages(law, live, read, t, cmd.wantReturned, Acct(0, 0, 0, [])).1.Ok? {
      ExplainIsFaithful(law, live, dry, read, t, cmd.wantReturned);
      var blocks := BlocksOf(law, SentBy(live, RunMany(law, live, cmd, read, t, false).0));
      assert [] + blocks == blocks;
    }
  }

  // EXPLAIN consumes the same prefixes as the run, writes nothing, and, given the
  // same pages, shows the run's requests: all of them for an UPDATE and for a
  // single write, the first read and all the writes for a DELETE that scans.
  lemma StatementExplained(law: Law, live: World, dry: World, counter: nat, cmd: Command, where: Option<Expr>,
                           base: Schema, schema: Schema)
    ensures var run := Execution(law, live, counter, cmd, where, base, schema, false);
            var shown := Execution(law, dry, counter, cmd, where, base, schema, true);
            && shown.1 == run.1 && shown.0.writes == dry.writes
            && (run.2.Ok? && shown.2.Ok? && live.pages <= run.0.pages && dry.pages <= shown.0.pages
                && shown.0.pages[|dry.pages|..] == run.0.pages[|live.pages|..] ==>
                  && live.issued <= run.0.issued
                  && (OneItem(where, base) || cmd.mutation.Some? ==>
                        shown.0.explained == dry.explained + SentBy(live, run.0)
                        && shown.2 == Ok(Explained(BlocksOf(law, SentBy(live, run.0)))))
                  && (!OneItem(where, base) && cmd.mutation.None? && PlanOf(where, schema.pk, schema.rk).None? ==>
                        var read := ReadOf(cmd, where, None, base, UniquePrefix(counter + 1));
                        shown.0.explained == dry.explained + ([Reading(read)] + OnlyWrites(SentBy(live, run.0)))))
  {
    hide RunOne, RunMany, TemplateOf, ReadOf, PlanOf, GudKey, Occs, BlocksOf, OnlyWrites, SentBy;
    var t := TemplateOf(cmd, where, base, UniquePrefix(counter));
    if OneItem(where, base) {
      OneExplained(law, live, dry, cmd, t.(key := GudKey(Occs(where.value, true), First(base.pk), First(base.rk))));
    } else {
      var plan := PlanOf(where, schema.pk, schema.rk);
      KeyConditionIffPlan(cmd, where, plan, base, UniquePrefix(counter + 1));
      ManyExplained(law, live, dry, cmd, ReadOf(cmd, where, plan, base, UniquePrefix(counter + 1)), t);
    }
  }

  lemma KeyConditionIffPlan(cmd: Command, where: Option<Expr>, plan: Option<QueryKeyPlan>, base: Schema, prefix: string)
    ensures ReadOf(cmd, where, plan, base, prefix).keyCondition.Some? <==> plan.Some?
  {
  }

  lemma ExplainWritesNothing(law: Law, w: World, read: ReadRequest, t: WriteRequest)
    ensures ExplainPages(law, w, read, t, true, []).0.writes == w.writes
    ensures ExplainDelete(law, w, read, t).0.writes == w.writes
  {
    ExplainOnlyReads(law, w, read, t, true, []);
    var shown := ExplainOne(law, w, Reading(read), []);
    if shown.1.Ok? {
      ExplainOnlyReads(law, shown.0, read, t, false, shown.1.value);
    }
  }
}

// A bulk UPDATE or DELETE as a function of the world it runs in: pages of keys,
// one conditional write per key. And what it does there: it changes only items
// that satisfy the WHERE at that moment, and, left alone, all of them.

module BulkWrites {
  import opened Values
  import opened Expressions
  import opened Splitting
  import opened Reader
  import opened Access
  import opened SingleItem
  import opened Enforcing
  import opened Symbols
  import opened Updates
  import opened Requests
  import opened Planner
  import opened Service
  import opened Reads

  datatype Acct = Acct(read: nat, modified: nat, ccf: nat, returned: seq<Item>)

  // ---- the run --------------------------------------------------------------

  function Counted(acct: Acct, outcome: Result<Option<Item>, Failure>, wantReturned: bool): Acct {
    match outcome
    case Ok(item) =>
      acct.(read := acct.read + 1, modified := acct.modified + 1,
            returned := acct.returned + if wantReturned then [item.GetOr(map[])] else [])
    case Err(_) => acct.(read := acct.read + 1, ccf := acct.ccf + 1)
  }

  predicate Fatal(outcome: Result<Option<Item>, Failure>) {
    outcome.Err? && outcome.error != ConditionFailed
  }

  function RunRows(law: Law, w: World, rows: seq<Item>, template: WriteRequest, wantReturned: bool, acct: Acct)
    : (World, Result<Acct, Failure>)
    decreases |rows|
  {
    if rows == [] then (w, Ok(acct))
    else
      var done := WriteItem(law, w, template.(key := rows[0]));
      if Fatal(done.1) then (done.0, Err(done.1.error))
      else RunRows(law, done.0, rows[1..], template, wantReturned, Counted(acct, done.1, wantReturned))
  }

  lemma {:induction false} RowsUseTurns(law: Law, w: World, rows: seq<Item>, template: WriteRequest, wantReturned: bool,
                                        acct: Acct)
    ensures |RunRows(law, w, rows, template, wantReturned, acct).0.turns| <= |w.turns|
    decreases |rows|
  {
    if rows != [] {
      var done := WriteItem(law, w, template.(key := rows[0]));
      RowsUseTurns(law, done.0, rows[1..], template, wantReturned, Counted(acct, done.1, wantReturned));
    }
  }

  function RunPages(law: Law, w: World, read: ReadRequest, template: WriteRequest, wantReturned: bool, acct: Acct)
    : (World, Result<Acct, Failure>)
    decreases |w.turns|
  {
    var page := ReadPage(law, w, read);
    if page.1.Err? then (page.0, Err(page.1.error))
    else
      var done := RunRows(law, page.0, page.1.value.rows, template, wantReturned, acct);
      RowsUseTurns(law, page.0, page.1.value.rows, template, wantReturned, acct);
      if done.1.Err? || page.1.value.last.None? || page.1.value.last.value == map[] then done
      else RunPages(law, done.0, read.(startKey := page.1.value.last), template, wantReturned, done.1.value)
  }

  // ---- what is asked of the world -------------------------------------------

  // Stores hold items under their own base-table key.
  ghost predicate WellKeyed(store: Store, pk: string, rk: string) {
    forall k | k in store :: k.Keys == (set a | a in BaseKeys(pk, rk)) && KeyMatches(k, store[k]) && "" !in store[k]
  }

  ghost predicate WellKeyedWorld(w: World, pk: string, rk: string) {
    WellKeyed(w.store, pk, rk) && forall t | t in w.turns && t.foreign.Some? :: WellKeyed(t.foreign.value, pk, rk)
  }

  // What a caller can check of the clause of a per-item write. Every group with only
  // conjunctions above it has something for the condition; the condition follows from
  // the clause; and it enforces a clause that was seen to hold.
  predicate ConditionReady(where: Option<Expr>, pk: string, rk: string) {
    where.Some? ==> GroupsTouch(where.value, Residual(pk, rk))
  }

  // And the update expression, if there is one, can be read.
  predicate Taken(t: WriteRequest, where: Option<Expr>, pk: string, rk: string) {
    ConditionReady(where, pk, rk) && UpdateTaken(t)
  }

  predicate UpdateTaken(t: WriteRequest) {
    t.update.Some? ==> UpdateMeant(t).Some?
  }

  predicate Kept(where: Option<Expr>, pk: string, rk: string) {
    where.Some? ==> Keepsake(where.value, Residual(pk, rk), true)
  }

  predicate Enforced(where: Option<Expr>, pk: string, rk: string) {
    where.Some? ==> !Slips(where.value, Residual(pk, rk), true, {pk, rk, ""})
  }

  // ---- the key stands for the predicates dropped from the condition ---------

  predicate Passes(where: Option<Expr>, pk: string, rk: string, sem: Semantics, item: Item) {
    where.Some? ==> EvalOption(Prune(where.value, Residual(pk, rk)), ItemMeaning(sem, item))
  }

  // An item that passes the condition is one the clause wants.
  predicate KeyVouches(where: Option<Expr>, pk: string, rk: string, sem: Semantics, item: Item) {
    Passes(where, pk, rk, sem, item) ==> Wanted(where, sem, item)
  }

  lemma {:induction false} CarriedNames(e: Expr, pk: string, rk: string)
    requires Prune(e, Carried(pk, rk)).Some?
    ensures NamesIn(Preds(Prune(e, Carried(pk, rk)).value), {pk, rk, ""})
  {
    if e.And? {
      forall x, p | x in PruneAll(e.kids, Carried(pk, rk)) && p in Preds(x) ensures p.lhs in {pk, rk, ""} {
        var k := PruneAllSource(e.kids, Carried(pk, rk), x);
        CarriedNames(k, pk, rk);
      }
    }
  }

  // Items with the same key agree on every predicate on a key attribute, and those
  // dropped from the condition are.
  lemma SameKeyAgrees(e: Expr, pk: string, rk: string, sem: Semantics, k: Key, a: Item, b: Item)
    requires k.Keys == KeyNames(pk, rk) && KeyMatches(k, a) && KeyMatches(k, b)
    requires "" !in a && "" !in b
    ensures NamesIn(SidePreds(e, Carried(pk, rk)), {pk, rk, ""})
    ensures SameOn({pk, rk, ""}, ItemMeaning(sem, a), ItemMeaning(sem, b))
  {
    if Prune(e, Carried(pk, rk)).Some? {
      CarriedNames(e, pk, rk);
    }
    forall p: Pred | p.lhs in {pk, rk, ""} ensures ItemMeaning(sem, a)(p) == ItemMeaning(sem, b)(p) {
      if p.lhs != "" {
        assert p.lhs in BaseKeys(pk, rk);
        assert p.lhs in k.Keys;
      }
      assert Lookup(a, p.lhs) == Lookup(b, p.lhs);
    }
  }

  // An item the clause was seen to want vouches for every item with its key.
  lemma SeenVouches(where: Option<Expr>, pk: string, rk: string, sem: Semantics, k: Key, seen: Item, item: Item)
    requires Fit(where) && Enforced(where, pk, rk) && ConditionReady(where, pk, rk)
    requires k.Keys == KeyNames(pk, rk) && KeyMatches(k, seen) && KeyMatches(k, item) && "" !in seen && "" !in item
    requires Wanted(where, sem, seen)
    ensures KeyVouches(where, pk, rk, sem, item)
  {
    if where.Some? && Passes(where, pk, rk, sem, item) {
      var e := where.value;
      ArityWeaken(e);
      ResidualComplement(e, pk, rk);
      CarriedSolid(e, pk, rk);
      SolidExactly(e, Residual(pk, rk));
      SameKeyAgrees(e, pk, rk, sem, k, item, seen);
      var m, n := ItemMeaning(sem, item), ItemMeaning(sem, seen);
      NothingSlips(e, Carried(pk, rk), Residual(pk, rk), true, {pk, rk, ""}, m, n);
    }
  }

  // Whatever the predicates mean, an item the clause was seen to want vouches for every
  // item with its key.
  ghost predicate SeenAlwaysVouches(where: Option<Expr>, pk: string, rk: string) {
    forall sem: Semantics, k: Key, seen: Item, item: Item
      | k.Keys == KeyNames(pk, rk) && KeyMatches(k, seen) && KeyMatches(k, item) && "" !in seen && "" !in item
        && Wanted(where, sem, seen) ::
      KeyVouches(where, pk, rk, sem, item)
  }

  // It does exactly when nothing slips.
  lemma SeenVouchesExactly(where: Option<Expr>, pk: string, rk: string)
    requires Fit(where) && ConditionReady(where, pk, rk) && (where.Some? ==> Linear(where.value)) && pk != ""
    ensures Enforced(where, pk, rk) <==> SeenAlwaysVouches(where, pk, rk)
  {
    hide Fit, ConditionReady, KeyVouches, Wanted;
    if Enforced(where, pk, rk) {
      forall sem: Semantics, k: Key, seen: Item, item: Item
        | k.Keys == KeyNames(pk, rk) && KeyMatches(k, seen) && KeyMatches(k, item) && "" !in seen && "" !in item
          && Wanted(where, sem, seen)
        ensures KeyVouches(where, pk, rk, sem, item)
      {
        SeenVouches(where, pk, rk, sem, k, seen, item);
      }
    } else {
      var sem, k, seen, item := SlipsAway(where, pk, rk);
    }
  }

  // Where something slips, an item that is wanted no more passes the condition.
  lemma SlipsAway(where: Option<Expr>, pk: string, rk: string)
    returns (sem: Semantics, k: Key, seen: Item, item: Item)
    requires Fit(where) && ConditionReady(where, pk, rk) && !Enforced(where, pk, rk)
    requires Linear(where.value) && pk != ""
    ensures k.Keys == KeyNames(pk, rk) && KeyMatches(k, seen) && KeyMatches(k, item) && "" !in seen && "" !in item
    ensures Wanted(where, sem, seen) && !KeyVouches(where, pk, rk, sem, item)
  {
    var e := where.value;
    ArityWeaken(e);
    SolidExactly(e, Residual(pk, rk));
    var m, n := Slip(e, Residual(pk, rk), true, {pk, rk, ""});
    sem, k, seen, item := TwoMoments(e, pk, rk, m, n);
    EvalFrame(e, ItemMeaning(sem, seen), n);
    EvalFrame(e, ItemMeaning(sem, item), m);
    PartFrame(e, Residual(pk, rk), ItemMeaning(sem, item), m);
  }

  // Two items with one key, of which the predicates of a tree say what they are to say:
  // attributes outside the key are there in the first and not in the second.
  lemma TwoMoments(e: Expr, pk: string, rk: string, m: Meaning, n: Meaning)
    returns (sem: Semantics, k: Key, seen: Item, item: Item)
    requires SameOn({pk, rk, ""}, m, n) && pk != ""
    ensures k.Keys == KeyNames(pk, rk) && KeyMatches(k, seen) && KeyMatches(k, item) && "" !in seen && "" !in item
    ensures forall p | p in Preds(e) :: ItemMeaning(sem, seen)(p) == n(p)
    ensures forall p: Pred :: ItemMeaning(sem, item)(p) == m(p)
  {
    hide Preds;
    var names := set p | p in Preds(e) && p.lhs != "" :: p.lhs;
    sem := (p: Pred, x: Option<Value>) => if p.lhs in {pk, rk, ""} || x.None? then m(p) else n(p);
    k := map a | a in BaseKeys(pk, rk) :: Null;
    seen, item := map a | a in names + k.Keys :: Null, k;
    forall p | p in Preds(e) ensures ItemMeaning(sem, seen)(p) == n(p) {
      if p.lhs !in {pk, rk, ""} {
        assert p.lhs in names;
        assert Lookup(seen, p.lhs) == Some(Null);
      }
    }
    forall p: Pred ensures ItemMeaning(sem, item)(p) == m(p) {
      if p.lhs !in {pk, rk, ""} {
        assert Lookup(item, p.lhs) == None;
      }
    }
  }

  // And every item it wants passes, when the condition follows from it.
  lemma WantedPasses(where: Option<Expr>, pk: string, rk: string, sem: Semantics, item: Item)
    requires Fit(where) && Kept(where, pk, rk) && ConditionReady(where, pk, rk) && Wanted(where, sem, item)
    ensures Passes(where, pk, rk, sem, item)
  {
    if where.Some? {
      ArityWeaken(where.value);
      SolidExactly(where.value, Residual(pk, rk));
      KeepsakeMeans(where.value, Residual(pk, rk), true, ItemMeaning(sem, item));
    }
  }

  // ---- a read that covers the key -------------------------------------------

  // Every predicate on the base-table key is one on the keys of the plan.
  predicate Covers(e: Expr, plan: QueryKeyPlan, pk: string, rk: string) {
    forall o | o in Occs(e, true) && (o.pred.lhs == pk || o.pred.lhs == rk) ::
      o.pred.lhs in plan.pk || o.pred.lhs in plan.sk
  }

  lemma {:induction false} CarriedIsKey(e: Expr, plan: QueryKeyPlan, pk: string, rk: string)
    requires Covers(e, plan, pk, rk) && forall o | o in Occs(e, true) :: SafeOcc(o, plan.pk, plan.sk)
    requires Touches(e, Carried(pk, rk))
    ensures Touches(e, KeyCondition(plan.pk, plan.sk))
  {
    if e.Leaf? {
      assert Occs(e, true)[0] in Occs(e, true);
    } else if e.And? {
      var k :| k in e.kids && Touches(k, Carried(pk, rk));
      KidOccs(e.kids, k, true);
      CarriedIsKey(k, plan, pk, rk);
    }
  }

  lemma {:induction false} AvoidsCarried(e: Expr, plan: QueryKeyPlan, pk: string, rk: string)
    requires Covers(e, plan, pk, rk) && forall o | o in Occs(e, true) :: SafeOcc(o, plan.pk, plan.sk)
    requires NegationsAvoid(e, KeyCondition(plan.pk, plan.sk))
    ensures NegationsAvoid(e, Carried(pk, rk))
  {
    if e.And? {
      forall k | k in e.kids ensures NegationsAvoid(k, Carried(pk, rk)) {
        KidOccs(e.kids, k, true);
        AvoidsCarried(k, plan, pk, rk);
      }
      if Touches(e, Carried(pk, rk)) {
        CarriedIsKey(e, plan, pk, rk);
      }
    }
  }

  // A Query whose keys cover the key of the table, and that the service accepts, has
  // no NOT around what the condition drops: the condition then follows from the
  // clause, and enforces it.
  lemma CoveredIsKept(e: Expr, plan: QueryKeyPlan, pk: string, rk: string)
    requires Arity(e, 2) && forall o | o in Occs(e, true) :: SafeOcc(o, plan.pk, plan.sk)
    requires Covers(e, plan, pk, rk) && QueryReady(e, plan)
    ensures Kept(Some(e), pk, rk) && Enforced(Some(e), pk, rk)
  {
    ArityWeaken(e);
    AvoidsCarried(e, plan, pk, rk);
    ResidualComplement(e, pk, rk);
    AvoidingKeeps(e, Carried(pk, rk), Residual(pk, rk), {pk, rk, ""});
  }

  // What a caller can check of a bulk write: when its read and its condition are taken
  // by the service, and the read does not cover the key, nothing slips.
  predicate SafeBulk(where: Option<Expr>, plan: Option<QueryKeyPlan>, pk: string, rk: string) {
    where.Some? && (plan.Some? ==> QueryReady(where.value, plan.value)) && ConditionReady(where, pk, rk)
    && !(plan.Some? && Covers(where.value, plan.value, pk, rk)) ==>
      Enforced(where, pk, rk)
  }

  lemma SafeIsEnforced(read: ReadRequest, where: Option<Expr>, plan: Option<QueryKeyPlan>, pk: string, rk: string)
    requires Fit(where) && SafeBulk(where, plan, pk, rk) && ConditionReady(where, pk, rk)
    requires ReadsFor(read, where, plan) && Accepted(read)
    ensures Enforced(where, pk, rk)
  {
    hide Accepted;
    AcceptedExactly(read, where, plan);
    if where.Some? && plan.Some? && Covers(where.value, plan.value, pk, rk) {
      CoveredIsKept(where.value, plan.value, pk, rk);
    }
  }

  function KeyNames(pk: string, rk: string): set<string> {
    set a | a in BaseKeys(pk, rk)
  }

  // ---- what a read selects --------------------------------------------------

  // The read of a bulk write asks for the base-table key.
  ghost predicate IsRead(r: ReadRequest, where: Option<Expr>, plan: Option<QueryKeyPlan>, pk: string, rk: string) {
    && ReadsFor(r, where, plan)
    && r.projection.Some?
    && DecodesTo(r.projection, r.names, r.values, PathsText(BaseKeys(pk, rk)))
  }

  lemma ReadIsFor(r: ReadRequest, where: Option<Expr>, plan: Option<QueryKeyPlan>, pk: string, rk: string)
    requires IsRead(r, where, plan, pk, rk)
    ensures ReadsFor(r, where, plan)
  {
  }

  // ---- what a condition lets through ----------------------------------------

  // The template of a bulk write for a clause.
  ghost predicate IsTemplate(t: WriteRequest, guarded: bool, where: Option<Expr>, pk: string, rk: string) {
    && DecodesTo(t.condition, t.names, t.values, ConditionText(guarded, where, pk, rk))
    && (t.condition.Some? ==> ConditionText(guarded, where, pk, rk) != [])
  }

  // `attribute_exists(pk) AND ` put in front of a text: it binds to the first
  // conjunction only.
  function Graft(pk: string, e: Expr): Expr {
    if BareOr(e) && e.kids != [] then Or(false, false, [Graft(pk, e.kids[0])] + e.kids[1..])
    else And(false, false, [Leaf(false, false, AttributeExists(pk)), e])
  }

  // What of the tree then needs no item to be there.
  predicate Ungated(e: Expr, m: Meaning) {
    BareOr(e) && e.kids != [] && (Ungated(e.kids[0], m) || exists k | k in e.kids[1..] :: Eval(k, m))
  }

  lemma {:induction false} GraftPrints(pk: string, e: Expr)
    ensures Print(Graft(pk, e)) == PredText(AttributeExists(pk)) + ([Word(AND)] + Print(e))
  {
    var existence := Leaf(false, false, AttributeExists(pk));
    var guard := PredText(AttributeExists(pk));
    hide PredText;
    if BareOr(e) && e.kids != [] {
      GraftPrints(pk, e.kids[0]);
      JoinedFirst(Graft(pk, e.kids[0]), e.kids[0], guard + [Word(AND)], e.kids[1..], OR) by {
        assert guard + ([Word(AND)] + Print(e.kids[0])) == guard + [Word(AND)] + Print(e.kids[0]);
      }
      assert [e.kids[0]] + e.kids[1..] == e.kids;
    } else {
      assert [existence, e][1..] == [e];
      assert PrintJoined([existence, e], AND) == Print(existence) + [Word(AND)] + PrintJoined([e], AND);
    }
    assert guard + [Word(AND)] + Print(e) == guard + ([Word(AND)] + Print(e));
  }

  // What stands before the first of a list stands before the list.
  lemma JoinedFirst(a: Expr, b: Expr, before: Text, rest: seq<Expr>, sep: string)
    requires Print(a) == before + Print(b)
    ensures PrintJoined([a] + rest, sep) == before + PrintJoined([b] + rest, sep)
  {
    hide Print;
    assert ([a] + rest)[1..] == rest && ([b] + rest)[1..] == rest;
    if rest != [] {
      var tail := PrintJoined(rest, sep);
      assert before + Print(b) + [Word(sep)] + tail == before + (Print(b) + [Word(sep)] + tail);
    }
  }

  lemma {:induction false} GraftShape(pk: string, e: Expr)
    requires Guarded(e) && Printable(e)
    ensures Guarded(Graft(pk, e)) && Printable(Graft(pk, e)) && (Arity(Graft(pk, e), 1) <==> Arity(e, 1))
  {
    if BareOr(e) && e.kids != [] {
      GraftShape(pk, e.kids[0]);
      assert forall k :: k in Graft(pk, e).kids <==> k == Graft(pk, e.kids[0]) || k in e.kids[1..];
      assert forall k :: k in e.kids <==> k == e.kids[0] || k in e.kids[1..];
    } else {
      var leaf := Leaf(false, false, AttributeExists(pk));
      assert !BareOr(e);
      assert Guarded(leaf) && !BareOr(leaf);
      assert forall k | k in [leaf, e] :: k == leaf || k == e;
      assert Graft(pk, e).kids == [leaf, e] && e in [leaf, e];
    }
  }

  lemma {:induction false} GraftMeans(pk: string, e: Expr, m: Meaning)
    ensures Eval(Graft(pk, e), m) == if m(AttributeExists(pk)) then Eval(e, m) else Ungated(e, m)
  {
    var g := Graft(pk, e);
    if BareOr(e) && e.kids != [] {
      GraftMeans(pk, e.kids[0], m);
      assert forall k :: k in g.kids <==> k == Graft(pk, e.kids[0]) || k in e.kids[1..];
      assert forall k :: k in e.kids <==> k == e.kids[0] || k in e.kids[1..];
    } else {
      var leaf := Leaf(false, false, AttributeExists(pk));
      assert g.kids == [leaf, e] && leaf in g.kids && e in g.kids;
      assert forall k :: k in g.kids <==> k == leaf || k == e;
      assert Eval(leaf, m) == m(AttributeExists(pk));
      assert Eval(g, m) == (Eval(leaf, m) && Eval(e, m));
    }
  }

  // What the condition of a write comes to. None: the service rejects it.
  function ConditionMeaning(guarded: bool, where: Option<Expr>, pk: string, rk: string, m: Meaning): Option<bool> {
    var residual := if where.None? then None else Prune(where.value, Residual(pk, rk));
    if !ConditionReady(where, pk, rk) then None
    else if !guarded then Some(EvalOption(residual, m))
    else if m(AttributeExists(pk)) then Some(EvalOption(residual, m))
    else Some(residual.Some? && Ungated(residual.value, m))
  }

  lemma ConditionJudged(t: WriteRequest, guarded: bool, where: Option<Expr>, pk: string, rk: string, m: Meaning)
    requires IsTemplate(t, guarded, where, pk, rk) && Fit(where)
    ensures Judge(t.condition, t.names, t.values, m) == ConditionMeaning(guarded, where, pk, rk, m)
  {
    hide Judge, Decode, Read, Print;
    var guard := PredText(AttributeExists(pk));
    var residual := if where.None? then None else Prune(where.value, Residual(pk, rk));
    ExistsReadBack(pk, m);
    if where.Some? {
      ArityWeaken(where.value);
      SolidExactly(where.value, Residual(pk, rk));
    }
    if residual.None? {
      assert ResidualText(where, pk, rk) == [];
      JudgeReadText(t.condition, t.names, t.values, if guarded then guard else [], m) by {
        assert guard + [] == guard;
      }
    } else {
      var e := residual.value;
      PrunedText(where.value, Residual(pk, rk));
      PrintNotEmpty(e);
      if !guarded {
        ReadableExactly(e);
        JudgeReadText(t.condition, t.names, t.values, Print(e), m);
      } else {
        GraftPrints(pk, e);
        GraftShape(pk, e);
        GraftMeans(pk, e, m);
        ReadableExactly(Graft(pk, e));
        JudgeReadText(t.condition, t.names, t.values, Print(Graft(pk, e)), m);
      }
    }
  }

  lemma ExistsReadBack(pk: string, m: Meaning)
    ensures Read(PredText(AttributeExists(pk))).Some?
    ensures Means(Read(PredText(AttributeExists(pk))).value, m) == m(AttributeExists(pk))
  {
    var leaf := Leaf(false, false, AttributeExists(pk));
    ReadBack(leaf);
    assert Print(leaf) == PredText(AttributeExists(pk));
  }

  // attribute_exists means what it says.
  ghost predicate ExistsIsPresence(sem: Semantics, name: string) {
    forall x :: sem(AttributeExists(name), x) <==> x.Some?
  }

  // A write to an item that is there goes through exactly when the item passes the
  // condition; so exactly when the clause wants it, where the key vouches for the
  // item and the condition follows from the clause.
  lemma WriteVerdict(law: Law, store: Store, t: WriteRequest, guarded: bool, where: Option<Expr>, pk: string,
                     rk: string)
    requires IsTemplate(t, guarded, where, pk, rk) && Fit(where) && WellKeyed(store, pk, rk) && t.key in store
    requires guarded ==> ExistsIsPresence(law.sem, pk)
    ensures Verdict(law, store, t) ==
            if Taken(t, where, pk, rk) then Some(Passes(where, pk, rk, law.sem, store[t.key])) else None
    ensures Kept(where, pk, rk) && Taken(t, where, pk, rk)
            && KeyVouches(where, pk, rk, law.sem, store[t.key]) ==>
              Verdict(law, store, t) == Some(Wanted(where, law.sem, store[t.key]))
  {
    hide Judge, UpdateMeant;
    var m := ItemMeaning(law.sem, store[t.key]);
    ConditionJudged(t, guarded, where, pk, rk, m);
    assert pk in BaseKeys(pk, rk);
    assert pk in t.key && pk in store[t.key];
    if Kept(where, pk, rk) && ConditionReady(where, pk, rk) && Wanted(where, law.sem, store[t.key]) {
      WantedPasses(where, pk, rk, law.sem, store[t.key]);
    }
  }

  // An UPDATE of a key under which there is no item goes through, and creates one,
  // exactly when the WHERE is an unparenthesised OR of which a later alternative
  // holds of nothing at all.
  lemma UpdateCreatesExactly(law: Law, store: Store, t: WriteRequest, where: Option<Expr>, pk: string, rk: string)
    requires IsTemplate(t, true, where, pk, rk) && Fit(where) && t.key !in store
    requires ExistsIsPresence(law.sem, pk)
    ensures Verdict(law, store, t) == Some(true) <==>
            UpdateTaken(t) && where.Some? && BareOr(where.value) && Ungated(where.value, ItemMeaning(law.sem, map[]))
  {
    hide Judge;
    var m := ItemMeaning(law.sem, map[]);
    ConditionJudged(t, true, where, pk, rk, m);
    assert Lookup(map[], pk) == None;
    assert m(AttributeExists(pk)) == law.sem(AttributeExists(pk), None);
    if where.Some? {
      ArityWeaken(where.value);
      if where.value.Or? {
        assert Prune(where.value, Residual(pk, rk)) == where;
      }
    }
  }

  // ---- safety under interference --------------------------------------------

  // Any item with this key that passes the condition is one the clause wants.
  ghost predicate Vouched(row: Item, where: Option<Expr>, pk: string, rk: string, sem: Semantics) {
    && row.Keys == KeyNames(pk, rk)
    && forall item | KeyMatches(row, item) && "" !in item :: KeyVouches(where, pk, rk, sem, item)
  }

  // An item that was changed or removed satisfied the WHERE at that moment; an
  // UPDATE created none, unless its WHERE is an unparenthesised OR.
  ghost predicate Lawful(done: Written, guarded: bool, where: Option<Expr>, sem: Semantics) {
    done.outcome.Ok? ==>
      if done.before.Some? then Wanted(where, sem, done.before.value)
      else guarded ==> where.Some? && BareOr(where.value)
  }

  ghost predicate AllLawful(writes: seq<Written>, guarded: bool, where: Option<Expr>, sem: Semantics) {
    forall d | d in writes :: Lawful(d, guarded, where, sem)
  }

  // What a bulk write is run with.
  ghost predicate Planned(law: Law, read: ReadRequest, t: WriteRequest, guarded: bool, where: Option<Expr>,
                          plan: Option<QueryKeyPlan>, pk: string, rk: string)
  {
    && pk != "" && Fit(where) && SafeBulk(where, plan, pk, rk)
    && IsRead(read, where, plan, pk, rk) && IsTemplate(t, guarded, where, pk, rk)
    && (guarded ==> ExistsIsPresence(law.sem, pk))
  }

  lemma ArriveKeyed(w: World, r: Request, pk: string, rk: string)
    requires w.turns != [] && WellKeyedWorld(w, pk, rk)
    ensures WellKeyedWorld(Arrive(w, r), pk, rk)
  {
    assert w.turns[0] in w.turns;
    assert forall t | t in w.turns[1..] :: t in w.turns;
  }

  lemma WriteLawful(law: Law, w: World, t: WriteRequest, guarded: bool, where: Option<Expr>, pk: string, rk: string)
    requires pk != "" && Fit(where) && IsTemplate(t, guarded, where, pk, rk) && WellKeyedWorld(w, pk, rk)
    requires (guarded ==> ExistsIsPresence(law.sem, pk)) && Vouched(t.key, where, pk, rk, law.sem)
    requires AllLawful(w.writes, guarded, where, law.sem)
    ensures WellKeyedWorld(WriteItem(law, w, t).0, pk, rk)
            && AllLawful(WriteItem(law, w, t).0.writes, guarded, where, law.sem)
  {
    hide Verdict, IsTemplate, Fit, WellKeyed, Ungated, ExistsIsPresence, Updated, BareOr, Lawful;
    if w.turns != [] {
      ArriveKeyed(w, Writing(t), pk, rk);
      var now := Arrive(w, Writing(t));
      var before := if t.key in now.store then Some(now.store[t.key]) else None;
      var outcome := WriteItem(law, w, t).1;
      VerdictLawful(law, now.store, t, outcome, guarded, where, pk, rk);
      StaysKeyed(law, now.store, t, pk, rk, before.GetOr(map[]));
      assert WriteItem(law, w, t).0.writes == w.writes + [Written(t, before, outcome)];
    }
  }

  // A write that went through was lawful.
  lemma VerdictLawful(law: Law, store: Store, t: WriteRequest, outcome: Result<Option<Item>, Failure>, guarded: bool,
                      where: Option<Expr>, pk: string, rk: string)
    requires Fit(where) && IsTemplate(t, guarded, where, pk, rk) && WellKeyed(store, pk, rk)
    requires (guarded ==> ExistsIsPresence(law.sem, pk)) && Vouched(t.key, where, pk, rk, law.sem)
    requires outcome.Ok? ==> Verdict(law, store, t) == Some(true)
    ensures Lawful(Written(t, if t.key in store then Some(store[t.key]) else None, outcome), guarded, where, law.sem)
  {
    hide Verdict, IsTemplate, Fit, WellKeyed, Ungated, ExistsIsPresence, BareOr, KeyVouches, Wanted;
    if t.key in store {
      StoredIsVouched(store, t.key, where, pk, rk, law.sem);
      WriteVerdict(law, store, t, guarded, where, pk, rk);
    } else if guarded {
      UpdateCreatesExactly(law, store, t, where, pk, rk);
    }
  }

  lemma StoredIsVouched(store: Store, k: Key, where: Option<Expr>, pk: string, rk: string, sem: Semantics)
    requires WellKeyed(store, pk, rk) && k in store && Vouched(k, where, pk, rk, sem)
    ensures KeyVouches(where, pk, rk, sem, store[k])
  {
  }

  lemma StaysKeyed(law: Law, store: Store, t: WriteRequest, pk: string, rk: string, item: Item)
    requires pk != "" && WellKeyed(store, pk, rk) && t.key.Keys == KeyNames(pk, rk)
    ensures WellKeyed(store - {t.key}, pk, rk) && WellKeyed(store[t.key := Updated(law, t, item)], pk, rk)
  {
  }

  lemma {:induction false} RowsLawful(law: Law, w: World, rows: seq<Item>, t: WriteRequest, wantReturned: bool,
                                      acct: Acct, guarded: bool, where: Option<Expr>, pk: string, rk: string)
    requires pk != "" && Fit(where) && IsTemplate(t, guarded, where, pk, rk) && WellKeyedWorld(w, pk, rk)
    requires (guarded ==> ExistsIsPresence(law.sem, pk)) && AllLawful(w.writes, guarded, where, law.sem)
    requires forall row | row in rows :: Vouched(row, where, pk, rk, law.sem)
    ensures var after := RunRows(law, w, rows, t, wantReturned, acct).0;
            WellKeyedWorld(after, pk, rk) && AllLawful(after.writes, guarded, where, law.sem)
    decreases |rows|
  {
    if rows != [] {
      var done := WriteItem(law, w, t.(key := rows[0]));
      WriteLawful(law, w, t.(key := rows[0]), guarded, where, pk, rk);
      if !Fatal(done.1) {
        RowsLawful(law, done.0, rows[1..], t, wantReturned, Counted(acct, done.1, wantReturned), guarded, where, pk,
                   rk);
      }
    }
  }

  lemma PathsInConcat(a: Text, b: Text)
    ensures PathsIn(a + b) == PathsIn(a) + PathsIn(b)
  {
    assert forall x :: x in a + b <==> x in a || x in b;
  }

  lemma OnePath(path: string)
    ensures PathsIn([Attr(path)]) == {path} && PathsIn([Word(", ")]) == {}
  {
    assert forall t: Tok<Value> :: t in [Attr(path)] <==> t == Attr(path);
  }

  lemma {:induction false} PathsInText(paths: seq<string>)
    ensures PathsIn(PathsText(paths)) == (set p | p in paths)
  {
    if paths != [] {
      var head: Text := [Attr(paths[0])];
      OnePath(paths[0]);
      hide PathsIn;
      if |paths| > 1 {
        var comma: Text := [Word(", ")];
        PathsInText(paths[1..]);
        PathsInConcat(comma, PathsText(paths[1..]));
        PathsInConcat(head, comma + PathsText(paths[1..]));
        assert PathsText(paths) == head + (comma + PathsText(paths[1..]));
        assert forall p :: p in paths <==> p == paths[0] || p in paths[1..];
      }
    }
  }

  // A row is the key it was found under.
  lemma RowIsKey(r: ReadRequest, where: Option<Expr>, plan: Option<QueryKeyPlan>, pk: string, rk: string, k: Key,
                 item: Item)
    requires IsRead(r, where, plan, pk, rk) && k.Keys == KeyNames(pk, rk) && KeyMatches(k, item)
    ensures Project(r, item) == k
  {
    PathsInText(BaseKeys(pk, rk));
    forall a ensures a in Project(r, item) <==> a in k {
      if a in k {
        assert Lookup(item, a) == Some(k[a]);
      }
    }
    forall a | a in k ensures Project(r, item)[a] == k[a] {
      assert Lookup(item, a) == Some(k[a]);
    }
  }

  lemma {:induction false} RowsVouched(law: Law, store: Store, r: ReadRequest, keys: seq<Key>, where: Option<Expr>,
                                       plan: Option<QueryKeyPlan>, pk: string, rk: string)
    requires Fit(where) && Enforced(where, pk, rk) && ConditionReady(where, pk, rk)
    requires IsRead(r, where, plan, pk, rk) && Accepted(r) && WellKeyed(store, pk, rk)
    ensures forall row | row in RowsAt(law, store, r, keys) :: Vouched(row, where, pk, rk, law.sem)
  {
    if keys != [] {
      RowsVouched(law, store, r, keys[1..], where, plan, pk, rk);
      var k := keys[0];
      if RowAt(law, store, r, k) != [] {
        RowVouched(law, store, r, k, where, plan, pk, rk);
      }
    }
  }

  lemma RowVouched(law: Law, store: Store, r: ReadRequest, k: Key, where: Option<Expr>, plan: Option<QueryKeyPlan>,
                   pk: string, rk: string)
    requires Fit(where) && Enforced(where, pk, rk) && ConditionReady(where, pk, rk)
    requires IsRead(r, where, plan, pk, rk) && Accepted(r) && WellKeyed(store, pk, rk)
    requires RowAt(law, store, r, k) != []
    ensures RowAt(law, store, r, k) == [k] && Vouched(k, where, pk, rk, law.sem)
  {
    hide Fit, ReadsFor, Enforced, ConditionReady, KeyVouches, Accepted, Selects;
    var hit := store[k];
    AcceptedMeans(r, where, plan, ItemMeaning(law.sem, hit));
    RowIsKey(r, where, plan, pk, rk, k, hit);
    forall item | KeyMatches(k, item) && "" !in item ensures KeyVouches(where, pk, rk, law.sem, item) {
      SeenVouches(where, pk, rk, law.sem, k, hit, item);
    }
  }

  // Whatever other writers do between the reads and the writes, and whatever
  // fails, every item a bulk UPDATE, UPSERT or DELETE changes or removes satisfies
  // the full WHERE at the moment of its write, and an UPDATE creates none.
  lemma {:induction false} BulkWriteIsSafe(law: Law, w: World, read: ReadRequest, t: WriteRequest, wantReturned: bool,
                                           acct: Acct, guarded: bool, where: Option<Expr>, plan: Option<QueryKeyPlan>,
                                           pk: string, rk: string)
    requires Planned(law, read, t, guarded, where, plan, pk, rk)
    requires WellKeyedWorld(w, pk, rk) && AllLawful(w.writes, guarded, where, law.sem)
    ensures AllLawful(RunPages(law, w, read, t, wantReturned, acct).0.writes, guarded, where, law.sem)
    decreases |w.turns|
  {
    hide RunRows, ReadPage, WellKeyedWorld, AllLawful;
    var page := ReadPage(law, w, read);
    if page.1.Ok? {
      var rows := page.1.value.rows;
      PageLawful(law, w, read, t, wantReturned, acct, guarded, where, plan, pk, rk);
      var done := RunRows(law, page.0, rows, t, wantReturned, acct);
      RowsUseTurns(law, page.0, rows, t, wantReturned, acct);
      if done.1.Ok? && page.1.value.last.Some? && page.1.value.last.value != map[] {
        BulkWriteIsSafe(law, done.0, read.(startKey := page.1.value.last), t, wantReturned, done.1.value,
                        guarded, where, plan, pk, rk);
      }
    } else {
      PageLawful(law, w, read, t, wantReturned, acct, guarded, where, plan, pk, rk);
    }
  }

  // One page and its writes.
  lemma PageLawful(law: Law, w: World, read: ReadRequest, t: WriteRequest, wantReturned: bool, acct: Acct,
                   guarded: bool, where: Option<Expr>, plan: Option<QueryKeyPlan>, pk: string, rk: string)
    requires Planned(law, read, t, guarded, where, plan, pk, rk)
    requires WellKeyedWorld(w, pk, rk) && AllLawful(w.writes, guarded, where, law.sem)
    ensures var page := ReadPage(law, w, read);
            && AllLawful(page.0.writes, guarded, where, law.sem)
            && |page.0.turns| <= |w.turns| && (page.1.Ok? ==> |page.0.turns| < |w.turns|)
            && (page.1.Ok? ==>
                  var after := RunRows(law, page.0, page.1.value.rows, t, wantReturned, acct).0;
                  WellKeyedWorld(after, pk, rk) && AllLawful(after.writes, guarded, where, law.sem))
  {
    hide RunRows, SafeOcc, KeyText, FilterText, ConditionText, RowsAt;
    var page := ReadPage(law, w, read);
    if page.1.Ok? {
      ArriveKeyed(w, Reading(read), pk, rk);
      if !Taken(t, where, pk, rk) {
        RejectedRows(law, page.0, page.1.value.rows, t, wantReturned, acct, guarded, where, pk, rk);
      } else {
        var start := Position(law, read);
        ReadIsFor(read, where, plan, pk, rk);
        SafeIsEnforced(read, where, plan, pk, rk);
        RowsVouched(law, Arrive(w, Reading(read)).store, read, law.order[start..PageEnd(law, start, w.turns[0].limit)],
                    where, plan, pk, rk);
        RowsLawful(law, page.0, page.1.value.rows, t, wantReturned, acct, guarded, where, pk, rk);
      }
    }
  }

  lemma SameUpdate(t: WriteRequest, k: Key)
    ensures UpdateMeant(t.(key := k)) == UpdateMeant(t)
  {
  }

  // A condition with an empty group is rejected before anything is written, and so is
  // an update that cannot be read.
  lemma RejectedLawful(law: Law, w: World, t: WriteRequest, guarded: bool, where: Option<Expr>, pk: string, rk: string)
    requires Fit(where) && IsTemplate(t, guarded, where, pk, rk) && WellKeyedWorld(w, pk, rk)
    requires !Taken(t, where, pk, rk) && AllLawful(w.writes, guarded, where, law.sem)
    ensures var after := WriteItem(law, w, t).0;
            WellKeyedWorld(after, pk, rk) && AllLawful(after.writes, guarded, where, law.sem)
  {
    hide WellKeyed, Judge;
    if w.turns != [] {
      ArriveKeyed(w, Writing(t), pk, rk);
      var now := Arrive(w, Writing(t));
      ConditionJudged(t, guarded, where, pk, rk,
                      ItemMeaning(law.sem, if t.key in now.store then now.store[t.key] else map[]));
    }
  }

  lemma {:induction false} RejectedRows(law: Law, w: World, rows: seq<Item>, t: WriteRequest, wantReturned: bool,
                                        acct: Acct, guarded: bool, where: Option<Expr>, pk: string, rk: string)
    requires Fit(where) && IsTemplate(t, guarded, where, pk, rk) && WellKeyedWorld(w, pk, rk)
    requires !Taken(t, where, pk, rk) && AllLawful(w.writes, guarded, where, law.sem)
    ensures var after := RunRows(law, w, rows, t, wantReturned, acct).0;
            WellKeyedWorld(after, pk, rk) && AllLawful(after.writes, guarded, where, law.sem)
    decreases |rows|
  {
    hide WellKeyedWorld, AllLawful, WriteItem, ConditionReady, UpdateMeant;
    if rows != [] {
      var r := t.(key := rows[0]);
      SameUpdate(t, rows[0]);
      var done := WriteItem(law, w, r);
      RejectedLawful(law, w, r, guarded, where, pk, rk);
      if !Fatal(done.1) {
        RejectedRows(law, done.0, rows[1..], t, wantReturned, Counted(acct, done.1, wantReturned), guarded, where, pk,
                     rk);
      }
    }
  }
}

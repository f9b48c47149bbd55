// What a planned read is worth: exactly when the service accepts it, and that it
// then selects exactly what the clause says.

module Reads {
  import opened Values
  import opened Expressions
  import opened Splitting
  import opened Reader
  import opened Access
  import opened Symbols
  import opened Requests
  import opened Service

  // The tree, when there is one, is of the shape the grammar makes.
  ghost predicate Fit(where: Option<Expr>) {
    where.Some? ==> Arity(where.value, 2) && Guarded(where.value)
  }

  predicate Wanted(where: Option<Expr>, sem: Semantics, item: Item) {
    where.Some? ==> Holds(where.value, sem, item)
  }

  // A read for a clause and the plan it was given.
  ghost predicate ReadsFor(r: ReadRequest, where: Option<Expr>, plan: Option<QueryKeyPlan>) {
    && (plan.Some? ==>
        where.Some? && forall o | o in Occs(where.value, true) :: SafeOcc(o, plan.value.pk, plan.value.sk))
    && (r.keyCondition.Some? <==> plan.Some?)
    && (plan.Some? ==> DecodesTo(r.keyCondition, r.names, r.values, KeyText(where, plan)))
    && DecodesTo(r.filter, r.names, r.values, FilterText(where, plan))
    && (r.filter.Some? ==> FilterText(where, plan) != [])
  }

  // What a caller can check of a clause before it is sent as a Query with these
  // keys: something is left for the key condition, every group with something in it
  // has something for the key, no NOT reaches a key predicate, there is no `<>`
  // among them, and each key attribute is tested once.
  predicate KeyReady(e: Expr, pk: seq<string>, sk: seq<string>) {
    && Touches(e, KeyCondition(pk, sk))
    && GroupsTouch(e, KeyCondition(pk, sk))
    && NegationsAvoid(e, KeyCondition(pk, sk))
    && (forall o | o in Occs(e, true) && (o.pred.lhs in pk || o.pred.lhs in sk) :: !o.negated && KeyTest(o.pred))
    && (forall a | a in pk + sk :: CountLhs(Occs(e, true), a) <= 1)
  }

  predicate QueryReady(e: Expr, plan: QueryKeyPlan) {
    KeyReady(e, plan.pk, plan.sk) && GroupsTouch(e, Filter(plan.pk, plan.sk))
  }

  // ---- the tests of a key part ----------------------------------------------

  function PredsOf(os: seq<Occ>): seq<Pred> {
    seq(|os|, i requires 0 <= i < |os| => os[i].pred)
  }

  predicate NoneNegated(os: seq<Occ>) {
    forall o | o in os :: !o.negated
  }

  lemma {:induction false} UntouchedAvoids(e: Expr, s: Side)
    requires !Touches(e, s)
    ensures NegationsAvoid(e, s)
  {
    if e.And? {
      forall k | k in e.kids ensures NegationsAvoid(k, s) {
        UntouchedAvoids(k, s);
      }
    }
  }

  // A key part is a conjunction of predicates exactly when no NOT reaches it; these
  // are then the predicates kept, in order.
  lemma {:induction false} PartTests(e: Expr, pk: seq<string>, sk: seq<string>)
    requires Solid(Prune(e, KeyCondition(pk, sk))) && Prune(e, KeyCondition(pk, sk)).Some?
    ensures var part := Prune(e, KeyCondition(pk, sk)).value;
            && (Tests(part).Some? <==> NegationsAvoid(e, KeyCondition(pk, sk)) && NoneNegated(Occs(part, true)))
            && (Tests(part).Some? ==> Tests(part).value == PredsOf(Occs(part, true)))
    decreases e, 1
  {
    var key := KeyCondition(pk, sk);
    PrunedIffTouched(e, key);
    if e.And? {
      forall k | k in e.kids ensures Solid(Prune(k, key)) {
        SolidKid(e, key, k);
      }
      PartsTests(e.kids, pk, sk);
    } else {
      assert Occs(e, true)[0] in Occs(e, true);
    }
  }

  lemma {:induction false} PartsTests(kids: seq<Expr>, pk: seq<string>, sk: seq<string>)
    requires forall k | k in kids :: Solid(Prune(k, KeyCondition(pk, sk)))
    ensures var kept := PruneAll(kids, KeyCondition(pk, sk));
            && (TestsOf(kept).Some? <==>
                  (forall k | k in kids :: NegationsAvoid(k, KeyCondition(pk, sk))) && NoneNegated(OccsOf(kept, true)))
            && (TestsOf(kept).Some? ==> TestsOf(kept).value == PredsOf(OccsOf(kept, true)))
    decreases kids, 0
  {
    hide Tests, NegationsAvoid, Solid;
    var key := KeyCondition(pk, sk);
    if kids != [] {
      var first, rest := Prune(kids[0], key), PruneAll(kids[1..], key);
      PartsTests(kids[1..], pk, sk);
      assert forall k :: k in kids <==> k == kids[0] || k in kids[1..];
      if first.Some? {
        PartTests(kids[0], pk, sk);
        assert PruneAll(kids, key) == [first.value] + rest && ([first.value] + rest)[1..] == rest;
        NoneNegatedConcat(Occs(first.value, true), OccsOf(rest, true));
      } else {
        PrunedIffTouched(kids[0], key);
        UntouchedAvoids(kids[0], key);
        assert PruneAll(kids, key) == rest;
      }
    }
  }

  lemma NoneNegatedConcat(a: seq<Occ>, b: seq<Occ>)
    ensures NoneNegated(a + b) <==> NoneNegated(a) && NoneNegated(b)
    ensures PredsOf(a + b) == PredsOf(a) + PredsOf(b)
  {
    assert forall o :: o in a + b <==> o in a || o in b;
  }

  // ---- one test for each attribute ------------------------------------------

  predicate Apart(os: seq<Occ>) {
    forall i, j | 0 <= i < j < |os| :: os[i].pred.lhs != os[j].pred.lhs
  }

  lemma {:induction false} ApartCount(os: seq<Occ>, a: string)
    requires Apart(os)
    ensures CountLhs(os, a) <= 1
  {
    if os != [] {
      var rest := os[1..];
      assert forall i | 0 <= i < |rest| :: rest[i] == os[i + 1];
      ApartCount(rest, a);
      CountPositive(rest, a);
      forall o | o in rest ensures o.pred.lhs != os[0].pred.lhs {
        var j :| 0 <= j < |rest| && rest[j] == o;
        assert os[j + 1] == o;
      }
    }
  }

  lemma {:induction false} CountTwice(os: seq<Occ>, i: nat, j: nat)
    requires i < j < |os| && os[i].pred.lhs == os[j].pred.lhs
    ensures CountLhs(os, os[i].pred.lhs) > 1
  {
    if i == 0 {
      CountPositive(os[1..], os[i].pred.lhs);
      assert os[j] == os[1..][j - 1];
    } else {
      CountTwice(os[1..], i - 1, j - 1);
    }
  }

  lemma {:induction false} MentioningCount(os: seq<Occ>, pk: seq<string>, sk: seq<string>, a: string)
    ensures CountLhs(Mentioning(os, pk, sk, true), a) == if a in pk || a in sk then CountLhs(os, a) else 0
  {
    if os != [] {
      MentioningCount(os[1..], pk, sk, a);
      var rest := Mentioning(os[1..], pk, sk, true);
      assert ([os[0]] + rest)[1..] == rest;
    }
  }

  lemma ApartCounted(os: seq<Occ>, pk: seq<string>, sk: seq<string>)
    ensures Apart(Mentioning(os, pk, sk, true)) <==> forall a | a in pk + sk :: CountLhs(os, a) <= 1
  {
    var tests := Mentioning(os, pk, sk, true);
    if Apart(tests) {
      forall a | a in pk + sk ensures CountLhs(os, a) <= 1 {
        ApartCount(tests, a);
        MentioningCount(os, pk, sk, a);
      }
    } else {
      var i, j :| 0 <= i < j < |tests| && tests[i].pred.lhs == tests[j].pred.lhs;
      CountTwice(tests, i, j);
      MentioningCount(os, pk, sk, tests[i].pred.lhs);
    }
  }

  lemma OneTestCounted(tests: seq<Occ>)
    ensures OneTestEach(PredsOf(tests)) <==> (forall o | o in tests :: KeyTest(o.pred)) && Apart(tests)
  {
    hide KeyTest;
    var ps := PredsOf(tests);
    forall o | o in tests ensures o.pred in ps {
      var i :| 0 <= i < |tests| && tests[i] == o;
      assert ps[i] == o.pred;
    }
    forall i | 0 <= i < |tests| ensures ps[i] == tests[i].pred && tests[i] in tests {
    }
    if OneTestEach(ps) {
      assert Apart(tests);
    }
  }

  // What is printed for the key is a legal key condition exactly when the clause is ready.
  lemma KeyPartLegal(e: Expr, pk: seq<string>, sk: seq<string>)
    requires Arity(e, 2) && Guarded(e) && forall o | o in Occs(e, true) :: SafeOcc(o, pk, sk)
    ensures var part := Prune(e, KeyCondition(pk, sk));
            KeyReady(e, pk, sk) <==>
              part.Some? && Read(Print(part.value)).Some? && KeyLegal(Read(Print(part.value)).value)
  {
    hide Read, Print, KeyTest, SafeOcc;
    var key := KeyCondition(pk, sk);
    ArityWeaken(e);
    SolidExactly(e, key);
    if Prune(e, key).Some? {
      var part := Prune(e, key).value;
      PrunedText(e, key);
      ReadableExactly(part);
      if Solid(Prune(e, key)) {
        PrunedIffTouched(e, key);
        PartTests(e, pk, sk);
        ConservationInTree(e, pk, sk);
        OneTestCounted(Mentioning(Occs(e, true), pk, sk, true));
        ApartCounted(Occs(e, true), pk, sk);
        MentioningIs(Occs(e, true), pk, sk);
      }
    } else {
      PrunedIffTouched(e, key);
    }
  }

  lemma {:induction false} MentioningIs(os: seq<Occ>, pk: seq<string>, sk: seq<string>)
    ensures forall o :: o in Mentioning(os, pk, sk, true) <==> o in os && (o.pred.lhs in pk || o.pred.lhs in sk)
  {
    if os != [] {
      MentioningIs(os[1..], pk, sk);
      assert forall o :: o in os <==> o == os[0] || o in os[1..];
    }
  }

  // ---- the texts of a read --------------------------------------------------

  lemma JudgeReadText(text: Option<Aliased>, names: map<string, string>, values: map<string, Value>, raw: Text,
                      m: Meaning)
    requires DecodesTo(text, names, values, raw) && (text.Some? ==> raw != [])
    ensures Judge(text, names, values, m) ==
            if raw == [] then Some(true)
            else match Read(raw) case None => None case Some(c) => Some(Means(c, m))
  {
  }

  lemma JudgeSide(e: Expr, side: Side, text: Option<Aliased>, names: map<string, string>, values: map<string, Value>,
                  m: Meaning)
    requires Arity(e, 2) && Guarded(e) && DecodesTo(text, names, values, PrintOption(Prune(e, side)))
    requires text.Some? ==> PrintOption(Prune(e, side)) != []
    ensures Judge(text, names, values, m) == if Solid(Prune(e, side)) then Some(EvalOption(Prune(e, side), m)) else None
  {
    JudgePart(e, side, text, names, values, m);
  }

  lemma JudgeWhole(e: Expr, text: Option<Aliased>, names: map<string, string>, values: map<string, Value>, m: Meaning)
    requires Arity(e, 2) && Guarded(e) && DecodesTo(text, names, values, Print(e))
    ensures Judge(text, names, values, m) == Some(Eval(e, m))
  {
    ArityWeaken(e);
    ReadBack(e);
    ArityPrintable(e);
    PrintNotEmpty(e);
  }

  lemma JudgeKey(r: ReadRequest, e: Expr, key: Side, m: Meaning)
    requires Arity(e, 2) && Guarded(e) && r.keyCondition.Some?
    requires DecodesTo(r.keyCondition, r.names, r.values, PrintOption(Prune(e, key)))
    ensures Judge(r.keyCondition, r.names, r.values, m) ==
            if Prune(e, key).Some? && Solid(Prune(e, key)) then Some(EvalOption(Prune(e, key), m)) else None
  {
    if Prune(e, key).Some? {
      JudgePart(e, key, r.keyCondition, r.names, r.values, m);
    } else {
      assert Read([]).None?;
    }
  }

  lemma KeyTextLegal(r: ReadRequest, e: Expr, plan: QueryKeyPlan)
    requires Arity(e, 2) && Guarded(e) && ReadsFor(r, Some(e), Some(plan))
    ensures KeyConditionAccepted(r) <==> KeyReady(e, plan.pk, plan.sk)
  {
    hide KeyReady, SafeOcc, KeyLegal;
    KeyPartLegal(e, plan.pk, plan.sk);
    var part := Prune(e, KeyCondition(plan.pk, plan.sk));
    assert KeyText(Some(e), Some(plan)) == PrintOption(part);
    if part.None? {
      assert Read([]).None?;
    }
  }

  // ---- exactly when, and what for -------------------------------------------

  // The service accepts a planned Query exactly when the clause is ready for it, and
  // a Scan always.
  lemma AcceptedExactly(r: ReadRequest, where: Option<Expr>, plan: Option<QueryKeyPlan>)
    requires ReadsFor(r, where, plan) && Fit(where)
    ensures Accepted(r) <==> (plan.Some? ==> QueryReady(where.value, plan.value))
  {
    hide Judge, KeyReady, SafeOcc, KeyConditionAccepted;
    var yes: Meaning := p => true;
    if where.None? {
      JudgeReadText(r.filter, r.names, r.values, [], yes);
      NoKeyCondition(r);
    } else if plan.None? {
      JudgeWhole(where.value, r.filter, r.names, r.values, yes);
      NoKeyCondition(r);
    } else {
      var filter := Filter(plan.value.pk, plan.value.sk);
      KeyTextLegal(r, where.value, plan.value);
      JudgeSide(where.value, filter, r.filter, r.names, r.values, yes);
      ArityWeaken(where.value);
      SolidExactly(where.value, filter);
    }
  }

  lemma NoKeyCondition(r: ReadRequest)
    requires r.keyCondition.None?
    ensures KeyConditionAccepted(r) && forall m: Meaning :: Judge(r.keyCondition, r.names, r.values, m) == Some(true)
  {
  }

  // An accepted read selects exactly what the clause says, whatever its predicates
  // mean: where the two texts of a Query would say something else, a NOT got into
  // the key condition and the service rejects it.
  lemma AcceptedMeans(r: ReadRequest, where: Option<Expr>, plan: Option<QueryKeyPlan>, m: Meaning)
    requires ReadsFor(r, where, plan) && Fit(where) && Accepted(r)
    ensures Selects(r, m) <==> (where.Some? ==> Eval(where.value, m))
  {
    AcceptedExactly(r, where, plan);
    hide Judge, SafeOcc;
    if where.None? {
      JudgeReadText(r.filter, r.names, r.values, [], m);
      NoKeyCondition(r);
    } else if plan.None? {
      JudgeWhole(where.value, r.filter, r.names, r.values, m);
      NoKeyCondition(r);
    } else {
      var e := where.value;
      var key, filter := KeyCondition(plan.value.pk, plan.value.sk), Filter(plan.value.pk, plan.value.sk);
      JudgeKey(r, e, key, m);
      JudgeSide(e, filter, r.filter, r.names, r.values, m);
      ArityWeaken(e);
      SolidExactly(e, key);
      SolidExactly(e, filter);
      PrunedIffTouched(e, key);
      SafeIsComplementary(e, plan.value.pk, plan.value.sk);
      AvoidingIsOneSided(e, key, filter);
      SplitMeaning(e, key, filter, m);
    }
  }

  // A planned Query is accepted and selects what the clause says, whatever the
  // predicates mean, exactly when the clause is ready.
  lemma QueryTextsExact(r: ReadRequest, e: Expr, plan: QueryKeyPlan)
    requires Arity(e, 2) && Guarded(e) && ReadsFor(r, Some(e), Some(plan))
    ensures Accepted(r) && (forall m: Meaning :: Selects(r, m) == Eval(e, m)) <==> QueryReady(e, plan)
  {
    hide Selects, Accepted, QueryReady, SafeOcc;
    AcceptedExactly(r, Some(e), Some(plan));
    if Accepted(r) {
      forall m: Meaning ensures Selects(r, m) == Eval(e, m) {
        AcceptedMeans(r, Some(e), Some(plan), m);
      }
    }
  }
}

// Where the code falls short, on the smallest clauses: each as the parser builds it.

module Shortfalls {
  import opened Values
  import opened Expressions
  import opened Splitting
  import opened Reader
  import opened Access
  import opened SingleItem
  import opened Enforcing
  import opened Clauses
  import opened Symbols
  import opened Updates
  import opened Requests
  import opened Planner
  import opened Service
  import opened Reads
  import opened BulkWrites
  import opened BulkExactness
  import opened Explains
  import opened Executors
  import opened Statements
  import opened SelectRuns
  import KeyConditionParser
  import MemoryClients

  function Compare(name: string, op: CompareOp, v: Value): Clause {
    Element(Comparison(name, op, v))
  }

  function Is(name: string, v: Value): Clause {
    Compare(name, Eq, v)
  }

  lemma LeafOccs(e: Expr)
    requires e.Leaf?
    ensures Occs(e, true) == [Occ(e.pred, e.negated, true)]
  {
  }

  lemma TwoOccs(a: Expr, b: Expr)
    ensures OccsOf([a, b], true) == Occs(a, true) + Occs(b, true)
  {
    assert [a, b][1..] == [b] && [b][1..] == [] && OccsOf([b], true) == Occs(b, true) + OccsOf([], true);
  }

  lemma ThreeOccs(a: Expr, b: Expr, c: Expr)
    ensures OccsOf([a, b, c], true) == Occs(a, true) + Occs(b, true) + Occs(c, true)
  {
    assert [a, b, c][1..] == [b, c];
    TwoOccs(b, c);
  }

  // What holds of a conjunction of two, in terms of the two.
  lemma PairShape(negated: bool, parens: bool, a: Expr, b: Expr)
    ensures var e := And(negated, parens, [a, b]);
            && (Arity(a, 2) && Arity(b, 2) ==> Arity(e, 2))
            && (Guarded(a) && Guarded(b) && !a.Or? && !b.Or? ==> Guarded(e))
            && Preds(e) == Preds(a) + Preds(b)
            && (Linear(a) && Linear(b) && Preds(a) !! Preds(b) ==> Linear(e))
  {
    assert forall k :: k in [a, b] <==> k == a || k == b;
  }

  lemma PairTouches(negated: bool, parens: bool, a: Expr, b: Expr, s: Side)
    ensures var e := And(negated, parens, [a, b]);
            && (Touches(e, s) <==> Touches(a, s) || Touches(b, s))
            && (NegationsAvoid(e, s) <==> NegationsAvoid(a, s) && NegationsAvoid(b, s) && (negated ==> !Touches(e, s)))
            && (GroupsTouch(e, s) <==> GroupsTouch(a, s) && GroupsTouch(b, s) && (parens ==> Touches(e, s)))
  {
    assert forall k :: k in [a, b] <==> k == a || k == b;
    assert a in [a, b] && b in [a, b];
  }

  lemma PairCut(negated: bool, parens: bool, a: Expr, b: Expr, s: Side, t: Side)
    ensures var e := And(negated, parens, [a, b]);
            NegationsOneSided(e, s, t) <==>
              NegationsOneSided(a, s, t) && NegationsOneSided(b, s, t)
                && (negated ==> !(Touches(e, s) && Touches(e, t)))
  {
    hide Touches;
    assert forall k :: k in [a, b] <==> k == a || k == b;
    assert a in [a, b] && b in [a, b];
  }

  // ---- planned as a Query, and rejected -------------------------------------

  // The service rejects the Query a clause is planned as.
  ghost predicate PlannedAndRejected(e: Expr, pk: seq<string>, rk: seq<string>) {
    && PlanOf(Some(e), pk, rk).Some?
    && forall table, paths, prefix | CleanPrefix(prefix) ::
         !Accepted(ReadRequestOf(table, None, false, NoCapacity, paths, Some(e), PlanOf(Some(e), pk, rk), prefix))
  }

  lemma Unready(e: Expr, pk: seq<string>, rk: seq<string>, n: nat)
    requires Arity(e, 2) && Guarded(e) && QueryRule(Occs(e, true), pk, rk, n)
             && !QueryReady(e, QueryKeyPlan(pk, rk[..n]))
    ensures PlannedAndRejected(e, pk, rk)
  {
    hide Arity, Guarded, QueryReady, Accepted;
    PlannedIs(Occs(e, true), pk, rk, n);
    forall table, paths, prefix | CleanPrefix(prefix)
      ensures !Accepted(ReadRequestOf(table, None, false, NoCapacity, paths, Some(e), PlanOf(Some(e), pk, rk), prefix))
    {
      var r := ReadRequestOf(table, None, false, NoCapacity, paths, Some(e), PlanOf(Some(e), pk, rk), prefix);
      PlannedReads(table, None, false, NoCapacity, paths, Some(e), pk, rk, prefix);
      AcceptedExactly(r, Some(e), PlanOf(Some(e), pk, rk));
    }
  }

  // One equality on the partition key, first, and some legal mention of the sort key.
  lemma PlannedOn(os: seq<Occ>, p: string, s: string, i: nat)
    requires p != s && 0 < i < |os| && IsGud(os[0]) && os[0].pred.lhs == p && os[i].pred.lhs == s
    requires forall j | 0 < j < |os| :: os[j].pred.lhs != p
    requires forall o | o in os :: SafeOcc(o, [p], [s])
    ensures QueryRule(os, [p], [s], 1)
  {
    assert [s][..1] == [s] && os[i] in os;
    assert OnceByEquality(os, p);
    assert Mentioned(os, s);
  }

  // `p = a AND s <> b`: `<>` is taken for legal on a sort key.
  lemma UnequalSortKey(p: string, s: string, a: Value, b: Value)
    requires p != s
    ensures PlannedAndRejected(Build(AndClause(Is(p, a), Compare(s, Ne, b))), [p], [s])
  {
    var x, y := Leaf(false, false, Comparison(p, Eq, a)), Leaf(false, false, Comparison(s, Ne, b));
    TwoLeavesRejected(x, y, p, s);
    assert Build(Is(p, a)) == x && Build(Compare(s, Ne, b)) == y;
  }

  // The in-memory client, which takes this Query, finds nothing by it in any table,
  // whatever the order of values, though it should find any item with the partition key
  // whose sort key is another than b.
  lemma UnequalFindsNothing(p: string, s: string, a: Value, b: Value, prefix: string)
    requires p != s && KeyConditionParser.SimpleName(p) && KeyConditionParser.SimpleName(s)
    requires CleanPrefix(prefix) && forall c | c in prefix :: !KeyConditionParser.Separator(c)
    ensures var e := Build(AndClause(Is(p, a), Compare(s, Ne, b)));
            var plan := PlanOf(Some(e), [p], [s]);
            && plan.Some?
            && var r := ReadRequestOf("t", None, false, NoCapacity, [], Some(e), plan, prefix);
            && r.keyCondition.Some?
            && (forall order: (Value, Value) -> int, rows: seq<MemoryClients.Row> ::
                MemoryClients.FoundBy(order, rows, r) == [])
            && forall order: (Value, Value) -> int, d: Value | order(a, a) == 0 && order(d, b) != 0 ::
                 var table := [[(p, a), (s, d)]];
                 MemoryClients.Chosen(order, table, MemoryClients.KeyTests(e, plan.value)) == table
  {
    var x, y := Leaf(false, false, Comparison(p, Eq, a)), Leaf(false, false, Comparison(s, Ne, b));
    assert Build(Is(p, a)) == x && Build(Compare(s, Ne, b)) == y;
    var e := And(false, false, [x, y]);
    assert Build(AndClause(Is(p, a), Compare(s, Ne, b))) == e;
    UnequalPlanned(x, y, p, s, prefix);
    var tests := MemoryClients.KeyTests(e, QueryKeyPlan([p], [s]));
    MemoryClients.KeyConditionThere(e, [p], [s], "t", None, false, NoCapacity, [], prefix);
    forall order: (Value, Value) -> int, rows: seq<MemoryClients.Row>
      ensures var plan := PlanOf(Some(e), [p], [s]);
              var r := ReadRequestOf("t", None, false, NoCapacity, [], Some(e), plan, prefix);
              MemoryClients.FoundBy(order, rows, r) == []
    {
      MemoryClients.PlannedQueryFinds(order, rows, e, [p], [s], "t", None, false, NoCapacity, [], prefix);
    }
    forall order: (Value, Value) -> int, d: Value | order(a, a) == 0 && order(d, b) != 0
      ensures MemoryClients.Chosen(order, [[(p, a), (s, d)]], tests) == [[(p, a), (s, d)]]
    {
      RowChosen(order, p, s, a, b, d, tests);
    }
  }

  lemma RowChosen(order: (Value, Value) -> int, p: string, s: string, a: Value, b: Value, d: Value, tests: seq<Occ>)
    requires p != s && order(a, a) == 0 && order(d, b) != 0
    requires tests == [Occ(Comparison(p, Eq, a), false, true), Occ(Comparison(s, Ne, b), false, true)]
    ensures MemoryClients.Chosen(order, [[(p, a), (s, d)]], tests) == [[(p, a), (s, d)]]
  {
    var row := [(p, a), (s, d)];
    assert row[1..] == [(s, d)];
    assert MemoryClients.ItemValue(row, p) == Some(a);
    assert MemoryClients.ItemValue(row[1..], s) == Some(d) && MemoryClients.ItemValue(row, s) == Some(d);
    assert forall o | o in tests :: MemoryClients.PredPasses(order, row, o.pred);
    assert [row][1..] == [] && MemoryClients.Chosen(order, [], tests) == [];
  }

  lemma UnequalPlanned(x: Expr, y: Expr, p: string, s: string, prefix: string)
    requires p != s && KeyConditionParser.SimpleName(p) && KeyConditionParser.SimpleName(s)
    requires x.Leaf? && !x.negated && x.pred.Comparison? && x.pred.op == Eq && x.pred.lhs == p
    requires y.Leaf? && !y.negated && y.pred.Comparison? && y.pred.op == Ne && y.pred.lhs == s
    requires CleanPrefix(prefix) && forall c | c in prefix :: !KeyConditionParser.Separator(c)
    ensures var e := And(false, false, [x, y]);
            && PlanOf(Some(e), [p], [s]) == Some(QueryKeyPlan([p], [s]))
            && MemoryClients.PlannedHere(e, [p], [s], prefix)
            && var tests := MemoryClients.KeyTests(e, QueryKeyPlan([p], [s]));
            MemoryClients.HasUnequal(tests) && tests == [Occ(x.pred, false, true), Occ(y.pred, false, true)]
  {
    var e := And(false, false, [x, y]);
    LeafOccs(x);
    LeafOccs(y);
    TwoOccs(x, y);
    var os := Occs(e, true);
    assert os == [Occ(x.pred, false, true), Occ(y.pred, false, true)];
    PlannedOn(os, p, s, 1);
    PlannedIs(os, [p], [s], 1);
    assert [s][..1] == [s];
    PairTouches(false, false, x, y, KeyCondition([p], [s]));
    assert os[1..] == [Occ(y.pred, false, true)] && os[1..][1..] == [];
    assert Mentioning(os[1..], [p], [s], true) == os[1..];
    assert Mentioning(os, [p], [s], true) == os;
    assert os[1] in os && MemoryClients.Unequal(os[1].pred);
  }

  // `p = a AND NOT s < b`: so is a NOT around any comparison but `=`.
  lemma NegatedSortKey(p: string, s: string, a: Value, b: Value)
    requires p != s
    ensures PlannedAndRejected(Build(AndClause(Is(p, a), NotClause(Compare(s, Lt, b)))), [p], [s])
  {
    var x, y := Leaf(false, false, Comparison(p, Eq, a)), Leaf(true, false, Comparison(s, Lt, b));
    TwoLeavesRejected(x, y, p, s);
    assert Build(Is(p, a)) == x && Build(Compare(s, Lt, b)) == Leaf(false, false, Comparison(s, Lt, b));
    assert Build(NotClause(Compare(s, Lt, b))) == y;
  }

  lemma TwoLeavesRejected(x: Expr, y: Expr, p: string, s: string)
    requires x.Leaf? && y.Leaf? && !x.negated && x.pred.Comparison? && x.pred.op == Eq && x.pred.lhs == p && p != s
    requires y.pred.Comparison? && y.pred.lhs == s && y.pred.op != Eq && (y.negated || y.pred.op == Ne)
    ensures PlannedAndRejected(And(false, false, [x, y]), [p], [s])
  {
    var e := And(false, false, [x, y]);
    LeafOccs(x);
    LeafOccs(y);
    TwoOccs(x, y);
    var os := Occs(e, true);
    assert os == [Occ(x.pred, false, true), Occ(y.pred, y.negated, true)];
    PlannedOn(os, p, s, 1);
    assert os[1] in os && [s][..1] == [s];
    Unready(e, [p], [s], 1);
  }

  // `p = a AND s > b AND s < c`: a sort key may be tested any number of times.
  lemma SortKeyTwice(p: string, s: string, a: Value, b: Value, c: Value)
    requires p != s
    ensures PlannedAndRejected(Build(AndClause(AndClause(Is(p, a), Compare(s, Gt, b)), Compare(s, Lt, c))), [p], [s])
  {
    var x, y := Leaf(false, false, Comparison(p, Eq, a)), Leaf(false, false, Comparison(s, Gt, b));
    var z := Leaf(false, false, Comparison(s, Lt, c));
    assert Build(Is(p, a)) == x && Build(Compare(s, Gt, b)) == y && Build(Compare(s, Lt, c)) == z;
    assert Build(AndClause(Is(p, a), Compare(s, Gt, b))) == And(false, false, [x, y]);
    assert [x, y] + [z] == [x, y, z];
    TwoTestsRejected(x, y, z, p, s);
  }

  lemma TwoTestsRejected(x: Expr, y: Expr, z: Expr, p: string, s: string)
    requires x.Leaf? && !x.negated && x.pred.Comparison? && x.pred.op == Eq && x.pred.lhs == p && p != s
    requires y.Leaf? && y.pred.Comparison? && y.pred.lhs == s && !y.negated
    requires z.Leaf? && z.pred.Comparison? && z.pred.lhs == s && !z.negated
    ensures PlannedAndRejected(And(false, false, [x, y, z]), [p], [s])
  {
    var e := And(false, false, [x, y, z]);
    ThreeLeaves(x, y, z);
    var os := Occs(e, true);
    PlannedOn(os, p, s, 1);
    CountTwice(os, 1, 2);
    hide Occs, QueryRule, SafeOcc, CountLhs, GroupsTouch, Touches, NegationsAvoid, Arity, Guarded;
    assert s in [p] + [s] && [s][..1] == [s];
    Unready(e, [p], [s], 1);
  }

  lemma ThreeLeaves(x: Expr, y: Expr, z: Expr)
    requires x.Leaf? && x.pred.Comparison? && y.Leaf? && y.pred.Comparison? && z.Leaf? && z.pred.Comparison?
    ensures var e := And(false, false, [x, y, z]);
            && Arity(e, 2) && Guarded(e)
            && Occs(e, true) ==
               [Occ(x.pred, x.negated, true), Occ(y.pred, y.negated, true), Occ(z.pred, z.negated, true)]
  {
    LeafOccs(x);
    LeafOccs(y);
    LeafOccs(z);
    ThreeOccs(x, y, z);
    var e := And(false, false, [x, y, z]);
    assert forall k | k in e.kids :: k.Leaf? && Guarded(k) && !BareOr(k);
  }

  // `p = a AND NOT (s = b AND v = c)`: the NOT is cut in two. The texts mean something
  // else than the clause, and the service rejects the one with the key.
  lemma CutNegation(p: string, s: string, v: string, a: Value, b: Value, c: Value)
    requires p != s && p != v && s != v
    ensures var e := Build(AndClause(Is(p, a), NotClause(ParenClause(AndClause(Is(s, b), Is(v, c))))));
            && PlannedAndRejected(e, [p], [s])
            && exists m: Meaning :: Eval(e, m) != BothParts(e, KeyCondition([p], [s]), Filter([p], [s]), m)
  {
    var x, y := Leaf(false, false, Comparison(p, Eq, a)), Leaf(false, false, Comparison(s, Eq, b));
    var z := Leaf(false, false, Comparison(v, Eq, c));
    assert Build(Is(p, a)) == x && Build(Is(s, b)) == y && Build(Is(v, c)) == z;
    assert Build(AndClause(Is(s, b), Is(v, c))) == And(false, false, [y, z]);
    assert Build(ParenClause(AndClause(Is(s, b), Is(v, c)))) == And(false, true, [y, z]);
    assert Build(NotClause(ParenClause(AndClause(Is(s, b), Is(v, c))))) == And(true, true, [y, z]);
    CutRejected(x, y, z, p, s);
  }

  lemma CutRejected(x: Expr, y: Expr, z: Expr, p: string, s: string)
    requires x.Leaf? && !x.negated && x.pred.Comparison? && x.pred.op == Eq && x.pred.lhs == p && p != s
    requires y.Leaf? && y.pred.Comparison? && y.pred.lhs == s && !y.negated
    requires z.Leaf? && z.pred.Comparison? && z.pred.lhs != p && z.pred.lhs != s
    ensures var e := And(false, false, [x, And(true, true, [y, z])]);
            && PlannedAndRejected(e, [p], [s])
            && exists m: Meaning :: Eval(e, m) != BothParts(e, KeyCondition([p], [s]), Filter([p], [s]), m)
  {
    var e := And(false, false, [x, And(true, true, [y, z])]);
    CutPlanned(x, y, z, p, s);
    CutShape(x, y, z);
    CutTouches(x, y, z, p, s);
    hide Occs, QueryRule, SafeOcc, NegationsAvoid, NegationsOneSided, Linear, Arity, Guarded;
    SafeIsComplementary(e, [p], [s]);
    assert [s][..1] == [s];
    Unready(e, [p], [s], 1);
    var m := Distinguish(e, KeyCondition([p], [s]), Filter([p], [s]));
  }

  lemma CutShape(x: Expr, y: Expr, z: Expr)
    requires x.Leaf? && x.pred.Comparison? && y.Leaf? && y.pred.Comparison? && z.Leaf? && z.pred.Comparison?
    requires x.pred.lhs != y.pred.lhs && x.pred.lhs != z.pred.lhs && y.pred.lhs != z.pred.lhs
    ensures var e := And(false, false, [x, And(true, true, [y, z])]);
            Arity(e, 2) && Guarded(e) && Linear(e)
  {
    PairShape(true, true, y, z);
    PairShape(false, false, x, And(true, true, [y, z]));
    hide Linear, Arity, Guarded, Preds;
    LeafShape(x);
    LeafShape(y);
    LeafShape(z);
  }

  lemma CutTouches(x: Expr, y: Expr, z: Expr, p: string, s: string)
    requires y.Leaf? && y.pred.Comparison? && y.pred.lhs == s
    requires z.Leaf? && z.pred.Comparison? && z.pred.lhs != p && z.pred.lhs != s
    ensures var e := And(false, false, [x, And(true, true, [y, z])]);
            && !NegationsAvoid(e, KeyCondition([p], [s]))
            && !NegationsOneSided(e, KeyCondition([p], [s]), Filter([p], [s]))
  {
    var key, filter := KeyCondition([p], [s]), Filter([p], [s]);
    CutSides(y, z, p, s);
    PairTouches(true, true, y, z, key);
    PairTouches(true, true, y, z, filter);
    PairTouches(false, false, x, And(true, true, [y, z]), key);
    PairCut(true, true, y, z, key, filter);
    PairCut(false, false, x, And(true, true, [y, z]), key, filter);
  }

  lemma LeafShape(x: Expr)
    requires x.Leaf? && x.pred.Comparison?
    ensures Arity(x, 2) && Guarded(x) && Linear(x) && Preds(x) == {x.pred}
  {
  }

  lemma CutSides(y: Expr, z: Expr, p: string, s: string)
    requires y.Leaf? && y.pred.Comparison? && y.pred.lhs == s
    requires z.Leaf? && z.pred.Comparison? && z.pred.lhs != p && z.pred.lhs != s
    ensures Touches(y, KeyCondition([p], [s])) && Touches(z, Filter([p], [s]))
  {
  }

  lemma CutPlanned(x: Expr, y: Expr, z: Expr, p: string, s: string)
    requires x.Leaf? && !x.negated && x.pred.Comparison? && x.pred.op == Eq && x.pred.lhs == p && p != s
    requires y.Leaf? && y.pred.Comparison? && y.pred.lhs == s && !y.negated
    requires z.Leaf? && z.pred.Comparison? && z.pred.lhs != p && z.pred.lhs != s
    ensures var e := And(false, false, [x, And(true, true, [y, z])]);
            QueryRule(Occs(e, true), [p], [s], 1) && forall o | o in Occs(e, true) :: SafeOcc(o, [p], [s])
  {
    var n := And(true, true, [y, z]);
    LeafOccs(x);
    LeafOccs(y);
    LeafOccs(z);
    TwoOccs(y, z);
    TwoOccs(x, n);
    var os := Occs(And(false, false, [x, n]), true);
    assert os == [Occ(x.pred, false, true), Occ(y.pred, false, true), Occ(z.pred, z.negated, true)];
    PlannedOn(os, p, s, 1);
  }

  // ---- reading one item -----------------------------------------------------

  // `SELECT ... WHERE NOT (p = a AND s = b)`: a GetItem, for exactly the item that the
  // clause excludes.
  lemma NegatedGetItem(p: string, s: string, a: Value, b: Value, sem: Semantics, item: Item)
    requires p != s && EqualityOn(sem, {p, s})
    ensures var e := Build(NotClause(ParenClause(AndClause(Is(p, a), Is(s, b)))));
            && SingleItem.CanGetItem(Occs(e, true), [p], [s])
            && GudKey(Occs(e, true), p, s) == map[p := a, s := b]
            && (Wanted(Some(e), sem, item) <==> !KeyMatches(map[p := a, s := b], item))
  {
    var x, y := Leaf(false, false, Comparison(p, Eq, a)), Leaf(false, false, Comparison(s, Eq, b));
    assert Build(Is(p, a)) == x && Build(Is(s, b)) == y;
    assert Build(AndClause(Is(p, a), Is(s, b))) == And(false, false, [x, y]);
    assert Build(ParenClause(AndClause(Is(p, a), Is(s, b)))) == And(false, true, [x, y]);
    var e := And(true, true, [x, y]);
    PairShape(true, true, x, y);
    GetPair(x, y, p, s);
    GetItemMeaning(e, [p], [s], sem, item);
  }

  lemma GetPair(x: Expr, y: Expr, p: string, s: string)
    requires p != s && x.Leaf? && !x.negated && y.Leaf? && !y.negated
    requires x.pred.Comparison? && x.pred.op == Eq && x.pred.lhs == p
             && y.pred.Comparison? && y.pred.op == Eq && y.pred.lhs == s
    ensures SingleItem.CanGetItem(OccsOf([x, y], true), [p], [s])
    ensures GudKey(OccsOf([x, y], true), p, s) == map[p := x.pred.rhs, s := y.pred.rhs]
  {
    KeyPair(x, y, p, s);
    TwoOccs(x, y);
    LeafOccs(x);
    LeafOccs(y);
    var ox, oy := Occ(x.pred, false, true), Occ(y.pred, false, true);
    assert OccsOf([x, y], true) == [ox, oy] && [ox, oy][1..] == [oy] && [oy][1..] == [];
    assert GudKey([oy], p, s) == map[s := y.pred.rhs];
  }

  // ---- single writes --------------------------------------------------------

  // `DELETE ... WHERE (p = a AND s = b)`: the condition is `()`, and is rejected.
  lemma GroupedKey(p: string, s: string, a: Value, b: Value)
    requires p != s
    ensures var e := Build(ParenClause(AndClause(Is(p, a), Is(s, b))));
            && SingleItem.CanUpdateItem(Occs(e, true), [p], [s])
            && ConditionText(false, Some(e), p, s) == [Word("("), Word(")")]
            && !ConditionReady(Some(e), p, s)
  {
    var x, y := Leaf(false, false, Comparison(p, Eq, a)), Leaf(false, false, Comparison(s, Eq, b));
    assert Build(Is(p, a)) == x && Build(Is(s, b)) == y;
    assert Build(AndClause(Is(p, a), Is(s, b))) == And(false, false, [x, y]);
    KeyPair(x, y, p, s);
    PairTouches(false, true, x, y, Residual(p, s));
    PruneNone(x, y, Residual(p, s));
    var none := And(false, true, []);
    assert Prune(And(false, true, [x, y]), Residual(p, s)) == Some(none);
    assert Print(none) == [Word("(")] + [] + [Word(")")];
  }

  lemma KeyPair(x: Expr, y: Expr, p: string, s: string)
    requires p != s && x.Leaf? && !x.negated && y.Leaf? && !y.negated
    requires x.pred.Comparison? && x.pred.op == Eq && x.pred.lhs == p
             && y.pred.Comparison? && y.pred.op == Eq && y.pred.lhs == s
    ensures SingleItem.CanUpdateItem(OccsOf([x, y], true), [p], [s])
  {
    TwoOccs(x, y);
    var ox, oy := Occ(x.pred, false, true), Occ(y.pred, false, true);
    assert Occs(x, true) == [ox] && Occs(y, true) == [oy] && [ox] + [oy] == [ox, oy];
    OneGud(ox, [oy], p);
    OneGud(ox, [oy], s);
  }

  lemma OneGud(o: Occ, rest: seq<Occ>, name: string)
    ensures CountGud([o] + rest, name) == (if o.pred.lhs == name && IsGud(o) then 1 else 0) + CountGud(rest, name)
    ensures |rest| == 1 ==> CountGud(rest, name) == if rest[0].pred.lhs == name && IsGud(rest[0]) then 1 else 0
  {
    assert ([o] + rest)[1..] == rest;
    if |rest| == 1 {
      assert rest[1..] == [];
    }
  }

  lemma PruneNone(x: Expr, y: Expr, side: Side)
    requires x.Leaf? && y.Leaf? && !Touches(x, side) && !Touches(y, side)
    ensures PruneAll([x, y], side) == []
  {
    assert [x, y][1..] == [y] && [y][1..] == [];
    assert PruneAll([y], side) == OptionSeq(Prune(y, side)) + PruneAll([], side);
  }

  // `p = a AND s = b AND s > c`: the range on the key is checked nowhere. The write
  // goes to the item with that key though the clause does not hold of it.
  lemma DroppedRangeWrites(p: string, s: string, a: Value, b: Value, c: Value, sem: Semantics)
    requires p != s && EqualityOn(sem, {p, s}) && !sem(Comparison(s, Gt, c), Some(b))
    ensures var e := Build(AndClause(AndClause(Is(p, a), Is(s, b)), Compare(s, Gt, c)));
            var item := map[p := a, s := b];
            && SingleItem.CanUpdateItem(Occs(e, true), [p], [s])
            && GudKey(Occs(e, true), p, s) == map[p := a, s := b]
            && ConditionText(false, Some(e), p, s) == []
            && Passes(Some(e), p, s, sem, item) && !Wanted(Some(e), sem, item)
  {
    var x, y := Leaf(false, false, Comparison(p, Eq, a)), Leaf(false, false, Comparison(s, Eq, b));
    var z := Leaf(false, false, Comparison(s, Gt, c));
    assert Build(Is(p, a)) == x && Build(Is(s, b)) == y && Build(Compare(s, Gt, c)) == z;
    assert Build(AndClause(Is(p, a), Is(s, b))) == And(false, false, [x, y]);
    assert [x, y] + [z] == [x, y, z];
    RangeDropped(x, y, z, p, s);
    var item := map[p := a, s := b];
    assert Lookup(item, s) == Some(b);
    RangeFalse(x, y, z, ItemMeaning(sem, item));
  }

  lemma RangeFalse(x: Expr, y: Expr, z: Expr, m: Meaning)
    requires z.Leaf? && !z.negated && !m(z.pred)
    ensures !Eval(And(false, false, [x, y, z]), m)
  {
    assert z in [x, y, z] && !Eval(z, m);
  }

  lemma RangeDropped(x: Expr, y: Expr, z: Expr, p: string, s: string)
    requires p != s && x.Leaf? && !x.negated && y.Leaf? && !y.negated && z.Leaf? && !z.negated
    requires x.pred.Comparison? && x.pred.op == Eq && x.pred.lhs == p
             && y.pred.Comparison? && y.pred.op == Eq && y.pred.lhs == s
    requires z.pred.Comparison? && z.pred.op == Gt && z.pred.lhs == s
    ensures var e := And(false, false, [x, y, z]);
            && SingleItem.CanUpdateItem(Occs(e, true), [p], [s])
            && GudKey(Occs(e, true), p, s) == map[p := x.pred.rhs, s := y.pred.rhs]
            && Prune(e, Residual(p, s)).None?
  {
    ThreeOccs(x, y, z);
    LeafOccs(x);
    LeafOccs(y);
    LeafOccs(z);
    KeyOfThree(Occ(x.pred, false, true), Occ(y.pred, false, true), Occ(z.pred, false, true), p, s);
    PruneNone(y, z, Residual(p, s));
    assert [x, y, z][1..] == [y, z];
    assert PruneAll([x, y, z], Residual(p, s)) ==
           OptionSeq(Prune(x, Residual(p, s))) + PruneAll([y, z], Residual(p, s));
  }

  lemma KeyOfThree(ox: Occ, oy: Occ, oz: Occ, p: string, s: string)
    requires p != s && IsGud(ox) && IsGud(oy) && !IsGud(oz) && ox.pred.lhs == p && oy.pred.lhs == s
    ensures CountGud([ox] + [oy] + [oz], p) == 1 && CountGud([ox] + [oy] + [oz], s) == 1
    ensures GudKey([ox] + [oy] + [oz], p, s) == map[p := ox.pred.rhs, s := oy.pred.rhs]
  {
    var os := [ox] + [oy] + [oz];
    assert os[1..] == [oy] + [oz] && ([oy] + [oz])[1..] == [oz] && [oz][1..] == [];
    assert GudKey([oz], p, s) == map[];
    OneGud(oy, [oz], p);
    OneGud(oy, [oz], p);
    OneGud(oy, [oz], s);
    OneGud(ox, [oy] + [oz], p);
    OneGud(ox, [oy] + [oz], s);
    assert os == [ox] + ([oy] + [oz]);
    assert GudKey([oy] + [oz], p, s) == map[s := oy.pred.rhs];
  }

  // ---- bulk writes ----------------------------------------------------------

  // `NOT (s = b AND v = c)`: cut once, the write is safe, but items the clause wants
  // because of their key are read and then left alone.
  lemma CutMissesItems(p: string, s: string, v: string, a: Value, b: Value, c: Value, other: Value, sem: Semantics)
    requires p != s && p != v && s != v && EqualityOn(sem, {s, v}) && other != b
    ensures var e := Build(NotClause(ParenClause(AndClause(Is(s, b), Is(v, c)))));
            var item := map[p := a, s := other, v := c];
            && Enforced(Some(e), p, s) && ConditionReady(Some(e), p, s) && !Kept(Some(e), p, s)
            && Wanted(Some(e), sem, item) && !Passes(Some(e), p, s, sem, item)
  {
    var y, z := Leaf(false, false, Comparison(s, Eq, b)), Leaf(false, false, Comparison(v, Eq, c));
    assert Build(Is(s, b)) == y && Build(Is(v, c)) == z;
    assert Build(AndClause(Is(s, b), Is(v, c))) == And(false, false, [y, z]);
    assert Build(ParenClause(AndClause(Is(s, b), Is(v, c)))) == And(false, true, [y, z]);
    var e := And(true, true, [y, z]);
    var item := map[p := a, s := other, v := c];
    var m := ItemMeaning(sem, item);
    assert Lookup(item, s) == Some(other) && Lookup(item, v) == Some(c);
    assert s in {s, v} && v in {s, v};
    CutMisses(y, z, p, s, m);
  }

  lemma CutMisses(y: Expr, z: Expr, p: string, s: string, m: Meaning)
    requires y.Leaf? && !y.negated && y.pred.Comparison? && y.pred.lhs == s && !m(y.pred)
    requires z.Leaf? && !z.negated && z.pred.Comparison? && z.pred.lhs != p && z.pred.lhs != s && m(z.pred)
    ensures var e := And(true, true, [y, z]);
            && !Slips(e, Residual(p, s), true, {p, s, ""}) && GroupsTouch(e, Residual(p, s))
            && !Keepsake(e, Residual(p, s), true)
            && Eval(e, m) && !EvalOption(Prune(e, Residual(p, s)), m)
  {
    var e := And(true, true, [y, z]);
    PairTouches(true, true, y, z, Residual(p, s));
    PairTouches(true, true, y, z, Carried(p, s));
    assert forall k :: k in [y, z] <==> k == y || k == z;
    assert y in e.kids && !Eval(y, m);
    PruneSecond(y, z, Residual(p, s));
    var kept := And(true, true, [z]);
    assert Prune(e, Residual(p, s)) == Some(kept);
    assert forall k | k in kept.kids :: k == z;
    assert Eval(z, m) && !Eval(kept, m);
  }

  lemma PruneSecond(y: Expr, z: Expr, side: Side)
    requires y.Leaf? && z.Leaf? && !Touches(y, side) && Touches(z, side)
    ensures PruneAll([y, z], side) == [z]
  {
    assert [y, z][1..] == [z] && [z][1..] == [];
    assert PruneAll([z], side) == OptionSeq(Prune(z, side)) + PruneAll([], side);
  }

  // `NOT (x = u AND NOT (s > b AND y = w))`: cut twice, the write is exact when left
  // alone, but not safe. An item the clause was seen to want does not vouch for what it
  // becomes.
  lemma CutTwiceIsUnsafe(p: string, s: string, x: string, y: string, a: Value, b: Value, d: Value, u: Value, w: Value,
                         other: Value, sem: Semantics)
    requires p != s && x != y && x !in {p, s, ""} && y !in {p, s} && other != u
    requires EqualityOn(sem, {x, y}) && !sem(Comparison(s, Gt, b), Some(d))
    ensures var inner := NotClause(ParenClause(AndClause(Compare(s, Gt, b), Is(y, w))));
            var e := Build(NotClause(ParenClause(AndClause(Is(x, u), inner))));
            var seen, item := map[p := a, s := d, x := other], map[p := a, s := d, x := u, y := w];
            && Kept(Some(e), p, s) && !Enforced(Some(e), p, s) && Wanted(Some(e), sem, seen)
            && Passes(Some(e), p, s, sem, item) && !Wanted(Some(e), sem, item)
  {
    var ex, es := Leaf(false, false, Comparison(x, Eq, u)), Leaf(false, false, Comparison(s, Gt, b));
    var ey := Leaf(false, false, Comparison(y, Eq, w));
    var inner := AndClause(Compare(s, Gt, b), Is(y, w));
    assert Build(Is(x, u)) == ex && Build(Compare(s, Gt, b)) == es && Build(Is(y, w)) == ey;
    assert Build(inner) == And(false, false, [es, ey]);
    assert Build(ParenClause(inner)) == And(false, true, [es, ey]);
    assert Build(NotClause(ParenClause(inner))) == And(true, true, [es, ey]);
    var n := And(true, true, [es, ey]);
    assert Build(AndClause(Is(x, u), NotClause(ParenClause(inner)))) == And(false, false, [ex, n]);
    assert Build(ParenClause(AndClause(Is(x, u), NotClause(ParenClause(inner))))) == And(false, true, [ex, n]);
    var seen, item := map[p := a, s := d, x := other], map[p := a, s := d, x := u, y := w];
    assert Lookup(seen, x) == Some(other) && Lookup(item, x) == Some(u) && Lookup(item, y) == Some(w)
           && Lookup(item, s) == Some(d);
    assert x in {x, y} && y in {x, y};
    CutTwice(ex, es, ey, p, s, ItemMeaning(sem, item), ItemMeaning(sem, seen));
  }

  lemma CutTwice(x: Expr, z: Expr, y: Expr, p: string, s: string, m: Meaning, n: Meaning)
    requires x.Leaf? && !x.negated && x.pred.Comparison? && x.pred.lhs !in {p, s, ""}
    requires y.Leaf? && !y.negated && y.pred.Comparison? && y.pred.lhs != p && y.pred.lhs != s
    requires z.Leaf? && !z.negated && z.pred.Comparison? && z.pred.lhs == s
    requires m(x.pred) && m(y.pred) && !m(z.pred) && !n(x.pred)
    ensures var e := And(true, true, [x, And(true, true, [z, y])]);
            && Slips(e, Residual(p, s), true, {p, s, ""}) && Keepsake(e, Residual(p, s), true)
            && Eval(e, n) && EvalOption(Prune(e, Residual(p, s)), m) && !Eval(e, m)
  {
    var inner := And(true, true, [z, y]);
    var e := And(true, true, [x, inner]);
    CutTwiceSlips(x, z, y, p, s);
    CutMisses(z, y, p, s, m);
    PruneTwice(x, z, y, p, s);
    hide Slips, Keepsake, Prune, GroupsTouch;
    assert inner in e.kids;
    var keptInner := And(true, true, [y]);
    var kept := [x, keptInner];
    assert keptInner in kept && !Eval(keptInner, m);
    assert x in e.kids && !Eval(x, n) && Eval(x, m);
    assert forall k | k in e.kids :: k == x || k == inner;
  }

  lemma PruneTwice(x: Expr, z: Expr, y: Expr, p: string, s: string)
    requires x.Leaf? && x.pred.Comparison? && x.pred.lhs !in {p, s, ""}
    requires y.Leaf? && y.pred.Comparison? && y.pred.lhs != p && y.pred.lhs != s
    requires z.Leaf? && !z.negated && z.pred.Comparison? && z.pred.lhs == s
    ensures var kept := And(true, true, [y]);
            && Prune(And(true, true, [z, y]), Residual(p, s)) == Some(kept)
            && Prune(And(true, true, [x, And(true, true, [z, y])]), Residual(p, s)) == Some(And(true, true, [x, kept]))
  {
    var inner := And(true, true, [z, y]);
    var b := Residual(p, s);
    PruneSecond(z, y, b);
    var keptInner := And(true, true, [y]);
    assert Prune(inner, b) == Some(keptInner);
    assert [x, inner][1..] == [inner] && [inner][1..] == [];
    assert PruneAll([inner], b) == OptionSeq(Prune(inner, b)) + PruneAll([], b);
    assert PruneAll([x, inner], b) == OptionSeq(Prune(x, b)) + PruneAll([inner], b);
    assert PruneAll([x, inner], b) == [x] + ([keptInner] + []) == [x, keptInner];
  }

  lemma CutTwiceSlips(x: Expr, z: Expr, y: Expr, p: string, s: string)
    requires x.Leaf? && x.pred.Comparison? && x.pred.lhs !in {p, s, ""}
    requires y.Leaf? && y.pred.Comparison? && y.pred.lhs != p && y.pred.lhs != s
    requires z.Leaf? && !z.negated && z.pred.Comparison? && z.pred.lhs == s
    ensures var e := And(true, true, [x, And(true, true, [z, y])]);
            Slips(e, Residual(p, s), true, {p, s, ""}) && Keepsake(e, Residual(p, s), true)
  {
    var inner := And(true, true, [z, y]);
    var b := Residual(p, s);
    PairTouches(true, true, z, y, b);
    PairTouches(true, true, x, inner, b);
    assert forall k :: k in [z, y] <==> k == z || k == y;
    assert forall k :: k in [x, inner] <==> k == x || k == inner;
    assert z in inner.kids && !Keepsake(z, b, false);
    assert !Keepsake(inner, b, true) && Keepsake(inner, b, false);
    assert x.pred in Preds(x) && CanVary(x, {p, s, ""});
    assert inner in [x, inner] && x in [x, inner];
  }

  // A bulk UPDATE of a row that is removed between the page and the write.
  ghost predicate RemovedInBetween(law: Law, w: World, k: Key, item: Item) {
    && law.order == [k] && w.store == map[k := item]
    && |w.turns| == 2 && w.turns[0].foreign.None? && !w.turns[0].fault
    && w.turns[1].foreign == Some(map[]) && !w.turns[1].fault
  }

  lemma CreatingRun(law: Law, w: World, read: ReadRequest, t: WriteRequest, wantReturned: bool, e: Expr,
                    plan: Option<QueryKeyPlan>, pk: string, rk: string, k: Key, item: Item)
    requires QuietRead(read, Some(e), plan, pk, rk) && IsTemplate(t, true, Some(e), pk, rk) && read.startKey.None?
    requires t.update.Some? && UpdateTaken(t) && ExistsIsPresence(law.sem, pk) && read.index.None?
    requires BareOr(e) && Ungated(e, ItemMeaning(law.sem, map[])) && Wanted(Some(e), law.sem, item)
    requires RemovedInBetween(law, w, k, item) && WellKeyed(w.store, pk, rk)
    ensures var done := RunPages(law, w, read, t, wantReturned, Acct(0, 0, 0, []));
            && done.1.Ok? && done.1.value.modified == 1
            && done.0.store == map[k := Updated(law, t.(key := k), map[])]
  {
    hide QuietRead, IsTemplate, Wanted, Updated, ExistsIsPresence, Verdict, WellKeyed, RowsAt, BareOr, Ungated,
         Accepted;
    RowsAreChosen(law, w.store, read, law.order[0..1], Some(e), plan, pk, rk);
    assert law.order[0..1] == [k] && [k][1..] == [];
    assert Chosen(law, w.store, None, Some(e), [k]) == [k] + Chosen(law, w.store, None, Some(e), []);
    FitOf(read, Some(e), plan, pk, rk);
    ReadTaken(read, Some(e), plan, pk, rk);
    var page := ReadPage(law, w, read);
    assert PageEnd(law, 0, w.turns[0].limit) == 1;
    assert page.1.Ok? && page.1.value.rows == [k] && page.1.value.last.None?;
    var r := t.(key := k);
    AnyKey(t, k, true, Some(e), pk, rk);
    SameUpdate(t, k);
    assert page.0.turns == w.turns[1..] && page.0.turns[0] == w.turns[1];
    UpdateCreatesExactly(law, map[], r, Some(e), pk, rk);
    var one := WriteItem(law, page.0, r);
    assert one.1 == Ok(None) && one.0.store == map[k := Updated(law, r, map[])];
    assert RunRows(law, page.0, [k], t, wantReturned, Acct(0, 0, 0, []))
        == (one.0, Ok(Counted(Acct(0, 0, 0, []), one.1, wantReturned)));
  }

  lemma ReadTaken(read: ReadRequest, where: Option<Expr>, plan: Option<QueryKeyPlan>, pk: string, rk: string)
    requires QuietRead(read, where, plan, pk, rk)
    ensures Accepted(read)
  {
  }

  // `UPDATE ... WHERE a = 1 OR NOT b = 2`: when the row is removed between the page and
  // its write, the run creates an item.
  lemma UpdateCreates(law: Law, w: World, counter: nat, cmd: Command, change: Change, pk: string, a: string,
                      b: string, v1: Value, v2: Value, k: Key, item: Item)
    requires Commands(cmd, Some(change)) && Readable(change)
    requires pk != "" && pk != a && pk != b && cmd.IsUpdate() && cmd.index.None?
    requires ExistsIsPresence(law.sem, pk) && EqualityOn(law.sem, {a, b})
    requires RemovedInBetween(law, w, k, item) && WellKeyed(w.store, pk, "") && Lookup(item, a) == Some(v1)
    ensures var e := Build(OrClause(Is(a, v1), NotClause(Is(b, v2))));
            var base := Schema([pk], []);
            var done := Execution(law, w, counter, cmd, Some(e), base, base, false);
            done.2.Ok? && w.turns[1].foreign == Some(map[]) && done.0.store.Keys == {k}
  {
    var x, y := Leaf(false, false, Comparison(a, Eq, v1)), Leaf(true, false, Comparison(b, Eq, v2));
    assert Build(Is(a, v1)) == x && Build(Is(b, v2)) == Leaf(false, false, Comparison(b, Eq, v2))
           && Build(NotClause(Is(b, v2))) == y;
    assert Build(OrClause(Is(a, v1), NotClause(Is(b, v2)))) == Or(false, false, [x, y]);
    OrCreates(law, w, counter, cmd, change, pk, a, b, v1, v2, x, y, k, item);
  }

  lemma OrCreates(law: Law, w: World, counter: nat, cmd: Command, change: Change, pk: string, a: string, b: string,
                  v1: Value, v2: Value, x: Expr, y: Expr, k: Key, item: Item)
    requires Commands(cmd, Some(change)) && Readable(change)
    requires pk != "" && pk != a && pk != b && cmd.IsUpdate() && cmd.index.None?
    requires ExistsIsPresence(law.sem, pk) && EqualityOn(law.sem, {a, b})
    requires RemovedInBetween(law, w, k, item) && WellKeyed(w.store, pk, "") && Lookup(item, a) == Some(v1)
    requires x == Leaf(false, false, Comparison(a, Eq, v1)) && y == Leaf(true, false, Comparison(b, Eq, v2))
    ensures var base := Schema([pk], []);
            var done := Execution(law, w, counter, cmd, Some(Or(false, false, [x, y])), base, base, false);
            done.2.Ok? && done.0.store.Keys == {k}
  {
    var e := Or(false, false, [x, y]);
    var base := Schema([pk], []);
    hide Occs, PlanOf, TemplateOf, ReadOf, Wanted, RunPages, IsTemplate, Ungated, BareOr, QuietRead, Updated,
         RemovedInBetween, WellKeyed, ExistsIsPresence, EqualityOn, Fit, OneItem;
    OrReady(law.sem, pk, a, b, v1, v2, x, y, item);
    ScanIsQuiet(cmd, change, e, base, UniquePrefix(counter), UniquePrefix(counter + 1));
    CreatingRun(law, w, ReadOf(cmd, Some(e), None, base, UniquePrefix(counter + 1)),
                TemplateOf(cmd, Some(e), base, UniquePrefix(counter)),
                cmd.wantReturned, e, None, pk, "", k, item);
  }

  lemma OrReady(sem: Semantics, pk: string, a: string, b: string, v1: Value, v2: Value, x: Expr, y: Expr, item: Item)
    requires pk != a && pk != b && EqualityOn(sem, {a, b}) && Lookup(item, a) == Some(v1)
    requires x == Leaf(false, false, Comparison(a, Eq, v1)) && y == Leaf(true, false, Comparison(b, Eq, v2))
    ensures var e := Or(false, false, [x, y]);
            && Fit(Some(e)) && BareOr(e) && PlanOf(Some(e), [pk], []) == None && !OneItem(Some(e), Schema([pk], []))
            && Wanted(Some(e), sem, item) && Ungated(e, ItemMeaning(sem, map[]))
  {
    var e := Or(false, false, [x, y]);
    OrIsScanned(e, x, y, pk);
    assert [x, y][1..] == [y] && a in {a, b} && b in {a, b};
    OrHolds(e, x, sem, a, v1, item);
    OrUngated(e, y, sem, b, v2);
  }

  lemma ScanIsQuiet(cmd: Command, change: Change, e: Expr, base: Schema, p: string, q: string)
    requires Commands(cmd, Some(change)) && Readable(change)
    requires Fit(Some(e)) && PlanOf(Some(e), base.pk, base.rk) == None && cmd.index.None? && cmd.IsUpdate()
    requires CleanPrefix(p) && CleanPrefix(q)
    ensures var t, read := TemplateOf(cmd, Some(e), base, p), ReadOf(cmd, Some(e), None, base, q);
            && QuietRead(read, Some(e), None, First(base.pk), First(base.rk)) && read.startKey.None? && read.index.None?
            && IsTemplate(t, true, Some(e), First(base.pk), First(base.rk)) && t.update.Some? && UpdateTaken(t)
  {
    hide PlanOf, TemplateOf, ReadOf, IsTemplate, QuietRead, Fit, Accepted, IsRead, UpdateMeant, Commands, Readable,
         Meant;
    TemplateIsPlanned(cmd, Some(e), base, p);
    TemplateMeans(cmd, Some(change), Some(e), base, p);
    ReadIsPlanned(cmd, Some(e), base, base, q);
    ReadIsAccepted(cmd, Some(e), base, base, q);
    ReadShape(cmd, Some(e), None, base, q);
    QuietReadIs(ReadOf(cmd, Some(e), None, base, q), Some(e), None, First(base.pk), First(base.rk));
  }

  lemma QuietReadIs(read: ReadRequest, where: Option<Expr>, plan: Option<QueryKeyPlan>, pk: string, rk: string)
    requires Fit(where) && IsRead(read, where, plan, pk, rk) && Accepted(read)
    ensures QuietRead(read, where, plan, pk, rk)
  {
  }

  lemma OrIsScanned(e: Expr, x: Expr, y: Expr, pk: string)
    requires e == Or(false, false, [x, y]) && x.Leaf? && y.Leaf? && x.pred.Comparison? && y.pred.Comparison?
    requires x.pred.lhs != pk && y.pred.lhs != pk
    ensures Fit(Some(e)) && BareOr(e) && PlanOf(Some(e), [pk], []) == None && !OneItem(Some(e), Schema([pk], []))
  {
    var os := Occs(e, true);
    OffSpineAll(e.kids, false);
    CountPositive(os, pk);
    OnceByCounts(os, pk);
    assert forall k :: k in [x, y] <==> k == x || k == y;
  }

  lemma OrHolds(e: Expr, x: Expr, sem: Semantics, a: string, v: Value, item: Item)
    requires x == Leaf(false, false, Comparison(a, Eq, v)) && e.Or? && !e.negated && x in e.kids
    requires EqualityOn(sem, {a}) && Lookup(item, a) == Some(v)
    ensures Wanted(Some(e), sem, item)
  {
    assert a in {a};
    assert Eval(x, ItemMeaning(sem, item));
  }

  lemma OrUngated(e: Expr, y: Expr, sem: Semantics, b: string, v: Value)
    requires y == Leaf(true, false, Comparison(b, Eq, v)) && BareOr(e) && e.kids != [] && y in e.kids[1..]
    requires EqualityOn(sem, {b})
    ensures Ungated(e, ItemMeaning(sem, map[]))
  {
    assert b in {b};
    assert Lookup(map[], b) == None;
    assert Eval(y, ItemMeaning(sem, map[]));
  }
}

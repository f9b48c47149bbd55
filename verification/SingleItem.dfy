// The statements that address one item by its full key: GetItem, and the single
// conditional UPDATE or DELETE.

module SingleItem {
  import opened Values
  import opened Expressions
  import opened Splitting
  import opened Access

  // The comparisons `=` on these attributes are equality with the attribute's value.
  ghost predicate EqualityOn(sem: Semantics, names: set<string>) {
    forall a, v, x | a in names :: sem(Comparison(a, Eq, v), x) <==> x == Some(v)
  }

  predicate KeyMatches(key: Item, item: Item) {
    forall a | a in key :: Lookup(item, a) == Some(key[a])
  }

  predicate OnKey(o: Occ, pk: string, rk: string) {
    IsGud(o) && (o.pred.lhs == pk || o.pred.lhs == rk)
  }

  // Every key equality of the tree is true.
  predicate GudTrue(os: seq<Occ>, pk: string, rk: string, m: Meaning) {
    forall o | o in os && OnKey(o, pk, rk) :: m(o.pred)
  }

  function First(names: seq<string>): string {
    if names == [] then "" else names[0]
  }

  predicate CanGetItem(os: seq<Occ>, pk: seq<string>, rk: seq<string>) {
    && |pk| == 1
    && CountGud(os, pk[0]) == 1
    && (if rk != [] then |os| == 2 && CountGud(os, rk[0]) == 1 else |os| == 1)
  }

  predicate CanUpdateItem(os: seq<Occ>, pk: seq<string>, rk: seq<string>) {
    && |pk| == 1
    && CountGud(os, pk[0]) == 1
    && (rk != [] ==> CountGud(os, rk[0]) == 1)
  }

  // ---- the key a tree supplies ----------------------------------------------

  lemma {:induction false} GudKeyEntry(os: seq<Occ>, pk: string, rk: string, a: string)
    ensures a in GudKey(os, pk, rk) <==> CountGud(os, a) > 0 && (a == pk || a == rk)
    ensures a in GudKey(os, pk, rk) && CountGud(os, a) == 1 ==>
              forall o | o in os && OnKey(o, pk, rk) && o.pred.lhs == a :: GudKey(os, pk, rk)[a] == o.pred.rhs
  {
    if os != [] {
      GudKeyEntry(os[1..], pk, rk, a);
      CountPositive(os[1..], a);
      assert forall o :: o in os <==> o == os[0] || o in os[1..];
    }
  }

  lemma GudTrueIsKeyMatch(os: seq<Occ>, pk: string, rk: string, sem: Semantics, item: Item)
    requires EqualityOn(sem, {pk, rk}) && CountGud(os, pk) <= 1 && CountGud(os, rk) <= 1
    ensures GudTrue(os, pk, rk, ItemMeaning(sem, item)) <==> KeyMatches(GudKey(os, pk, rk), item)
  {
    var key, m := GudKey(os, pk, rk), ItemMeaning(sem, item);
    GudKeyEntry(os, pk, rk, pk);
    GudKeyEntry(os, pk, rk, rk);
    CountPositive(os, pk);
    CountPositive(os, rk);
    forall o | o in os && OnKey(o, pk, rk)
      ensures o.pred.lhs in key && (m(o.pred) <==> Lookup(item, o.pred.lhs) == Some(key[o.pred.lhs]))
    {
      assert o.pred == Comparison(o.pred.lhs, Eq, o.pred.rhs);
      assert o.pred.lhs in {pk, rk};
    }
    forall a | a in key ensures exists o :: o in os && OnKey(o, pk, rk) && o.pred.lhs == a {
      GudKeyEntry(os, pk, rk, a);
    }
  }

  // ---- GetItem --------------------------------------------------------------

  lemma {:induction false} OccsLength(e: Expr, spine: bool)
    requires Arity(e, 2)
    ensures |Occs(e, spine)| >= if e.Leaf? then 1 else 2
    decreases e, 1
  {
    if !e.Leaf? {
      OccsOfLength(e.kids, spine && e.And?);
    }
  }

  lemma {:induction false} OccsOfLength(kids: seq<Expr>, spine: bool)
    requires forall k | k in kids :: Arity(k, 2)
    ensures |OccsOf(kids, spine)| >= |kids|
    ensures |OccsOf(kids, spine)| == |kids| ==> forall k | k in kids :: k.Leaf?
    decreases kids, 0
  {
    if kids != [] {
      OccsLength(kids[0], spine);
      OccsOfLength(kids[1..], spine);
    }
  }

  // A tree that qualifies for GetItem is a single key equality, or a conjunction
  // of two: and then possibly a negated one.
  lemma GetItemShape(e: Expr, pk: seq<string>, rk: seq<string>)
    requires Arity(e, 2) && CanGetItem(Occs(e, true), pk, rk)
    requires |rk| <= 1 && (rk != [] ==> pk[0] != rk[0])
    ensures rk == [] ==> e.Leaf?
    ensures rk != [] ==> e.And? && |e.kids| == 2 && e.kids[0].Leaf? && e.kids[1].Leaf?
    ensures forall o | o in Occs(e, true) :: IsGud(o) && (o.pred.lhs == pk[0] || o.pred.lhs in rk)
    ensures forall a | a == pk[0] || (rk != [] && a == rk[0]) :: CountLhs(Occs(e, true), a) == 1
  {
    var os := Occs(e, true);
    OccsLength(e, true);
    forall a { CountPositive(os, a); }
    if e.Or? {
      OffSpineAll(e.kids, false);
    }
    if rk != [] {
      if e.And? {
        OccsOfLength(e.kids, true);
        assert OccsOf(e.kids[1..], true) == Occs(e.kids[1], true) + OccsOf(e.kids[2..], true);
      }
      assert os == [os[0], os[1]];
      Unroll(os, pk[0]);
      Unroll(os, rk[0]);
    } else {
      assert os == [os[0]];
    }
  }

  lemma Unroll(os: seq<Occ>, name: string)
    requires |os| == 2
    ensures CountGud(os, name) == CountGud(os[..1], name) + CountGud(os[1..], name)
    ensures CountLhs(os, name) == CountLhs(os[..1], name) + CountLhs(os[1..], name)
  {
    assert os == os[..1] + os[1..];
    CountsConcat(os[..1], os[1..], name);
  }

  // An equality on this attribute, with no NOT of its own.
  predicate KeyEquality(e: Expr, name: string) {
    e.Leaf? && !e.negated && e.pred.Comparison? && e.pred.op == Eq && e.pred.lhs == name
  }

  // A SELECT is a GetItem exactly when its clause is an equality on the key, or two on its
  // two attributes, in either order, in one AND, negated or not.
  lemma GetItemExactly(e: Expr, pk: seq<string>, rk: seq<string>)
    requires Arity(e, 2) && |rk| <= 1 && (|pk| == 1 && rk != [] ==> pk[0] != rk[0])
    ensures CanGetItem(Occs(e, true), pk, rk) <==>
            && |pk| == 1
            && if rk == [] then KeyEquality(e, pk[0])
               else
                 && e.And? && |e.kids| == 2
                 && (|| (KeyEquality(e.kids[0], pk[0]) && KeyEquality(e.kids[1], rk[0]))
                     || (KeyEquality(e.kids[0], rk[0]) && KeyEquality(e.kids[1], pk[0])))
  {
    var os := Occs(e, true);
    if CanGetItem(os, pk, rk) {
      GetItemShape(e, pk, rk);
    }
    if e.Leaf? {
      assert os == [Occ(e.pred, e.negated, true)];
    } else if |pk| == 1 && rk != [] && e.And? && |e.kids| == 2 && e.kids[0].Leaf? && e.kids[1].Leaf? {
      TwoOccs(e);
      CountOfTwo(os[0], os[1], pk[0]);
      CountOfTwo(os[0], os[1], rk[0]);
    }
  }

  lemma CountOfTwo(a: Occ, b: Occ, name: string)
    ensures CountGud([a, b], name) == (if Gives(a, name) then 1 else 0) + if Gives(b, name) then 1 else 0
  {
    assert [a, b][1..] == [b] && [b][1..] == [];
    assert CountGud([b], name) == if Gives(b, name) then 1 else 0;
  }

  lemma TwoOccs(e: Expr)
    requires e.And? && |e.kids| == 2 && e.kids[0].Leaf? && e.kids[1].Leaf?
    ensures var k, l := e.kids[0], e.kids[1];
            Occs(e, true) == [Occ(k.pred, k.negated, true), Occ(l.pred, l.negated, true)]
  {
    var k, l := e.kids[0], e.kids[1];
    assert Occs(k, true) == [Occ(k.pred, k.negated, true)] && Occs(l, true) == [Occ(l.pred, l.negated, true)];
    assert e.kids[1..] == [l] && [l][1..] == [];
    assert OccsOf([l], true) == Occs(l, true) + OccsOf([], true);
    assert OccsOf(e.kids, true) == Occs(k, true) + OccsOf(e.kids[1..], true);
  }

  // An equality on this attribute, with no NOT of its own and no OR above it, and no other.
  predicate GivenOnce(os: seq<Occ>, name: string) {
    exists i | 0 <= i < |os| ::
      Gives(os[i], name) && forall j | 0 <= j < |os| && j != i :: !Gives(os[j], name)
  }

  predicate Gives(o: Occ, name: string) {
    o.pred.Comparison? && o.pred.op == Eq && o.pred.lhs == name && !o.negated && o.spine
  }

  lemma {:induction false} GivenByCount(os: seq<Occ>, name: string)
    ensures CountGud(os, name) == 0 <==> forall o | o in os :: !Gives(o, name)
    ensures CountGud(os, name) == 1 <==> GivenOnce(os, name)
  {
    if os != [] {
      GivenByCount(os[1..], name);
      GivenFirst(os, name);
      hide GivenOnce;
      assert forall o :: o in os <==> o == os[0] || o in os[1..];
    }
  }

  lemma GivenFirst(os: seq<Occ>, name: string)
    requires os != []
    ensures GivenOnce(os, name) <==>
            if Gives(os[0], name) then forall o | o in os[1..] :: !Gives(o, name) else GivenOnce(os[1..], name)
  {
    hide Gives;
    var rest := os[1..];
    assert forall j | 0 < j < |os| :: os[j] == rest[j - 1];
    if GivenOnce(os, name) {
      var i :| 0 <= i < |os| && Gives(os[i], name) && forall j | 0 <= j < |os| && j != i :: !Gives(os[j], name);
      assert i > 0 ==> Gives(rest[i - 1], name);
      assert forall j | 0 <= j < |rest| && j != i - 1 :: rest[j] == os[j + 1] && !Gives(os[j + 1], name);
    }
    if !Gives(os[0], name) && GivenOnce(rest, name) {
      var i :| 0 <= i < |rest| && Gives(rest[i], name) && forall j | 0 <= j < |rest| && j != i :: !Gives(rest[j], name);
      assert Gives(os[i + 1], name);
    }
  }

  // A write goes to one key exactly when its clause gives each key attribute once.
  lemma SingleWriteExactly(os: seq<Occ>, pk: seq<string>, rk: seq<string>)
    ensures CanUpdateItem(os, pk, rk) <==>
            |pk| == 1 && GivenOnce(os, pk[0]) && (rk != [] ==> GivenOnce(os, rk[0]))
  {
    hide GivenOnce;
    if |pk| == 1 {
      GivenByCount(os, pk[0]);
      if rk != [] {
        GivenByCount(os, rk[0]);
      }
    }
  }

  // A GetItem could also have been a Query, and asks for the full key.
  lemma GetItemIsFullKey(e: Expr, pk: seq<string>, rk: seq<string>)
    requires Arity(e, 2) && CanGetItem(Occs(e, true), pk, rk)
    requires |rk| <= 1 && (rk != [] ==> pk[0] != rk[0])
    ensures exists n: nat :: QueryRule(Occs(e, true), pk, rk, n)
    ensures GudKey(Occs(e, true), pk[0], First(rk)).Keys == {pk[0]} + (set r | r in rk)
  {
    var os, p, r := Occs(e, true), pk[0], First(rk);
    GetItemShape(e, pk, rk);
    forall a | a in pk || a in rk ensures OnceByEquality(os, a) && Mentioned(os, a) {
      CountPositive(os, a);
      OnceByCounts(os, a);
    }
    assert rk[..|rk|] == rk;
    forall o | o in os ensures SafeOcc(o, pk, rk) {
    }
    forall i | 0 <= i < |rk| ensures Mentioned(os, rk[i]) {
      assert rk[i] in rk;
    }
    assert QueryRule(os, pk, rk, |rk|);
    forall a ensures a in GudKey(os, p, r) <==> a == p || a in rk {
      GudKeyEntry(os, p, r, a);
      CountPositive(os, a);
    }
  }

  // It returns the items the WHERE selects exactly when the tree is not a negated
  // conjunction; otherwise it returns exactly the item the WHERE excludes.
  lemma GetItemMeaning(e: Expr, pk: seq<string>, rk: seq<string>, sem: Semantics, item: Item)
    requires Arity(e, 2) && CanGetItem(Occs(e, true), pk, rk)
    requires |rk| <= 1 && (rk != [] ==> pk[0] != rk[0])
    requires EqualityOn(sem, {pk[0], First(rk)})
    ensures Holds(e, sem, item) ==
            (KeyMatches(GudKey(Occs(e, true), pk[0], First(rk)), item) != (e.And? && e.negated))
  {
    var os, p, r, m := Occs(e, true), pk[0], First(rk), ItemMeaning(sem, item);
    GetItemShape(e, pk, rk);
    CountPositive(os, r);
    GudTrueIsKeyMatch(os, p, r, sem, item);
    if e.Leaf? {
      assert os[0] in os;
    } else {
      TwoLeaves(e, m);
      assert os[0] in os && os[1] in os;
    }
  }

  lemma TwoLeaves(e: Expr, m: Meaning)
    requires e.And? && |e.kids| == 2 && e.kids[0].Leaf? && e.kids[1].Leaf?
    ensures var os := Occs(e, true);
            && |os| == 2
            && Eval(e, m) == (((m(os[0].pred) != os[0].negated) && (m(os[1].pred) != os[1].negated)) != e.negated)
  {
    TwoOccs(e);
    assert e.kids[0] in e.kids && e.kids[1] in e.kids;
    assert (forall k | k in e.kids :: Eval(k, m)) == (Eval(e.kids[0], m) && Eval(e.kids[1], m));
  }

  // ---- the single conditional write -----------------------------------------

  predicate CarriedOcc(o: Occ, pk: string, rk: string) {
    o.spine && IsCarried(pk, rk, o.pred, o.negated)
  }

  // A comparison, BETWEEN or begins_with on a key attribute, with no NOT of its own and
  // no OR above it.
  predicate Dropped(o: Occ, pk: string, rk: string) {
    && o.spine && !o.negated && (o.pred.lhs == pk || o.pred.lhs == rk)
    && (o.pred.Comparison? || o.pred.Between? || o.pred.BeginsWith?)
  }

  function Undropped(os: seq<Occ>, pk: string, rk: string): seq<Occ> {
    if os == [] then []
    else (if Dropped(os[0], pk, rk) then [] else [os[0]]) + Undropped(os[1..], pk, rk)
  }

  lemma {:induction false} UndroppedConcat(a: seq<Occ>, b: seq<Occ>, pk: string, rk: string)
    ensures Undropped(a + b, pk, rk) == Undropped(a, pk, rk) + Undropped(b, pk, rk)
  {
    if a == [] {
      assert a + b == b;
    } else {
      assert (a + b)[0] == a[0] && (a + b)[1..] == a[1..] + b;
      UndroppedConcat(a[1..], b, pk, rk);
    }
  }

  lemma {:induction false} AllUndropped(os: seq<Occ>, pk: string, rk: string)
    requires forall o | o in os :: !o.spine
    ensures Undropped(os, pk, rk) == os
  {
    if os != [] {
      AllUndropped(os[1..], pk, rk);
    }
  }

  // The condition of a per-item write has all other predicates of the tree, in order.
  lemma {:induction false} ConditionConserves(e: Expr, pk: string, rk: string)
    ensures OptionOccs(Prune(e, Residual(pk, rk))) == Undropped(Occs(e, true), pk, rk)
    decreases e, 1
  {
    if e.And? {
      ConditionsConserve(e.kids, pk, rk);
    } else if e.Leaf? {
      assert Occs(e, true)[1..] == [];
    } else {
      OffSpineAll(e.kids, false);
      AllUndropped(Occs(e, true), pk, rk);
    }
  }

  lemma {:induction false} ConditionsConserve(kids: seq<Expr>, pk: string, rk: string)
    ensures OccsOf(PruneAll(kids, Residual(pk, rk)), true) == Undropped(OccsOf(kids, true), pk, rk)
    decreases kids, 0
  {
    if kids != [] {
      ConditionConserves(kids[0], pk, rk);
      ConditionsConserve(kids[1..], pk, rk);
      UndroppedConcat(Occs(kids[0], true), OccsOf(kids[1..], true), pk, rk);
      PrunedHead(kids, Residual(pk, rk));
    }
  }

  // All that the condition leaves to the item key are the equalities that make it.
  predicate OnlyKeyCarried(os: seq<Occ>, pk: string, rk: string) {
    forall o | o in os && CarriedOcc(o, pk, rk) :: IsGud(o)
  }

  lemma {:induction false} ResidualComplement(e: Expr, pk: string, rk: string)
    ensures Complementary(e, Carried(pk, rk), Residual(pk, rk))
  {
    if e.And? {
      forall k | k in e.kids ensures Complementary(k, Carried(pk, rk), Residual(pk, rk)) {
        ResidualComplement(k, pk, rk);
      }
    }
  }

  lemma {:induction false} CarriedSolid(e: Expr, pk: string, rk: string)
    ensures Solid(Prune(e, Carried(pk, rk)))
  {
    if e.And? {
      forall x | x in PruneAll(e.kids, Carried(pk, rk)) ensures Arity(x, 1) {
        var k := PruneAllSource(e.kids, Carried(pk, rk), x);
        CarriedSolid(k, pk, rk);
      }
    }
  }

  lemma {:induction false} KidOfOcc(kids: seq<Expr>, spine: bool, o: Occ) returns (k: Expr)
    requires o in OccsOf(kids, spine)
    ensures k in kids && o in Occs(k, spine)
  {
    if o in Occs(kids[0], spine) {
      k := kids[0];
    } else {
      k := KidOfOcc(kids[1..], spine, o);
    }
  }

  lemma {:induction false} TouchesCarried(e: Expr, pk: string, rk: string)
    ensures Touches(e, Carried(pk, rk)) <==> exists o :: o in Occs(e, true) && CarriedOcc(o, pk, rk)
  {
    if e.Leaf? {
      assert Occs(e, true)[0] in Occs(e, true);
    } else if e.Or? {
      OffSpineAll(e.kids, false);
    } else {
      forall k | k in e.kids
        ensures Touches(k, Carried(pk, rk)) <==> exists o :: o in Occs(k, true) && CarriedOcc(o, pk, rk)
      {
        TouchesCarried(k, pk, rk);
      }
      forall k, o | k in e.kids && o in Occs(k, true) ensures o in Occs(e, true) {
        KidOccs(e.kids, k, true);
      }
      forall o | o in Occs(e, true) ensures exists k :: k in e.kids && o in Occs(k, true) {
        var k := KidOfOcc(e.kids, true, o);
      }
    }
  }

  lemma {:induction false} CarriedConjunction(e: Expr, pk: string, rk: string, m: Meaning)
    requires NegationsAvoid(e, Carried(pk, rk))
    ensures EvalOption(Prune(e, Carried(pk, rk)), m) <==>
            forall o | o in Occs(e, true) && CarriedOcc(o, pk, rk) :: m(o.pred)
  {
    var s := Carried(pk, rk);
    if e.Leaf? {
      assert Occs(e, true)[0] in Occs(e, true);
    } else if e.Or? {
      OffSpineAll(e.kids, false);
    } else if e.negated {
      TouchesCarried(e, pk, rk);
      CarriedSolid(e, pk, rk);
      PrunedIffTouched(e, s);
    } else {
      AllTruePruned(e.kids, s, m);
      assert EvalOption(Prune(e, s), m) <==> AllTrue(PruneAll(e.kids, s), m);
      forall k | k in e.kids
        ensures EvalOption(Prune(k, s), m) <==> forall o | o in Occs(k, true) && CarriedOcc(o, pk, rk) :: m(o.pred)
      {
        CarriedConjunction(k, pk, rk, m);
      }
      forall k, o | k in e.kids && o in Occs(k, true) ensures o in Occs(e, true) {
        KidOccs(e.kids, k, true);
      }
      forall o | o in Occs(e, true) ensures exists k :: k in e.kids && o in Occs(k, true) {
        var k := KidOfOcc(e.kids, true, o);
      }
    }
  }

  lemma GudIsCarried(os: seq<Occ>, pk: string, rk: string, m: Meaning)
    requires OnlyKeyCarried(os, pk, rk)
    ensures (forall o | o in os && CarriedOcc(o, pk, rk) :: m(o.pred)) <==> GudTrue(os, pk, rk, m)
  {
    assert forall o | o in os :: CarriedOcc(o, pk, rk) <==> OnKey(o, pk, rk);
  }

  // What a caller of a single write can check: the condition leaves nothing to the
  // key but the equalities that make it, and no negated conjunction holds any of them.
  predicate KeyStands(e: Expr, pk: string, rk: string) {
    OnlyKeyCarried(Occs(e, true), pk, rk) && NegationsAvoid(e, Carried(pk, rk))
  }

  predicate KeyAndCondition(e: Expr, pk: string, rk: string, m: Meaning) {
    GudTrue(Occs(e, true), pk, rk, m) && EvalOption(Prune(e, Residual(pk, rk)), m)
  }

  // The key and the condition of a single write together mean the WHERE, whatever
  // the predicates mean, exactly when the key stands for what was dropped.
  lemma SingleWriteExact(e: Expr, pk: string, rk: string)
    requires Arity(e, 2) && Linear(e) && Solid(Prune(e, Residual(pk, rk)))
    ensures KeyStands(e, pk, rk) <==> forall m: Meaning :: Eval(e, m) <==> KeyAndCondition(e, pk, rk, m)
  {
    if KeyStands(e, pk, rk) {
      forall m: Meaning ensures Eval(e, m) <==> KeyAndCondition(e, pk, rk, m) {
        SingleWriteMeaning(e, pk, rk, m);
      }
    } else if OnlyKeyCarried(Occs(e, true), pk, rk) {
      var m := Patch(e, true, p => true);
      PatchSets(e, true, p => true);
      var o := NegatedCarried(e, pk, rk, m);
      var w := Without(m, o.pred);
      assert OnKey(o, pk, rk) && !w(o.pred);
      assert Eval(e, w) && !KeyAndCondition(e, pk, rk, w);
    } else {
      var m, n := DroppedRange(e, pk, rk);
    }
  }

  ghost function Without(m: Meaning, p: Pred): Meaning {
    (q: Pred) => q != p && m(q)
  }

  // In a negated conjunction one false child is enough: with all of them false, one
  // predicate the key stands for can be false alone.
  lemma {:induction false} NegatedCarried(e: Expr, pk: string, rk: string, m: Meaning) returns (o: Occ)
    requires Arity(e, 2) && Linear(e) && !NegationsAvoid(e, Carried(pk, rk)) && Sets(e, true, m)
    ensures o in Occs(e, true) && CarriedOcc(o, pk, rk) && o.pred in Preds(e)
    ensures Eval(e, Without(m, o.pred))
  {
    if e.negated {
      AvoidedTouch(e, Carried(pk, rk));
      TouchesCarried(e, pk, rk);
      o :| o in Occs(e, true) && CarriedOcc(o, pk, rk);
      var k := KidOfOcc(e.kids, true, o);
      OccPred(k, true, o);
      var l := OtherKid(e, k);
      KidsApart(e, k, l);
      ArityWeaken(l);
      SetsFrame(l, false, m, Without(m, o.pred));
      SetsEval(l, false, Without(m, o.pred));
    } else {
      var k :| k in e.kids && !NegationsAvoid(k, Carried(pk, rk));
      o := NegatedCarried(k, pk, rk, m);
      KidOccs(e.kids, k, true);
      forall h | h in e.kids && h != k ensures Eval(h, Without(m, o.pred)) {
        KidsApart(e, h, k);
        ArityWeaken(h);
        SetsFrame(h, true, m, Without(m, o.pred));
        SetsEval(h, true, Without(m, o.pred));
      }
    }
  }

  lemma {:induction false} AvoidedTouch(e: Expr, s: Side)
    requires !NegationsAvoid(e, s)
    ensures e.And? && Touches(e, s)
  {
    if k :| k in e.kids && !NegationsAvoid(k, s) {
      AvoidedTouch(k, s);
    }
  }

  lemma OtherKid(e: Expr, k: Expr) returns (l: Expr)
    requires e.And? && Arity(e, 2) && Linear(e) && k in e.kids
    ensures l in e.kids && l != k
  {
    ArityWeaken(e.kids[0]);
    var p := SomePred(e.kids[0]);
    assert Preds(e.kids[0]) !! Preds(e.kids[1]);
    l := if e.kids[0] == k then e.kids[1] else e.kids[0];
  }

  lemma {:induction false} OccPred(e: Expr, spine: bool, o: Occ)
    requires o in Occs(e, spine)
    ensures o.pred in Preds(e)
  {
    if !e.Leaf? {
      var k := KidOfOcc(e.kids, if e.And? then spine else false, o);
      OccPred(k, if e.And? then spine else false, o);
    }
  }

  // A predicate that is dropped and not in the key is checked nowhere, and matters.
  lemma DroppedRange(e: Expr, pk: string, rk: string) returns (m: Meaning, n: Meaning)
    requires Arity(e, 2) && Linear(e) && !OnlyKeyCarried(Occs(e, true), pk, rk)
    ensures Eval(e, m) != Eval(e, n)
    ensures KeyAndCondition(e, pk, rk, m) == KeyAndCondition(e, pk, rk, n)
  {
    var os, residual := Occs(e, true), Prune(e, Residual(pk, rk));
    var o :| o in os && CarriedOcc(o, pk, rk) && !IsGud(o);
    OccPred(e, true, o);
    ArityWeaken(e);
    m := Decisive(e, o.pred, true);
    n := Flip(m, o.pred);
    forall x | x in os && OnKey(x, pk, rk) ensures m(x.pred) == n(x.pred) {
      if x.pred == o.pred {
        GudHere(x, o);
      }
    }
    if residual.Some? {
      CarriedNotPrinted(e, pk, rk, o);
      EvalFrame(residual.value, m, n);
    }
  }

  lemma GudHere(x: Occ, o: Occ)
    requires IsGud(x) && x.pred == o.pred && o.spine && !o.negated
    ensures IsGud(o)
  {
  }

  lemma SplitByKey(e: Expr, pk: string, rk: string, m: Meaning)
    requires Arity(e, 2) && NegationsAvoid(e, Carried(pk, rk)) && Solid(Prune(e, Residual(pk, rk)))
    ensures Eval(e, m) <==>
            (forall o | o in Occs(e, true) && CarriedOcc(o, pk, rk) :: m(o.pred)) &&
            EvalOption(Prune(e, Residual(pk, rk)), m)
  {
    ArityWeaken(e);
    AvoidingIsOneSided(e, Carried(pk, rk), Residual(pk, rk));
    ResidualComplement(e, pk, rk);
    CarriedSolid(e, pk, rk);
    SplitMeaning(e, Carried(pk, rk), Residual(pk, rk), m);
    CarriedConjunction(e, pk, rk, m);
  }

  lemma SingleWriteMeaning(e: Expr, pk: string, rk: string, m: Meaning)
    requires Arity(e, 2) && Solid(Prune(e, Residual(pk, rk))) && KeyStands(e, pk, rk)
    ensures Eval(e, m) <==> KeyAndCondition(e, pk, rk, m)
  {
    SplitByKey(e, pk, rk, m);
    GudIsCarried(Occs(e, true), pk, rk, m);
  }

  lemma {:induction false} CarriedNotPrinted(e: Expr, pk: string, rk: string, o: Occ)
    requires Linear(e) && o in Occs(e, true) && CarriedOcc(o, pk, rk) && Prune(e, Residual(pk, rk)).Some?
    ensures o.pred !in Preds(Prune(e, Residual(pk, rk)).value)
  {
    CarriedKept(e, pk, rk, o);
    ResidualComplement(e, pk, rk);
    SidesDisjoint(e, Carried(pk, rk), Residual(pk, rk));
  }

  lemma {:induction false} CarriedKept(e: Expr, pk: string, rk: string, o: Occ)
    requires o in Occs(e, true) && CarriedOcc(o, pk, rk)
    ensures Prune(e, Carried(pk, rk)).Some? && o.pred in Preds(Prune(e, Carried(pk, rk)).value)
  {
    if e.Or? {
      OffSpineAll(e.kids, false);
    } else if e.And? {
      var k := KidOfOcc(e.kids, true, o);
      CarriedKept(k, pk, rk, o);
      PruneAllMember(e.kids, Carried(pk, rk), k);
    }
  }
}

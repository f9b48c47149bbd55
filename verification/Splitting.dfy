// Cutting a WHERE tree in two: when the two parts together mean the tree.

module Splitting {
  import opened Values
  import opened Expressions

  // ---- vocabulary -----------------------------------------------------------

  // Every spine predicate, and every OR met on the spine, goes to exactly one side.
  predicate Complementary(e: Expr, a: Side, b: Side) {
    match e
    case Leaf(negated, _, pred) => Keeps(a, pred, negated) != Keeps(b, pred, negated)
    case Or(_, _, _) => KeepsOrs(a) != KeepsOrs(b)
    case And(_, _, kids) => forall k | k in kids :: Complementary(k, a, b)
  }

  predicate Touches(e: Expr, s: Side) {
    match e
    case Leaf(negated, _, pred) => Keeps(s, pred, negated)
    case Or(_, _, _) => KeepsOrs(s)
    case And(_, _, kids) => exists k | k in kids :: Touches(k, s)
  }

  // The condition a caller can check: no negated conjunction on the spine is cut.
  predicate NegationsOneSided(e: Expr, a: Side, b: Side) {
    e.And? ==>
      && (forall k | k in e.kids :: NegationsOneSided(k, a, b))
      && (e.negated ==> !(Touches(e, a) && Touches(e, b)))
  }

  // None of them is even reached by this side.
  predicate NegationsAvoid(e: Expr, s: Side) {
    e.And? ==>
      && (forall k | k in e.kids :: NegationsAvoid(k, s))
      && (e.negated ==> !Touches(e, s))
  }

  // Every parenthesised conjunction on the spine has something on this side.
  predicate GroupsTouch(e: Expr, s: Side) {
    e.And? ==>
      && (forall k | k in e.kids :: GroupsTouch(k, s))
      && (e.parens ==> Touches(e, s))
  }

  // No `()` in what is printed.
  predicate Solid(e: Option<Expr>) {
    e.Some? ==> Arity(e.value, 1)
  }

  predicate AllTrue(kids: seq<Expr>, m: Meaning) {
    forall k | k in kids :: Eval(k, m)
  }

  // ---- pruned children ------------------------------------------------------

  lemma {:induction false} PruneAllMember(kids: seq<Expr>, s: Side, k: Expr)
    requires k in kids && Prune(k, s).Some?
    ensures Prune(k, s).value in PruneAll(kids, s)
  {
    if k != kids[0] {
      PruneAllMember(kids[1..], s, k);
    }
  }

  lemma {:induction false} PruneAllSource(kids: seq<Expr>, s: Side, x: Expr) returns (k: Expr)
    requires x in PruneAll(kids, s)
    ensures k in kids && Prune(k, s) == Some(x)
  {
    if Prune(kids[0], s) == Some(x) {
      k := kids[0];
    } else {
      k := PruneAllSource(kids[1..], s, x);
    }
  }

  lemma AllTruePruned(kids: seq<Expr>, s: Side, m: Meaning)
    ensures AllTrue(PruneAll(kids, s), m) <==> forall k | k in kids :: EvalOption(Prune(k, s), m)
  {
    forall k | k in kids && Prune(k, s).Some? ensures Prune(k, s).value in PruneAll(kids, s) {
      PruneAllMember(kids, s, k);
    }
    forall x | x in PruneAll(kids, s) ensures exists k :: k in kids && Prune(k, s) == Some(x) {
      var k := PruneAllSource(kids, s, x);
    }
  }

  lemma SolidKid(e: Expr, s: Side, k: Expr)
    requires e.And? && k in e.kids && Solid(Prune(e, s))
    ensures Solid(Prune(k, s))
  {
    if Prune(k, s).Some? {
      PruneAllMember(e.kids, s, k);
    }
  }

  // A part that prints without `()` is there exactly when the tree has something on that side.
  lemma {:induction false} PrunedIffTouched(e: Expr, s: Side)
    requires Solid(Prune(e, s))
    ensures Prune(e, s).Some? <==> Touches(e, s)
  {
    if e.And? {
      forall k | k in e.kids ensures Prune(k, s).Some? <==> Touches(k, s) {
        SolidKid(e, s, k);
        PrunedIffTouched(k, s);
      }
      var kept := PruneAll(e.kids, s);
      if kept != [] {
        var k := PruneAllSource(e.kids, s, kept[0]);
      } else if Touches(e, s) {
        var k :| k in e.kids && Touches(k, s);
        PruneAllMember(e.kids, s, k);
      }
    }
  }

  // A text has no `()` exactly when every parenthesised conjunction on the spine has
  // something on its side.
  lemma {:induction false} SolidExactly(e: Expr, s: Side)
    requires Arity(e, 1) && !s.Carried?
    ensures Solid(Prune(e, s)) <==> GroupsTouch(e, s)
  {
    if e.And? {
      forall k | k in e.kids ensures Solid(Prune(k, s)) <==> GroupsTouch(k, s) {
        SolidExactly(k, s);
      }
      if Solid(Prune(e, s)) {
        forall k | k in e.kids ensures GroupsTouch(k, s) {
          SolidKid(e, s, k);
        }
        PrunedIffTouched(e, s);
      } else if GroupsTouch(e, s) {
        SolidPart(e, s);
      }
    }
  }

  // Solid children, and something kept if there are parentheses: a solid part.
  lemma SolidPart(e: Expr, s: Side)
    requires e.And? && (forall k | k in e.kids :: Solid(Prune(k, s))) && (e.parens ==> Touches(e, s))
    ensures Solid(Prune(e, s))
  {
    forall x | x in PruneAll(e.kids, s) ensures Arity(x, 1) {
      var k := PruneAllSource(e.kids, s, x);
    }
    if e.parens {
      var k :| k in e.kids && Touches(k, s);
      PrunedIffTouched(k, s);
      PruneAllMember(e.kids, s, k);
    }
  }

  // ---- the two parts mean the whole -----------------------------------------

  lemma {:induction false} TouchesASide(e: Expr, a: Side, b: Side)
    requires Arity(e, 1) && Complementary(e, a, b)
    ensures Touches(e, a) || Touches(e, b)
  {
    if e.And? {
      TouchesASide(e.kids[0], a, b);
    }
  }

  lemma {:induction false} SplitMeaning(e: Expr, a: Side, b: Side, m: Meaning)
    requires Arity(e, 1) && Complementary(e, a, b) && NegationsOneSided(e, a, b)
    requires Solid(Prune(e, a)) && Solid(Prune(e, b))
    ensures Eval(e, m) <==> EvalOption(Prune(e, a), m) && EvalOption(Prune(e, b), m)
  {
    if e.And? {
      forall k | k in e.kids
        ensures Eval(k, m) <==> EvalOption(Prune(k, a), m) && EvalOption(Prune(k, b), m)
      {
        SolidKid(e, a, k);
        SolidKid(e, b, k);
        SplitMeaning(k, a, b, m);
      }
      AllTruePruned(e.kids, a, m);
      AllTruePruned(e.kids, b, m);
      assert AllTrue(e.kids, m) <==> AllTrue(PruneAll(e.kids, a), m) && AllTrue(PruneAll(e.kids, b), m);
      TouchesASide(e, a, b);
      PartMeaning(e, a, m);
      PartMeaning(e, b, m);
    }
  }

  lemma {:induction false} AvoidingIsOneSided(e: Expr, a: Side, b: Side)
    requires NegationsAvoid(e, a)
    ensures NegationsOneSided(e, a, b)
  {
    if e.And? {
      forall k | k in e.kids ensures NegationsOneSided(k, a, b) {
        AvoidingIsOneSided(k, a, b);
      }
    }
  }

  // The predicates kept on one side.
  function SidePreds(e: Expr, s: Side): set<Pred> {
    if Prune(e, s).Some? then Preds(Prune(e, s).value) else {}
  }

  lemma KidSidePreds(e: Expr, s: Side, k: Expr)
    requires e.And? && k in e.kids
    ensures SidePreds(k, s) <= SidePreds(e, s)
  {
    if Prune(k, s).Some? {
      PruneAllMember(e.kids, s, k);
    }
  }

  // What is left of a conjunction on one side, in terms of its children.
  lemma PartMeaning(e: Expr, s: Side, m: Meaning)
    requires e.And? && Solid(Prune(e, s))
    ensures Touches(e, s) ==> EvalOption(Prune(e, s), m) == (AllTrue(PruneAll(e.kids, s), m) != e.negated)
    ensures !Touches(e, s) ==> Prune(e, s).None? && AllTrue(PruneAll(e.kids, s), m)
  {
    PrunedIffTouched(e, s);
  }

  // A tree without anything on the other side is all of it on this one.
  lemma {:induction false} AllOnOneSide(e: Expr, a: Side, b: Side)
    requires Arity(e, 1) && Complementary(e, a, b) && !Touches(e, b)
    ensures Prune(e, a) == Some(e)
  {
    if e.And? {
      forall k | k in e.kids ensures Prune(k, a) == Some(k) {
        AllOnOneSide(k, a, b);
      }
      AllKept(e.kids, a);
    }
  }

  lemma {:induction false} AllKept(kids: seq<Expr>, s: Side)
    requires forall k | k in kids :: Prune(k, s) == Some(k)
    ensures PruneAll(kids, s) == kids
  {
    if kids != [] {
      AllKept(kids[1..], s);
    }
  }

  // ---- valuations: setting every predicate of a tree one way ----------------

  lemma {:induction false} EvalFrame(e: Expr, m: Meaning, n: Meaning)
    requires forall p | p in Preds(e) :: m(p) == n(p)
    ensures Eval(e, m) == Eval(e, n)
  {
    if !e.Leaf? {
      forall k | k in e.kids ensures Eval(k, m) == Eval(k, n) {
        assert forall p | p in Preds(k) :: p in Preds(e);
        EvalFrame(k, m, n);
      }
    }
  }

  ghost predicate Sets(e: Expr, v: bool, m: Meaning) {
    match e
    case Leaf(negated, _, pred) => m(pred) == (v != negated)
    case And(negated, _, kids) => forall k | k in kids :: Sets(k, v != negated, m)
    case Or(negated, _, kids) => forall k | k in kids :: Sets(k, v != negated, m)
  }

  lemma {:induction false} SetsEval(e: Expr, v: bool, m: Meaning)
    requires Arity(e, 1) && Sets(e, v, m)
    ensures Eval(e, m) == v
  {
    if !e.Leaf? {
      forall k | k in e.kids ensures Eval(k, m) == (v != e.negated) {
        SetsEval(k, v != e.negated, m);
      }
      assert e.kids[0] in e.kids;
    }
  }

  lemma {:induction false} SetsPruned(e: Expr, s: Side, v: bool, m: Meaning)
    requires Sets(e, v, m) && Prune(e, s).Some?
    ensures Sets(Prune(e, s).value, v, m)
  {
    if e.And? {
      forall x | x in PruneAll(e.kids, s) ensures Sets(x, v != e.negated, m) {
        var k := PruneAllSource(e.kids, s, x);
        SetsPruned(k, s, v != e.negated, m);
      }
    }
  }

  lemma {:induction false} SetsFrame(e: Expr, v: bool, m: Meaning, n: Meaning)
    requires forall p | p in Preds(e) :: m(p) == n(p)
    requires Sets(e, v, m)
    ensures Sets(e, v, n)
  {
    if !e.Leaf? {
      forall k | k in e.kids ensures Sets(k, v != e.negated, n) {
        assert forall p | p in Preds(k) :: p in Preds(e);
        SetsFrame(k, v != e.negated, m, n);
      }
    }
  }

  ghost function Assigned(e: Expr, v: bool, p: Pred): bool
    requires p in Preds(e)
  {
    if e.Leaf? then v != e.negated
    else var k :| k in e.kids && p in Preds(k); Assigned(k, v != e.negated, p)
  }

  // m, but with every predicate of e set so that e comes out as v.
  ghost function Patch(e: Expr, v: bool, m: Meaning): Meaning {
    (p: Pred) => if p in Preds(e) then Assigned(e, v, p) else m(p)
  }

  lemma {:induction false} PatchSets(e: Expr, v: bool, m: Meaning)
    requires Linear(e)
    ensures Sets(e, v, Patch(e, v, m))
  {
    if e.Leaf? {
      assert e.pred in Preds(e);
    } else {
      forall k | k in e.kids ensures Sets(k, v != e.negated, Patch(e, v, m)) {
        PatchSets(k, v != e.negated, m);
        forall p | p in Preds(k)
          ensures Patch(e, v, m)(p) == Patch(k, v != e.negated, m)(p)
        {
          assert p in Preds(e);
          OnlyKid(e, k, p);
        }
        SetsFrame(k, v != e.negated, Patch(k, v != e.negated, m), Patch(e, v, m));
      }
    }
  }

  lemma OnlyKid(e: Expr, k: Expr, p: Pred)
    requires !e.Leaf? && Linear(e) && k in e.kids && p in Preds(k)
    ensures forall k' | k' in e.kids && p in Preds(k') :: k' == k
  {
    forall k' | k' in e.kids && p in Preds(k') ensures k' == k {
      var i :| 0 <= i < |e.kids| && e.kids[i] == k;
      var j :| 0 <= j < |e.kids| && e.kids[j] == k';
      assert p in Preds(e.kids[i]) && p in Preds(e.kids[j]);
    }
  }

  // ---- a cut negation always shows ------------------------------------------

  lemma {:induction false} PrunedPreds(e: Expr, s: Side)
    requires Prune(e, s).Some?
    ensures Preds(Prune(e, s).value) <= Preds(e)
  {
    if e.And? {
      forall x, p | x in PruneAll(e.kids, s) && p in Preds(x) ensures p in Preds(e) {
        var k := PruneAllSource(e.kids, s, x);
        PrunedPreds(k, s);
      }
    }
  }

  lemma {:induction false} SidesDisjoint(e: Expr, a: Side, b: Side)
    requires Linear(e) && Complementary(e, a, b)
    requires Prune(e, a).Some? && Prune(e, b).Some?
    ensures Preds(Prune(e, a).value) !! Preds(Prune(e, b).value)
  {
    if e.And? {
      forall x, y | x in PruneAll(e.kids, a) && y in PruneAll(e.kids, b)
        ensures Preds(x) !! Preds(y)
      {
        var k := PruneAllSource(e.kids, a, x);
        var l := PruneAllSource(e.kids, b, y);
        if k == l {
          SidesDisjoint(k, a, b);
        } else {
          PrunedPreds(k, a);
          PrunedPreds(l, b);
          if p :| p in Preds(k) && p in Preds(l) {
            OnlyKid(e, k, p);
          }
        }
      }
    }
  }

  lemma {:induction false} PrunedLinear(e: Expr, s: Side)
    requires Linear(e) && Prune(e, s).Some?
    ensures Linear(Prune(e, s).value)
  {
    if e.And? {
      forall x | x in PruneAll(e.kids, s) ensures Linear(x) {
        var k := PruneAllSource(e.kids, s, x);
        PrunedLinear(k, s);
      }
      PrunedKidsDisjoint(e.kids, s);
    }
  }

  lemma {:induction false} PrunedKidsDisjoint(kids: seq<Expr>, s: Side)
    requires forall i, j | 0 <= i < j < |kids| :: Preds(kids[i]) !! Preds(kids[j])
    ensures forall i, j | 0 <= i < j < |PruneAll(kids, s)| ::
              Preds(PruneAll(kids, s)[i]) !! Preds(PruneAll(kids, s)[j])
  {
    if kids != [] {
      var rest := PruneAll(kids[1..], s);
      PrunedKidsDisjoint(kids[1..], s);
      if Prune(kids[0], s).Some? {
        PrunedPreds(kids[0], s);
        forall x | x in rest ensures Preds(Prune(kids[0], s).value) !! Preds(x) {
          var k := PruneAllSource(kids[1..], s, x);
          PrunedPreds(k, s);
          var j :| 1 <= j < |kids| && kids[j] == k;
          assert Preds(kids[0]) !! Preds(kids[j]);
        }
      }
    }
  }

  lemma {:induction false} CutTouchesBoth(e: Expr, a: Side, b: Side)
    requires !NegationsOneSided(e, a, b)
    ensures e.And? && Touches(e, a) && Touches(e, b)
  {
    if k :| k in e.kids && !NegationsOneSided(k, a, b) {
      CutTouchesBoth(k, a, b);
    }
  }

  lemma {:induction false} SomePred(e: Expr) returns (p: Pred)
    requires Arity(e, 1)
    ensures p in Preds(e)
  {
    if e.Leaf? {
      p := e.pred;
    } else {
      p := SomePred(e.kids[0]);
    }
  }

  lemma KidsApart(e: Expr, k: Expr, l: Expr)
    requires !e.Leaf? && Linear(e) && k in e.kids && l in e.kids && k != l
    ensures Preds(k) !! Preds(l)
  {
    if p :| p in Preds(k) && p in Preds(l) {
      OnlyKid(e, k, p);
    }
  }

  lemma TwoKids(e: Expr, a: Side, b: Side) returns (k: Expr, l: Expr)
    requires Arity(e, 2) && Linear(e) && Complementary(e, a, b)
    requires e.And? && Touches(e, a) && Touches(e, b)
    ensures k in e.kids && l in e.kids && k != l && Touches(k, a) && Touches(l, b)
  {
    k :| k in e.kids && Touches(k, a);
    l :| l in e.kids && Touches(l, b);
    if k == l {
      ArityWeaken(e.kids[0]);
      ArityWeaken(e.kids[1]);
      var p := SomePred(e.kids[0]);
      assert Preds(e.kids[0]) !! Preds(e.kids[1]);
      var z := if e.kids[0] == k then e.kids[1] else e.kids[0];
      TouchesASide(z, a, b);
      if Touches(z, a) {
        k := z;
      } else {
        l := z;
      }
    }
  }

  lemma {:induction false} ArityWeaken(e: Expr)
    requires Arity(e, 2)
    ensures Arity(e, 1)
  {
    if !e.Leaf? {
      forall k | k in e.kids ensures Arity(k, 1) {
        ArityWeaken(k);
      }
    }
  }

  // m, with one predicate the other way.
  ghost function Flip(m: Meaning, p: Pred): Meaning {
    (q: Pred) => if q == p then !m(q) else m(q)
  }

  // inner on the predicates of k, outer elsewhere.
  ghost function Mix(k: Expr, inner: Meaning, outer: Meaning): Meaning {
    (p: Pred) => if p in Preds(k) then inner(p) else outer(p)
  }

  // Every child says nothing: true under AND, false under OR.
  ghost function Calm(e: Expr): Meaning {
    Patch(e, e.And? != e.negated, p => true)
  }

  lemma CalmKid(e: Expr, h: Expr, n: Meaning)
    requires !e.Leaf? && Arity(e, 1) && Linear(e) && h in e.kids
    requires forall p | p in Preds(h) :: n(p) == Calm(e)(p)
    ensures Eval(h, n) == e.And?
  {
    PatchSets(e, e.And? != e.negated, p => true);
    SetsFrame(h, e.And?, Calm(e), n);
    SetsEval(h, e.And?, n);
  }

  // All but k calm: k decides.
  lemma KidDecides(e: Expr, k: Expr, n: Meaning)
    requires !e.Leaf? && Arity(e, 1) && Linear(e) && k in e.kids
    requires forall p | p !in Preds(k) :: n(p) == Calm(e)(p)
    ensures Eval(e, n) == (Eval(k, n) != e.negated)
  {
    forall h | h in e.kids && h != k ensures Eval(h, n) == e.And? {
      KidsApart(e, h, k);
      CalmKid(e, h, n);
    }
  }

  // With the others calm, the tree goes along with k.
  lemma KidEmbeds(e: Expr, k: Expr, inner: Meaning, p: Pred)
    requires !e.Leaf? && Arity(e, 1) && Linear(e) && k in e.kids && p in Preds(k)
    ensures var m := Mix(k, inner, Calm(e));
            && Eval(e, m) == (Eval(k, inner) != e.negated)
            && Eval(e, Flip(m, p)) == (Eval(k, Flip(inner, p)) != e.negated)
  {
    var m := Mix(k, inner, Calm(e));
    KidDecides(e, k, m);
    KidDecides(e, k, Flip(m, p));
    EvalFrame(k, inner, m);
    EvalFrame(k, Flip(inner, p), Flip(m, p));
  }

  // Every predicate of a tree matters somewhere.
  lemma {:induction false} Decisive(e: Expr, p: Pred, v: bool) returns (m: Meaning)
    requires Arity(e, 1) && Linear(e) && p in Preds(e)
    ensures Eval(e, m) == v && Eval(e, Flip(m, p)) != v
  {
    if e.Leaf? {
      m := (q: Pred) => v != e.negated;
    } else {
      var k :| k in e.kids && p in Preds(k);
      var inner := Decisive(k, p, v != e.negated);
      m := Mix(k, inner, Calm(e));
      KidEmbeds(e, k, inner, p);
    }
  }

  lemma {:induction false} TouchedPred(e: Expr, s: Side) returns (p: Pred)
    requires Arity(e, 1) && Touches(e, s)
    ensures p in SidePreds(e, s) && p in Preds(e)
  {
    if e.And? {
      var k :| k in e.kids && Touches(k, s);
      p := TouchedPred(k, s);
      PruneAllMember(e.kids, s, k);
      KidSidePreds(e, s, k);
    } else {
      p := SomePred(e);
    }
  }

  // Two children with a predicate each that matters, the others calm.
  lemma TwoSwitches(e: Expr, k: Expr, l: Expr, p: Pred, q: Pred) returns (m: Meaning)
    requires Arity(e, 1) && Linear(e) && e.And? && e.negated && k in e.kids && l in e.kids && k != l
    requires p in Preds(k) && q in Preds(l)
    ensures !Eval(e, m) && Eval(e, Flip(m, p)) && Eval(e, Flip(m, q))
  {
    var mk := Decisive(k, p, true);
    var ml := Decisive(l, q, true);
    KidsApart(e, k, l);
    m := Mix(k, mk, Mix(l, ml, Calm(e)));
    EvalFrame(k, mk, m);
    EvalFrame(l, ml, m);
    EvalFrame(k, Flip(mk, p), Flip(m, p));
    EvalFrame(l, Flip(ml, q), Flip(m, q));
    forall h | h in e.kids && h != k && h != l ensures Eval(h, m) {
      KidsApart(e, h, k);
      KidsApart(e, h, l);
      CalmKid(e, h, m);
    }
  }

  // A cut negation: a valuation on which the tree is false, and one predicate on
  // either side that makes it true alone.
  lemma {:induction false} CutShows(e: Expr, a: Side, b: Side) returns (m: Meaning, p: Pred, q: Pred)
    requires Arity(e, 2) && Linear(e) && Complementary(e, a, b) && !NegationsOneSided(e, a, b)
    ensures p in SidePreds(e, a) && q in SidePreds(e, b) && p in Preds(e) && q in Preds(e)
    ensures !Eval(e, m) && Eval(e, Flip(m, p)) && Eval(e, Flip(m, q))
  {
    ArityWeaken(e);
    CutTouchesBoth(e, a, b);
    if e.negated {
      var k, l := TwoKids(e, a, b);
      p := TouchedPred(k, a);
      q := TouchedPred(l, b);
      KidSidePreds(e, a, k);
      KidSidePreds(e, b, l);
      m := TwoSwitches(e, k, l, p, q);
    } else {
      var k :| k in e.kids && !NegationsOneSided(k, a, b);
      var inner;
      inner, p, q := CutShows(k, a, b);
      KidSidePreds(e, a, k);
      KidSidePreds(e, b, k);
      m := Mix(k, inner, Calm(e));
      KidEmbeds(e, k, inner, p);
      KidEmbeds(e, k, inner, q);
    }
  }

  lemma FlipElsewhere(e: Expr, a: Side, b: Side, m: Meaning, p: Pred)
    requires Linear(e) && Complementary(e, a, b) && p in SidePreds(e, a)
    ensures EvalOption(Prune(e, b), Flip(m, p)) == EvalOption(Prune(e, b), m)
  {
    if Prune(e, b).Some? {
      SidesDisjoint(e, a, b);
      EvalFrame(Prune(e, b).value, Flip(m, p), m);
    }
  }

  lemma {:induction false} ComplementarySym(e: Expr, a: Side, b: Side)
    requires Complementary(e, a, b)
    ensures Complementary(e, b, a)
  {
    if e.And? {
      forall k | k in e.kids ensures Complementary(k, b, a) {
        ComplementarySym(k, a, b);
      }
    }
  }

  predicate BothParts(k: Expr, a: Side, b: Side, m: Meaning) {
    EvalOption(Prune(k, a), m) && EvalOption(Prune(k, b), m)
  }

  // A cut negation always shows.
  lemma Distinguish(e: Expr, a: Side, b: Side) returns (m: Meaning)
    requires Arity(e, 2) && Linear(e) && Complementary(e, a, b) && !NegationsOneSided(e, a, b)
    ensures Eval(e, m) != BothParts(e, a, b, m)
  {
    var x, p, q := CutShows(e, a, b);
    FlipElsewhere(e, a, b, x, p);
    ComplementarySym(e, a, b);
    FlipElsewhere(e, b, a, x, q);
    m := if !BothParts(e, a, b, Flip(x, p)) then Flip(x, p)
         else if !BothParts(e, a, b, Flip(x, q)) then Flip(x, q)
         else x;
  }

  // The two parts of a tree mean the tree, whatever its predicates mean, exactly
  // when no negated conjunction is cut.
  lemma SplitExact(e: Expr, a: Side, b: Side)
    requires Arity(e, 2) && Linear(e) && Complementary(e, a, b)
    requires Solid(Prune(e, a)) && Solid(Prune(e, b))
    ensures NegationsOneSided(e, a, b) <==>
            (forall m: Meaning :: Eval(e, m) == BothParts(e, a, b, m))
  {
    ArityWeaken(e);
    if NegationsOneSided(e, a, b) {
      forall m: Meaning ensures Eval(e, m) == BothParts(e, a, b, m) {
        SplitMeaning(e, a, b, m);
      }
    } else {
      var m := Distinguish(e, a, b);
    }
  }

  predicate AgreeOn(ps: set<Pred>, m: Meaning, n: Meaning) {
    forall p | p in ps :: m(p) == n(p)
  }

  lemma HeldMeaning(e: Expr, a: Side, b: Side, m: Meaning, n: Meaning)
    requires Arity(e, 1) && Complementary(e, a, b) && NegationsOneSided(e, a, b)
    requires Solid(Prune(e, a)) && Solid(Prune(e, b))
    requires AgreeOn(SidePreds(e, a), m, n) && Eval(e, n)
    ensures Eval(e, m) == EvalOption(Prune(e, b), m)
  {
    SplitMeaning(e, a, b, n);
    SplitMeaning(e, a, b, m);
    if Prune(e, a).Some? {
      EvalFrame(Prune(e, a).value, m, n);
    }
  }

  lemma CutIsMissed(e: Expr, a: Side, b: Side) returns (m: Meaning, n: Meaning)
    requires Arity(e, 2) && Linear(e) && Complementary(e, a, b) && !NegationsOneSided(e, a, b)
    ensures AgreeOn(SidePreds(e, a), m, n) && Eval(e, n) && Eval(e, m) != EvalOption(Prune(e, b), m)
  {
    var x, p, q := CutShows(e, a, b);
    FlipElsewhere(e, a, b, x, p);
    SidesDisjoint(e, a, b);
    if EvalOption(Prune(e, b), x) {
      m, n := x, Flip(x, q);
    } else {
      m, n := Flip(x, p), Flip(x, p);
    }
  }

  // Side b alone stands for the tree, wherever the tree was seen to hold with the
  // same predicates on side a, exactly when no negated conjunction is cut.
  lemma HeldExactly(e: Expr, a: Side, b: Side)
    requires Arity(e, 2) && Linear(e) && Complementary(e, a, b)
    requires Solid(Prune(e, a)) && Solid(Prune(e, b))
    ensures NegationsOneSided(e, a, b) <==>
            forall m: Meaning, n: Meaning | AgreeOn(SidePreds(e, a), m, n) && Eval(e, n) ::
              Eval(e, m) == EvalOption(Prune(e, b), m)
  {
    if NegationsOneSided(e, a, b) {
      ArityWeaken(e);
      forall m: Meaning, n: Meaning | AgreeOn(SidePreds(e, a), m, n) && Eval(e, n)
        ensures Eval(e, m) == EvalOption(Prune(e, b), m)
      {
        HeldMeaning(e, a, b, m, n);
      }
    } else {
      var m, n := CutIsMissed(e, a, b);
    }
  }
}

// When what is left of a tree for the condition of a per-item write still enforces
// the tree: on an item the tree was seen to hold of, and on the item its key gives.

module Enforcing {
  import opened Values
  import opened Expressions
  import opened Splitting
  import opened Access
  import opened SingleItem

  // ---- after an enumerating read --------------------------------------------

  // Whether the part on side b follows from the tree (down), or the tree from the
  // part: a dropped predicate is lost on the way up, and a NOT turns the way round.
  predicate Keepsake(e: Expr, b: Side, down: bool) {
    match e
    case Leaf(negated, _, pred) => down || Keeps(b, pred, negated)
    case Or(_, _, _) => down || KeepsOrs(b)
    case And(negated, _, kids) =>
      if Touches(e, b) then forall k | k in kids :: Keepsake(k, b, down != negated) else down
  }

  // Two moments of an item: its attributes fixed here have not changed.
  ghost predicate SameOn(fixed: set<string>, m: Meaning, n: Meaning) {
    forall p: Pred | p.lhs in fixed :: m(p) == n(p)
  }

  predicate CanVary(e: Expr, fixed: set<string>) {
    exists p | p in Preds(e) :: p.lhs !in fixed
  }

  // Whether the part can be v where the tree is not, though the tree was v for an item
  // with the same attributes fixed. Inside a NOT that takes two children: one that
  // loses a predicate, and one that can change.
  predicate Slips(e: Expr, b: Side, v: bool, fixed: set<string>) {
    && e.And? && Touches(e, b)
    && ((exists k | k in e.kids :: Slips(k, b, v != e.negated, fixed)) ||
        (v == e.negated &&
         exists k, l | k in e.kids && l in e.kids && k != l :: !Keepsake(k, b, true) && CanVary(l, fixed)))
  }

  predicate NamesIn(ps: set<Pred>, names: set<string>) {
    forall p | p in ps :: p.lhs in names
  }

  lemma {:induction false} KeepsakeMeans(e: Expr, b: Side, down: bool, m: Meaning)
    requires Solid(Prune(e, b)) && Keepsake(e, b, down)
    ensures down && Eval(e, m) ==> EvalOption(Prune(e, b), m)
    ensures !down && EvalOption(Prune(e, b), m) ==> Eval(e, m)
  {
    if e.And? {
      PartMeaning(e, b, m);
      if Touches(e, b) {
        forall k | k in e.kids
          ensures down != e.negated && Eval(k, m) ==> EvalOption(Prune(k, b), m)
          ensures down == e.negated && EvalOption(Prune(k, b), m) ==> Eval(k, m)
        {
          SolidKid(e, b, k);
          KeepsakeMeans(k, b, down != e.negated, m);
        }
        AllTruePruned(e.kids, b, m);
      }
    }
  }

  // Where nothing slips, the part being v makes the tree v, if the tree was.
  lemma {:induction false} NothingSlips(e: Expr, a: Side, b: Side, v: bool, fixed: set<string>, m: Meaning, n: Meaning)
    requires Arity(e, 1) && Complementary(e, a, b) && Solid(Prune(e, a)) && Solid(Prune(e, b))
    requires NamesIn(SidePreds(e, a), fixed) && !Slips(e, b, v, fixed) && SameOn(fixed, m, n)
    requires Eval(e, n) == v && EvalOption(Prune(e, b), m) == v
    ensures Eval(e, m) == v
    decreases e, 1
  {
    ComplementarySym(e, a, b);
    if e.And? && Touches(e, b) {
      NothingSlipsInside(e, a, b, v, fixed, m, n);
    } else {
      TouchesASide(e, a, b);
      if Touches(e, b) {
        AllOnOneSide(e, b, a);
      } else {
        AllOnOneSide(e, a, b);
        EvalFrame(e, m, n);
      }
    }
  }

  lemma {:induction false} NothingSlipsInside(e: Expr, a: Side, b: Side, v: bool, fixed: set<string>, m: Meaning,
                                              n: Meaning)
    requires Arity(e, 1) && Complementary(e, a, b) && Solid(Prune(e, a)) && Solid(Prune(e, b))
    requires NamesIn(SidePreds(e, a), fixed) && SameOn(fixed, m, n)
    requires e.And? && Touches(e, b) && !Slips(e, b, v, fixed)
    requires Eval(e, n) == v && EvalOption(Prune(e, b), m) == v
    ensures Eval(e, m) == v
    decreases e, 0
  {
    AllTruePruned(e.kids, b, m);
    PartMeaning(e, b, m);
    forall k | k in e.kids ensures Solid(Prune(k, a)) && Solid(Prune(k, b)) && NamesIn(SidePreds(k, a), fixed) {
      SolidKid(e, a, k);
      SolidKid(e, b, k);
      KidSidePreds(e, a, k);
    }
    if v != e.negated {
      forall k | k in e.kids ensures Eval(k, m) {
        NothingSlips(k, a, b, true, fixed, m, n);
      }
    } else {
      var k :| k in e.kids && !EvalOption(Prune(k, b), m);
      var l :| l in e.kids && !Eval(l, n);
      if !Eval(k, n) {
        NothingSlips(k, a, b, false, fixed, m, n);
      } else if Eval(k, m) && Eval(l, m) {
        LosesOne(k, b, m);
        CanChange(l, fixed, m, n);
        assert false;
      }
    }
  }

  lemma LosesOne(k: Expr, b: Side, m: Meaning)
    requires Solid(Prune(k, b)) && Eval(k, m) && !EvalOption(Prune(k, b), m)
    ensures !Keepsake(k, b, true)
  {
    if Keepsake(k, b, true) {
      KeepsakeMeans(k, b, true, m);
    }
  }

  lemma CanChange(l: Expr, fixed: set<string>, m: Meaning, n: Meaning)
    requires SameOn(fixed, m, n) && Eval(l, m) != Eval(l, n)
    ensures CanVary(l, fixed)
  {
    if !CanVary(l, fixed) {
      EvalFrame(l, m, n);
    }
  }

  // ---- and only then --------------------------------------------------------

  // All but k calm: k decides for the tree, and its part for the part.
  lemma PartDecides(e: Expr, k: Expr, b: Side, n: Meaning)
    requires e.And? && Arity(e, 1) && Linear(e) && k in e.kids && Touches(e, b) && Solid(Prune(e, b))
    requires forall p | p !in Preds(k) :: n(p) == Calm(e)(p)
    ensures EvalOption(Prune(e, b), n) == (EvalOption(Prune(k, b), n) != e.negated)
  {
    forall h | h in e.kids && h != k ensures EvalOption(Prune(h, b), n) {
      KidsApart(e, h, k);
      CalmPart(e, h, b, n);
    }
    AllTruePruned(e.kids, b, n);
    PartMeaning(e, b, n);
  }

  lemma CalmPart(e: Expr, h: Expr, b: Side, n: Meaning)
    requires e.And? && Arity(e, 1) && Linear(e) && h in e.kids && Solid(Prune(e, b))
    requires forall p | p in Preds(h) :: n(p) == Calm(e)(p)
    ensures EvalOption(Prune(h, b), n)
  {
    PatchSets(e, !e.negated, p => true);
    SetsFrame(h, true, Calm(e), n);
    SolidKid(e, b, h);
    if Prune(h, b).Some? {
      SetsPruned(h, b, true, n);
      SetsEval(Prune(h, b).value, true, n);
    }
  }

  // What the child k and its part are under inner, with the others calm.
  lemma PartEmbeds(e: Expr, k: Expr, b: Side, inner: Meaning)
    requires e.And? && Arity(e, 1) && Linear(e) && k in e.kids && Touches(e, b) && Solid(Prune(e, b))
    ensures var m := Mix(k, inner, Calm(e));
            && Eval(e, m) == (Eval(k, inner) != e.negated)
            && EvalOption(Prune(e, b), m) == (EvalOption(Prune(k, b), inner) != e.negated)
  {
    var m := Mix(k, inner, Calm(e));
    KidDecides(e, k, m);
    PartDecides(e, k, b, m);
    EvalFrame(k, inner, m);
    PartFrame(k, b, inner, m);
  }

  lemma PartFrame(k: Expr, b: Side, m: Meaning, n: Meaning)
    requires forall p | p in Preds(k) :: m(p) == n(p)
    ensures EvalOption(Prune(k, b), m) == EvalOption(Prune(k, b), n)
  {
    if Prune(k, b).Some? {
      PrunedPreds(k, b);
      EvalFrame(Prune(k, b).value, m, n);
    }
  }

  // Where a predicate is lost, tree and part can be told apart.
  lemma {:induction false} Lost(e: Expr, b: Side, down: bool) returns (m: Meaning)
    requires Arity(e, 1) && Linear(e) && Solid(Prune(e, b)) && !Keepsake(e, b, down)
    ensures Eval(e, m) == down && EvalOption(Prune(e, b), m) == !down
  {
    if e.And? && Touches(e, b) {
      var k :| k in e.kids && !Keepsake(k, b, down != e.negated);
      SolidKid(e, b, k);
      var inner := Lost(k, b, down != e.negated);
      m := Mix(k, inner, Calm(e));
      PartEmbeds(e, k, b, inner);
    } else {
      PrunedIffTouched(e, b);
      m := Patch(e, false, p => true);
      PatchSets(e, false, p => true);
      SetsEval(e, false, m);
    }
  }

  // Where something slips, it shows: m is where it does, n where the tree was v.
  lemma {:induction false} Slip(e: Expr, b: Side, v: bool, fixed: set<string>) returns (m: Meaning, n: Meaning)
    requires Arity(e, 1) && Linear(e) && Solid(Prune(e, b)) && Slips(e, b, v, fixed)
    ensures SameOn(fixed, m, n)
    ensures Eval(e, n) == v && EvalOption(Prune(e, b), m) == v && Eval(e, m) != v
  {
    hide Eval, Touches, Preds, Keepsake, Prune;
    if k :| k in e.kids && Slips(k, b, v != e.negated, fixed) {
      SolidKid(e, b, k);
      var mk, nk := Slip(k, b, v != e.negated, fixed);
      m, n := Mix(k, mk, Calm(e)), Mix(k, nk, Calm(e));
      PartEmbeds(e, k, b, mk);
      PartEmbeds(e, k, b, nk);
    } else {
      var k, l :| k in e.kids && l in e.kids && k != l && !Keepsake(k, b, true) && CanVary(l, fixed);
      m, n := SlipBetween(e, b, fixed, k, l);
    }
  }

  lemma SlipBetween(e: Expr, b: Side, fixed: set<string>, k: Expr, l: Expr) returns (m: Meaning, n: Meaning)
    requires Arity(e, 1) && Linear(e) && Solid(Prune(e, b)) && Touches(e, b)
    requires e.And? && k in e.kids && l in e.kids && k != l && !Keepsake(k, b, true) && CanVary(l, fixed)
    ensures SameOn(fixed, m, n)
    ensures Eval(e, n) == e.negated && EvalOption(Prune(e, b), m) == e.negated && Eval(e, m) != e.negated
  {
    hide Eval, Touches, Preds, Keepsake, Prune;
    SolidKid(e, b, k);
    var mk := Lost(k, b, true);
    var q :| q in Preds(l) && q.lhs !in fixed;
    var ml := Decisive(l, q, true);
    KidsApart(e, k, l);
    m := Mix(k, mk, Mix(l, ml, Calm(e)));
    n := Flip(m, q);
    BothSet(e, k, l, mk, ml);
    MixedParts(k, l, b, mk, ml, Calm(e), q);
    hide *;
    OneFalse(e, b, k, l, m, n);
  }

  lemma MixedParts(k: Expr, l: Expr, b: Side, mk: Meaning, ml: Meaning, rest: Meaning, q: Pred)
    requires Preds(k) !! Preds(l) && q in Preds(l)
    ensures var m := Mix(k, mk, Mix(l, ml, rest));
            && EvalOption(Prune(k, b), m) == EvalOption(Prune(k, b), mk)
            && Eval(l, Flip(m, q)) == Eval(l, Flip(ml, q))
  {
    hide Preds, Eval;
    var m := Mix(k, mk, Mix(l, ml, rest));
    PartFrame(k, b, mk, m);
    EvalFrame(l, Flip(ml, q), Flip(m, q));
  }

  // Where all children are true, but not the part of one, tree and part differ.
  lemma OneFalse(e: Expr, b: Side, k: Expr, l: Expr, m: Meaning, n: Meaning)
    requires e.And? && Solid(Prune(e, b)) && Touches(e, b) && k in e.kids && l in e.kids
    requires (forall h | h in e.kids :: Eval(h, m)) && !EvalOption(Prune(k, b), m) && !Eval(l, n)
    ensures Eval(e, n) == e.negated && EvalOption(Prune(e, b), m) == e.negated && Eval(e, m) != e.negated
  {
    AllTruePruned(e.kids, b, m);
    PartMeaning(e, b, m);
  }

  // Two children true, the others calm.
  lemma BothSet(e: Expr, k: Expr, l: Expr, mk: Meaning, ml: Meaning)
    requires e.And? && Arity(e, 1) && Linear(e) && k in e.kids && l in e.kids && k != l
    requires Eval(k, mk) && Eval(l, ml)
    ensures forall h | h in e.kids :: Eval(h, Mix(k, mk, Mix(l, ml, Calm(e))))
  {
    var m := Mix(k, mk, Mix(l, ml, Calm(e)));
    KidsApart(e, k, l);
    EvalFrame(k, mk, m);
    EvalFrame(l, ml, m);
    forall h | h in e.kids && h != k && h != l ensures Eval(h, m) {
      KidsApart(e, h, k);
      KidsApart(e, h, l);
      CalmKid(e, h, m);
    }
  }

  // The part on side b enforces the tree on an item the tree was seen to hold of, with
  // the attributes fixed that side a is about, exactly when nothing slips.
  lemma EnforcedExactly(e: Expr, a: Side, b: Side, fixed: set<string>)
    requires Arity(e, 1) && Linear(e) && Complementary(e, a, b) && Solid(Prune(e, a)) && Solid(Prune(e, b))
    requires NamesIn(SidePreds(e, a), fixed)
    ensures !Slips(e, b, true, fixed) <==>
            forall m: Meaning, n: Meaning | SameOn(fixed, m, n) && Eval(e, n) && EvalOption(Prune(e, b), m) ::
              Eval(e, m)
  {
    if Slips(e, b, true, fixed) {
      var m, n := Slip(e, b, true, fixed);
    } else {
      forall m: Meaning, n: Meaning | SameOn(fixed, m, n) && Eval(e, n) && EvalOption(Prune(e, b), m)
        ensures Eval(e, m)
      {
        NothingSlips(e, a, b, true, fixed, m, n);
      }
    }
  }

  // Every item the tree holds of passes the part on side b, whatever the predicates
  // mean, exactly when the part follows from the tree.
  lemma KeptExactly(e: Expr, b: Side)
    requires Arity(e, 1) && Linear(e) && Solid(Prune(e, b))
    ensures Keepsake(e, b, true) <==> forall m: Meaning | Eval(e, m) :: EvalOption(Prune(e, b), m)
  {
    if Keepsake(e, b, true) {
      forall m: Meaning | Eval(e, m) ensures EvalOption(Prune(e, b), m) {
        KeepsakeMeans(e, b, true, m);
      }
    } else {
      var m := Lost(e, b, true);
    }
  }

  // ---- where no negation reaches the dropped side ---------------------------

  lemma {:induction false} AllKeepsake(e: Expr, a: Side, b: Side, v: bool, fixed: set<string>)
    requires Arity(e, 1) && Complementary(e, a, b) && !Touches(e, a)
    ensures Keepsake(e, b, v) && !Slips(e, b, v, fixed)
  {
    if e.And? {
      TouchesASide(e, a, b);
      forall k | k in e.kids ensures Keepsake(k, b, v != e.negated) && !Slips(k, b, v != e.negated, fixed) {
        AllKeepsake(k, a, b, v != e.negated, fixed);
      }
      forall k | k in e.kids ensures Keepsake(k, b, true) {
        AllKeepsake(k, a, b, true, fixed);
      }
    }
  }

  // Then the part follows from the tree, and nothing slips.
  lemma {:induction false} AvoidingKeeps(e: Expr, a: Side, b: Side, fixed: set<string>)
    requires Arity(e, 1) && Complementary(e, a, b) && NegationsAvoid(e, a)
    ensures Keepsake(e, b, true) && !Slips(e, b, true, fixed)
  {
    if e.And? && e.negated {
      AllKeepsake(e, a, b, true, fixed);
    } else if e.And? {
      forall k | k in e.kids ensures Keepsake(k, b, true) && !Slips(k, b, true, fixed) {
        AvoidingKeeps(k, a, b, fixed);
      }
    }
  }

  // ---- on the item a single write addresses ---------------------------------

  predicate KeyLeaf(e: Expr, pk: string, rk: string) {
    e.Leaf? && !e.negated && e.pred.Comparison? && e.pred.op == Eq && (e.pred.lhs == pk || e.pred.lhs == rk)
  }

  // Whether the tree can be x and its part for the condition y, with the key
  // equalities true. What is kept is as it is; what is dropped counts as true, and a
  // key equality is.
  predicate Can(e: Expr, pk: string, rk: string, x: bool, y: bool)
    decreases e, 1
  {
    match e
    case Leaf(negated, _, pred) =>
      if IsCarried(pk, rk, pred, negated) then y && (KeyLeaf(e, pk, rk) ==> x) else x == y
    case Or(_, _, _) => x == y
    case And(negated, _, kids) =>
      if Touches(e, Residual(pk, rk)) then CanAll(kids, pk, rk, x != negated, y != negated)
      else y && CanAll(kids, pk, rk, x != negated, true)
  }

  predicate CanAll(kids: seq<Expr>, pk: string, rk: string, x: bool, y: bool)
    decreases kids, 0
  {
    if kids == [] then x && y
    else
      exists x1: bool, y1: bool, x2: bool, y2: bool ::
        x == (x1 && x2) && y == (y1 && y2) && Can(kids[0], pk, rk, x1, y1) && CanAll(kids[1..], pk, rk, x2, y2)
  }

  lemma {:induction false} WhatIsCan(e: Expr, pk: string, rk: string, m: Meaning)
    requires Solid(Prune(e, Residual(pk, rk))) && GudTrue(Occs(e, true), pk, rk, m)
    ensures Can(e, pk, rk, Eval(e, m), EvalOption(Prune(e, Residual(pk, rk)), m))
    decreases e, 1
  {
    var b := Residual(pk, rk);
    if e.Leaf? {
      assert Occs(e, true)[0] in Occs(e, true);
    } else if e.And? {
      forall k | k in e.kids ensures Solid(Prune(k, b)) {
        SolidKid(e, b, k);
      }
      WhatIsCanAll(e.kids, pk, rk, m);
      AllTruePruned(e.kids, b, m);
      PartMeaning(e, b, m);
    }
  }

  predicate AllParts(kids: seq<Expr>, b: Side, m: Meaning) {
    forall k | k in kids :: EvalOption(Prune(k, b), m)
  }

  lemma {:induction false} WhatIsCanAll(kids: seq<Expr>, pk: string, rk: string, m: Meaning)
    requires GudTrue(OccsOf(kids, true), pk, rk, m) && forall k | k in kids :: Solid(Prune(k, Residual(pk, rk)))
    ensures CanAll(kids, pk, rk, AllTrue(kids, m), AllParts(kids, Residual(pk, rk), m))
    decreases kids, 0
  {
    if kids != [] {
      assert forall o | o in OccsOf(kids, true) :: o in Occs(kids[0], true) || o in OccsOf(kids[1..], true);
      WhatIsCan(kids[0], pk, rk, m);
      WhatIsCanAll(kids[1..], pk, rk, m);
      assert forall k :: k in kids <==> k == kids[0] || k in kids[1..];
    }
  }

  // ---- and what can be, is ---------------------------------------------------

  lemma {:induction false} CanBe(e: Expr, pk: string, rk: string, x: bool, y: bool) returns (m: Meaning)
    requires Arity(e, 1) && Linear(e) && Solid(Prune(e, Residual(pk, rk))) && Can(e, pk, rk, x, y)
    ensures GudTrue(Occs(e, true), pk, rk, m)
    ensures Eval(e, m) == x && EvalOption(Prune(e, Residual(pk, rk)), m) == y
    decreases e, 1
  {
    var b := Residual(pk, rk);
    if e.Leaf? {
      m := (p: Pred) => x != e.negated;
    } else if e.Or? {
      m := Patch(e, x, p => true);
      PatchSets(e, x, p => true);
      SetsEval(e, x, m);
      OffSpineAll(e.kids, false);
    } else {
      forall k | k in e.kids ensures Solid(Prune(k, b)) {
        SolidKid(e, b, k);
      }
      m := CanBeAll(e.kids, pk, rk, x != e.negated, if Touches(e, b) then y != e.negated else true);
      AllTruePruned(e.kids, b, m);
      PartMeaning(e, b, m);
    }
  }

  lemma {:induction false} CanBeAll(kids: seq<Expr>, pk: string, rk: string, x: bool, y: bool) returns (m: Meaning)
    requires forall k | k in kids :: Arity(k, 1) && Linear(k) && Solid(Prune(k, Residual(pk, rk)))
    requires forall i, j | 0 <= i < j < |kids| :: Preds(kids[i]) !! Preds(kids[j])
    requires CanAll(kids, pk, rk, x, y)
    ensures GudTrue(OccsOf(kids, true), pk, rk, m)
    ensures AllTrue(kids, m) == x && AllParts(kids, Residual(pk, rk), m) == y
    decreases kids, 0
  {
    if kids == [] {
      m := p => true;
    } else {
      var x1: bool, y1: bool, x2: bool, y2: bool :|
        x == (x1 && x2) && y == (y1 && y2) && Can(kids[0], pk, rk, x1, y1) && CanAll(kids[1..], pk, rk, x2, y2);
      var first := CanBe(kids[0], pk, rk, x1, y1);
      var rest := CanBeAll(kids[1..], pk, rk, x2, y2);
      m := Mix(kids[0], first, rest);
      FirstAndRest(kids, pk, rk, first, rest);
    }
  }

  lemma FirstAndRest(kids: seq<Expr>, pk: string, rk: string, first: Meaning, rest: Meaning)
    requires kids != [] && forall i, j | 0 <= i < j < |kids| :: Preds(kids[i]) !! Preds(kids[j])
    requires GudTrue(Occs(kids[0], true), pk, rk, first) && GudTrue(OccsOf(kids[1..], true), pk, rk, rest)
    ensures var m, b := Mix(kids[0], first, rest), Residual(pk, rk);
            && GudTrue(OccsOf(kids, true), pk, rk, m)
            && AllTrue(kids, m) == (Eval(kids[0], first) && AllTrue(kids[1..], rest))
            && AllParts(kids, b, m) == (EvalOption(Prune(kids[0], b), first) && AllParts(kids[1..], b, rest))
  {
    var m, b := Mix(kids[0], first, rest), Residual(pk, rk);
    assert forall k :: k in kids <==> k == kids[0] || k in kids[1..];
    EvalFrame(kids[0], first, m);
    PartFrame(kids[0], b, first, m);
    forall k | k in kids[1..]
      ensures Eval(k, m) == Eval(k, rest) && EvalOption(Prune(k, b), m) == EvalOption(Prune(k, b), rest)
      ensures Preds(k) !! Preds(kids[0])
    {
      var j :| 1 <= j < |kids| && kids[j] == k;
      assert Preds(kids[0]) !! Preds(kids[j]);
      EvalFrame(k, rest, m);
      PartFrame(k, b, rest, m);
    }
    forall o | o in OccsOf(kids, true) && OnKey(o, pk, rk) ensures m(o.pred) {
      if o in Occs(kids[0], true) {
        OccPred(kids[0], true, o);
      } else {
        var k := KidOfOcc(kids[1..], true, o);
        OccPred(k, true, o);
      }
    }
  }

  // Key and condition of a single write enforce the clause on the item the key
  // gives, exactly when the tree cannot be false where they are true.
  lemma SingleWriteSafe(e: Expr, pk: string, rk: string)
    requires Arity(e, 1) && Linear(e) && Solid(Prune(e, Residual(pk, rk)))
    ensures !Can(e, pk, rk, false, true) <==> forall m: Meaning | KeyAndCondition(e, pk, rk, m) :: Eval(e, m)
  {
    if Can(e, pk, rk, false, true) {
      var m := CanBe(e, pk, rk, false, true);
    } else {
      forall m: Meaning | KeyAndCondition(e, pk, rk, m) ensures Eval(e, m) {
        SingleWriteSound(e, pk, rk, m);
      }
    }
  }

  // And for any tree it is enough.
  lemma SingleWriteSound(e: Expr, pk: string, rk: string, m: Meaning)
    requires Solid(Prune(e, Residual(pk, rk))) && !Can(e, pk, rk, false, true) && KeyAndCondition(e, pk, rk, m)
    ensures Eval(e, m)
  {
    WhatIsCan(e, pk, rk, m);
  }
}

// From the clause a user wrote to the tree: the flattening factories for AND and
// OR, the flags NOT and parentheses set, and what the parser's actions make of them.

module Clauses {
  import opened Values
  import opened Expressions
  import opened Splitting
  import opened Reader
  import opened Access

  // ---- the factories --------------------------------------------------------

  predicate Spliced(a: Expr, b: Expr) {
    a.negated == b.negated && !a.Leaf? && a.And? == b.And? && a.Or? == b.Or? && !a.parens && !b.parens
  }

  function MakeAnd(a: Expr, b: Expr): Expr {
    if Spliced(a, b) && a.And? then And(a.negated, false, a.kids + b.kids)
    else if !a.negated && a.And? then And(false, a.parens, a.kids + [b])
    else And(false, false, [a, b])
  }

  function MakeOr(a: Expr, b: Expr): Expr {
    if Spliced(a, b) && a.Or? then Or(a.negated, false, a.kids + b.kids)
    else if !a.negated && a.Or? then Or(false, a.parens, a.kids + [b])
    else Or(false, false, [a, b])
  }

  function Negate(e: Expr): Expr {
    match e
    case Leaf(n, p, pred) => Leaf(!n, p, pred)
    case And(n, p, kids) => And(!n, p, kids)
    case Or(n, p, kids) => Or(!n, p, kids)
  }

  function Group(e: Expr): Expr {
    match e
    case Leaf(n, _, pred) => Leaf(n, true, pred)
    case And(n, _, kids) => And(n, true, kids)
    case Or(n, _, kids) => Or(n, true, kids)
  }

  // Every negated conjunction or disjunction is a parenthesised one.
  predicate NegatedGrouped(e: Expr) {
    e.Leaf? || ((e.negated ==> e.parens) && forall k | k in e.kids :: NegatedGrouped(k))
  }

  // The one way a factory goes wrong: two negated, unparenthesised lists become one.
  predicate NegatedSplice(a: Expr, b: Expr) {
    Spliced(a, b) && a.negated
  }

  lemma {:induction false} OccsOfConcat(a: seq<Expr>, b: seq<Expr>, spine: bool)
    ensures OccsOf(a + b, spine) == OccsOf(a, spine) + OccsOf(b, spine)
  {
    if a == [] {
      assert a + b == b;
    } else {
      assert (a + b)[1..] == a[1..] + b;
      OccsOfConcat(a[1..], b, spine);
    }
  }

  lemma ListEval(a: seq<Expr>, b: seq<Expr>, m: Meaning)
    ensures (forall k | k in a + b :: Eval(k, m)) <==>
            (forall k | k in a :: Eval(k, m)) && (forall k | k in b :: Eval(k, m))
    ensures (exists k | k in a + b :: Eval(k, m)) <==>
            (exists k | k in a :: Eval(k, m)) || (exists k | k in b :: Eval(k, m))
  {
    assert forall k :: k in a + b <==> k in a || k in b;
  }

  // Short of that, the factories build conjunctions and disjunctions.
  lemma MakeMeans(a: Expr, b: Expr, m: Meaning)
    ensures !(NegatedSplice(a, b) && a.And?) ==> Eval(MakeAnd(a, b), m) == (Eval(a, m) && Eval(b, m))
    ensures !(NegatedSplice(a, b) && a.Or?) ==> Eval(MakeOr(a, b), m) == (Eval(a, m) || Eval(b, m))
  {
    if !a.Leaf? {
      ListEval(a.kids, [b], m);
      if !b.Leaf? {
        ListEval(a.kids, b.kids, m);
      }
    }
    ListEval([a], [b], m);
    assert [a] + [b] == [a, b];
  }

  // They fail on a negated splice, for any two trees without a common predicate.
  lemma NegatedSpliceShows(a: Expr, b: Expr) returns (m: Meaning)
    requires Arity(a, 1) && Arity(b, 1) && Linear(a) && Linear(b) && Preds(a) !! Preds(b)
    requires NegatedSplice(a, b)
    ensures a.And? ==> Eval(MakeAnd(a, b), m) != (Eval(a, m) && Eval(b, m))
    ensures a.Or? ==> Eval(MakeOr(a, b), m) != (Eval(a, m) || Eval(b, m))
  {
    var half := Patch(a, true, p => true);
    m := Patch(b, false, half);
    PatchSets(a, true, p => true);
    PatchSets(b, false, half);
    SetsFrame(a, true, half, m);
    SetsEval(a, true, m);
    SetsEval(b, false, m);
    ListEval(a.kids, b.kids, m);
  }

  lemma OneOrTwoOccs(a: Expr, b: Expr, spine: bool)
    ensures OccsOf([b], spine) == Occs(b, spine) && OccsOf([a, b], spine) == Occs(a, spine) + Occs(b, spine)
  {
    hide Occs;
    assert [b][1..] == [] && [a, b][1..] == [b];
    assert OccsOf([b], spine) == Occs(b, spine) + [];
  }

  lemma AppendedOccs(kids: seq<Expr>, b: Expr, spine: bool)
    ensures OccsOf(kids + [b], spine) == OccsOf(kids, spine) + Occs(b, spine)
  {
    OneOrTwoOccs(b, b, spine);
    OccsOfConcat(kids, [b], spine);
  }

  // Splicing, appending and wrapping all keep the predicates, in order, with the
  // spine a conjunction preserves and a disjunction ends.
  lemma MakeOccs(a: Expr, b: Expr, spine: bool)
    ensures Occs(MakeAnd(a, b), spine) == Occs(a, spine) + Occs(b, spine)
    ensures Occs(MakeOr(a, b), spine) == Occs(a, false) + Occs(b, false)
  {
    hide OccsOf;
    OneOrTwoOccs(a, b, spine);
    OneOrTwoOccs(a, b, false);
    if !a.Leaf? {
      AppendedOccs(a.kids, b, spine);
      AppendedOccs(a.kids, b, false);
      if !b.Leaf? {
        OccsOfConcat(a.kids, b.kids, spine);
        OccsOfConcat(a.kids, b.kids, false);
      }
    }
  }

  lemma MakeCounts(a: Expr, b: Expr, name: string)
    ensures CountLhs(Occs(MakeAnd(a, b), true), name) == CountLhs(Occs(a, true), name) + CountLhs(Occs(b, true), name)
    ensures CountGud(Occs(MakeAnd(a, b), true), name) == CountGud(Occs(a, true), name) + CountGud(Occs(b, true), name)
    ensures CountGud(Occs(MakeOr(a, b), true), name) == 0
  {
    MakeOccs(a, b, true);
    CountsConcat(Occs(a, true), Occs(b, true), name);
    OffSpine(a, false);
    OffSpine(b, false);
    CountPositive(Occs(MakeOr(a, b), true), name);
  }

  lemma MakeKeepsShape(a: Expr, b: Expr)
    requires Arity(a, 2) && Arity(b, 2)
    ensures Arity(MakeAnd(a, b), 2) && Arity(MakeOr(a, b), 2)
    ensures Guarded(a) && Guarded(b) ==> Guarded(MakeOr(a, b))
    ensures Guarded(a) && Guarded(b) && !BareOr(a) && !BareOr(b) ==> Guarded(MakeAnd(a, b))
    ensures NegatedGrouped(a) && NegatedGrouped(b) ==> NegatedGrouped(MakeAnd(a, b)) && NegatedGrouped(MakeOr(a, b))
  {
    forall k, e | e in {MakeAnd(a, b), MakeOr(a, b)} && k in e.kids
      ensures k == a || k == b || (!a.Leaf? && k in a.kids) || (!b.Leaf? && k in b.kids)
    {
    }
  }

  // ---- the clause as written ------------------------------------------------

  // The productions of the grammar: an element, the three elements that stand for
  // more than one predicate or a negated one, NOT, parentheses, AND, OR.
  datatype Clause =
    | Element(pred: Pred)
    | NotEqual(lhs: string, rhs: Value)
    | NotExists(lhs: string)
    | IsNotNull(lhs: string)
    | NotClause(inner: Clause)
    | ParenClause(inner: Clause)
    | AndClause(left: Clause, right: Clause)
    | OrClause(left: Clause, right: Clause)

  predicate Says(c: Clause, m: Meaning) {
    match c
    case Element(p) => m(p)
    case NotEqual(lhs, rhs) => !m(Comparison(lhs, Eq, rhs))
    case NotExists(lhs) => !m(AttributeExists(lhs))
    case IsNotNull(lhs) => !m(Comparison(lhs, Eq, Null)) && m(AttributeExists(lhs))
    case NotClause(d) => !Says(d, m)
    case ParenClause(d) => Says(d, m)
    case AndClause(l, r) => Says(l, m) && Says(r, m)
    case OrClause(l, r) => Says(l, m) || Says(r, m)
  }

  // The trees the parser builds: NOT over AND over OR, AND and OR to the left, and
  // an IN has a value.
  predicate Parsed(c: Clause) {
    match c
    case Element(p) => p.In? ==> p.choices != []
    case NotClause(d) => Parsed(d) && !d.AndClause? && !d.OrClause?
    case ParenClause(d) => Parsed(d)
    case AndClause(l, r) => Parsed(l) && Parsed(r) && !l.OrClause? && !r.OrClause? && !r.AndClause?
    case OrClause(l, r) => Parsed(l) && Parsed(r) && !r.OrClause?
    case _ => true
  }

  function NotNullTree(lhs: string): Expr {
    MakeAnd(Leaf(true, false, Comparison(lhs, Eq, Null)), Leaf(false, false, AttributeExists(lhs)))
  }

  // The parser's actions.
  function Build(c: Clause): Expr {
    match c
    case Element(p) => Leaf(false, false, p)
    case NotEqual(lhs, rhs) => Leaf(true, false, Comparison(lhs, Eq, rhs))
    case NotExists(lhs) => Leaf(true, false, AttributeExists(lhs))
    case IsNotNull(lhs) => NotNullTree(lhs)
    case NotClause(d) => Negate(Build(d))
    case ParenClause(d) => Group(Build(d))
    case AndClause(l, r) => MakeAnd(Build(l), Build(r))
    case OrClause(l, r) => MakeOr(Build(l), Build(r))
  }

  // Every tree that comes from a clause has the shape the other results ask for.
  lemma {:induction false} BuildShape(c: Clause)
    requires Parsed(c)
    ensures Arity(Build(c), 2) && Guarded(Build(c))
    ensures BareOr(Build(c)) ==> c.OrClause?
    ensures Build(c).Or? && !Build(c).parens ==> !Build(c).negated
  {
    match c {
      case IsNotNull(lhs) =>
        MakeKeepsShape(Leaf(true, false, Comparison(lhs, Eq, Null)), Leaf(false, false, AttributeExists(lhs)));
      case NotClause(d) =>
        BuildShape(d);
      case ParenClause(d) =>
        BuildShape(d);
      case AndClause(l, r) =>
        BuildShape(l);
        BuildShape(r);
        MakeKeepsShape(Build(l), Build(r));
      case OrClause(l, r) =>
        BuildShape(l);
        BuildShape(r);
        MakeKeepsShape(Build(l), Build(r));
      case _ =>
    }
  }

  // `x IS NOT NULL` under an odd number of NOTs: the one clause whose tree is a
  // negated conjunction without parentheses.
  predicate NegatedNotNull(c: Clause) {
    c.NotClause? && (c.inner.IsNotNull? || (c.inner.NotClause? && NegatedNotNull(c.inner.inner)))
  }

  // No two of these stand side by side in an AND.
  predicate SpliceFree(c: Clause) {
    match c
    case NotClause(d) => SpliceFree(d)
    case ParenClause(d) => SpliceFree(d)
    case AndClause(l, r) => SpliceFree(l) && SpliceFree(r) && !(NegatedNotNull(l) && NegatedNotNull(r))
    case OrClause(l, r) => SpliceFree(l) && SpliceFree(r)
    case _ => true
  }

  lemma {:induction false} BareConjunctions(c: Clause)
    requires Parsed(c) && SpliceFree(c)
    ensures Build(c).And? && Build(c).negated && !Build(c).parens <==> NegatedNotNull(c)
    ensures Build(c).And? && !Build(c).negated && !Build(c).parens && c.NotClause? ==> NegatedNotNull(NotClause(c))
  {
    match c {
      case NotClause(d) =>
        BareConjunctions(d);
        if d.NotClause? {
          BareConjunctions(d.inner);
        }
      case AndClause(l, r) =>
        BareConjunctions(l);
        BareConjunctions(r);
      case _ =>
    }
  }

  lemma {:induction false} BuildMeans(c: Clause, m: Meaning)
    requires Parsed(c) && SpliceFree(c)
    ensures Eval(Build(c), m) == Says(c, m)
  {
    match c {
      case IsNotNull(lhs) =>
        MakeMeans(Leaf(true, false, Comparison(lhs, Eq, Null)), Leaf(false, false, AttributeExists(lhs)), m);
      case NotClause(d) => BuildMeans(d, m);
      case ParenClause(d) => BuildMeans(d, m);
      case AndClause(l, r) =>
        BuildMeans(l, m);
        BuildMeans(r, m);
        BareConjunctions(l);
        BareConjunctions(r);
        MakeMeans(Build(l), Build(r), m);
      case OrClause(l, r) =>
        BuildMeans(l, m);
        BuildMeans(r, m);
        BuildShape(l);
        MakeMeans(Build(l), Build(r), m);
      case _ =>
    }
  }

  // ---- and it fails on every other clause -----------------------------------

  lemma ListSets(a: seq<Expr>, b: seq<Expr>, v: bool, m: Meaning)
    ensures (forall k | k in a + b :: Sets(k, v, m)) <==>
            (forall k | k in a :: Sets(k, v, m)) && (forall k | k in b :: Sets(k, v, m))
  {
    assert forall k :: k in a + b <==> k in a || k in b;
  }

  lemma SetsMake(a: Expr, b: Expr, v: bool, m: Meaning)
    ensures Sets(MakeAnd(a, b), v, m) <==> Sets(a, v, m) && Sets(b, v, m)
    ensures Sets(MakeOr(a, b), v, m) <==> Sets(a, v, m) && Sets(b, v, m)
  {
    if !a.Leaf? {
      ListSets(a.kids, [b], v, m);
      if !b.Leaf? {
        ListSets(a.kids, b.kids, v != a.negated, m);
      }
    }
    ListSets([a], [b], v, m);
    assert [a] + [b] == [a, b];
  }

  // A tree set one way says so as a clause, spliced or not.
  lemma {:induction false} SetsSays(c: Clause, v: bool, m: Meaning)
    requires Sets(Build(c), v, m)
    ensures Says(c, m) == v
  {
    match c {
      case IsNotNull(lhs) =>
        SetsMake(Leaf(true, false, Comparison(lhs, Eq, Null)), Leaf(false, false, AttributeExists(lhs)), v, m);
      case NotClause(d) =>
        SetsSays(d, !v, m);
      case ParenClause(d) =>
        SetsSays(d, v, m);
      case AndClause(l, r) =>
        SetsMake(Build(l), Build(r), v, m);
        SetsSays(l, v, m);
        SetsSays(r, v, m);
      case OrClause(l, r) =>
        SetsMake(Build(l), Build(r), v, m);
        SetsSays(l, v, m);
        SetsSays(r, v, m);
      case _ =>
    }
  }

  lemma MakePreds(a: Expr, b: Expr)
    ensures Preds(MakeAnd(a, b)) == Preds(a) + Preds(b) == Preds(MakeOr(a, b))
  {
    forall e | e in {MakeAnd(a, b), MakeOr(a, b)} ensures Preds(e) == Preds(a) + Preds(b) {
      if !a.Leaf? && e.kids == a.kids + [b] {
        assert forall k :: k in e.kids <==> k in a.kids || k == b;
      } else if !a.Leaf? && !b.Leaf? && e.kids == a.kids + b.kids {
        assert forall k :: k in e.kids <==> k in a.kids || k in b.kids;
      } else {
        assert forall k :: k in e.kids <==> k == a || k == b;
      }
    }
  }

  lemma MakeLinear(a: Expr, b: Expr)
    ensures Linear(MakeAnd(a, b)) || Linear(MakeOr(a, b)) ==> Linear(a) && Linear(b) && Preds(a) !! Preds(b)
  {
    forall e | e in {MakeAnd(a, b), MakeOr(a, b)} && Linear(e)
      ensures Linear(a) && Linear(b) && Preds(a) !! Preds(b)
    {
      if !a.Leaf? && e.kids == a.kids + [b] {
        LinearParts(e, a.kids, [b]);
      } else if !a.Leaf? && !b.Leaf? && e.kids == a.kids + b.kids {
        LinearParts(e, a.kids, b.kids);
      } else {
        assert e.kids[0] in e.kids && e.kids[1] in e.kids;
      }
    }
  }

  lemma LinearParts(e: Expr, x: seq<Expr>, y: seq<Expr>)
    requires !e.Leaf? && Linear(e) && e.kids == x + y
    ensures forall k | k in x || k in y :: Linear(k)
    ensures forall i, j | 0 <= i < j < |x| :: Preds(x[i]) !! Preds(x[j])
    ensures forall i, j | 0 <= i < j < |y| :: Preds(y[i]) !! Preds(y[j])
    ensures forall k, l | k in x && l in y :: Preds(k) !! Preds(l)
  {
    forall i, j | 0 <= i < j < |x| ensures Preds(x[i]) !! Preds(x[j]) {
      assert x[i] == e.kids[i] && x[j] == e.kids[j];
    }
    forall i, j | 0 <= i < j < |y| ensures Preds(y[i]) !! Preds(y[j]) {
      assert y[i] == e.kids[|x| + i] && y[j] == e.kids[|x| + j];
    }
    forall i, j | 0 <= i < |x| && 0 <= j < |y| ensures Preds(x[i]) !! Preds(y[j]) {
      assert x[i] == e.kids[i] && y[j] == e.kids[|x| + j];
    }
  }

  lemma {:induction false} SaysFrame(c: Clause, m: Meaning, n: Meaning)
    requires forall p | p in Preds(Build(c)) :: m(p) == n(p)
    ensures Says(c, m) == Says(c, n)
  {
    match c {
      case IsNotNull(lhs) =>
        MakePreds(Leaf(true, false, Comparison(lhs, Eq, Null)), Leaf(false, false, AttributeExists(lhs)));
      case NotClause(d) => SaysFrame(d, m, n);
      case ParenClause(d) => SaysFrame(d, m, n);
      case AndClause(l, r) =>
        MakePreds(Build(l), Build(r));
        SaysFrame(l, m, n);
        SaysFrame(r, m, n);
      case OrClause(l, r) =>
        MakePreds(Build(l), Build(r));
        SaysFrame(l, m, n);
        SaysFrame(r, m, n);
      case _ =>
    }
  }

  // m on the predicates of c, and d set to v.
  lemma Beside(c: Clause, d: Clause, v: bool, m: Meaning) returns (n: Meaning)
    requires Linear(Build(d)) && Arity(Build(d), 1) && Preds(Build(c)) !! Preds(Build(d))
    ensures Eval(Build(c), n) == Eval(Build(c), m) && Says(c, n) == Says(c, m)
    ensures Eval(Build(d), n) == v == Says(d, n)
  {
    n := Patch(Build(d), v, m);
    PatchSets(Build(d), v, m);
    SetsEval(Build(d), v, n);
    SetsSays(d, v, n);
    EvalFrame(Build(c), m, n);
    SaysFrame(c, m, n);
  }

  lemma SpliceShows(l: Clause, r: Clause) returns (m: Meaning)
    requires Parsed(l) && Parsed(r) && Linear(MakeAnd(Build(l), Build(r)))
    requires NegatedSplice(Build(l), Build(r)) && Build(l).And?
    ensures Eval(MakeAnd(Build(l), Build(r)), m) != (Says(l, m) && Says(r, m))
  {
    var a, b := Build(l), Build(r);
    MakeLinear(a, b);
    BuildShape(l);
    BuildShape(r);
    ArityWeaken(a);
    ArityWeaken(b);
    var half := Patch(a, true, p => true);
    m := Patch(b, false, half);
    PatchSets(a, true, p => true);
    PatchSets(b, false, half);
    SetsFrame(a, true, half, m);
    SetsSays(l, true, m);
    SetsSays(r, false, m);
    SetsEval(a, true, m);
    SetsEval(b, false, m);
    ListEval(a.kids, b.kids, m);
  }

  lemma {:induction false} BuildShows(c: Clause) returns (m: Meaning)
    requires Parsed(c) && Linear(Build(c)) && !SpliceFree(c)
    ensures Eval(Build(c), m) != Says(c, m)
    decreases c, 1
  {
    match c {
      case NotClause(d) => m := BuildShows(d);
      case ParenClause(d) => m := BuildShows(d);
      case AndClause(l, r) => m := ConjunctShows(l, r);
      case OrClause(l, r) =>
        MakeLinear(Build(l), Build(r));
        BuildShape(l);
        BuildShape(r);
        ArityWeaken(Build(l));
        ArityWeaken(Build(r));
        if !SpliceFree(l) {
          var inner := BuildShows(l);
          m := Beside(l, r, false, inner);
        } else {
          var inner := BuildShows(r);
          m := Beside(r, l, false, inner);
        }
        MakeMeans(Build(l), Build(r), m);
    }
  }

  lemma {:induction false} ConjunctShows(l: Clause, r: Clause) returns (m: Meaning)
    requires Parsed(AndClause(l, r)) && Linear(Build(AndClause(l, r))) && !SpliceFree(AndClause(l, r))
    ensures Eval(Build(AndClause(l, r)), m) != (Says(l, m) && Says(r, m))
    decreases AndClause(l, r), 0
  {
    if NegatedSplice(Build(l), Build(r)) && Build(l).And? {
      m := SpliceShows(l, r);
    } else {
      MakeLinear(Build(l), Build(r));
      BuildShape(l);
      BuildShape(r);
      ArityWeaken(Build(l));
      ArityWeaken(Build(r));
      if !SpliceFree(l) {
        var inner := BuildShows(l);
        m := Beside(l, r, true, inner);
      } else if !SpliceFree(r) {
        var inner := BuildShows(r);
        m := Beside(r, l, true, inner);
      } else {
        BareConjunctions(l);
        BareConjunctions(r);
        assert false;
      }
      MakeMeans(Build(l), Build(r), m);
    }
  }

  // For a clause that writes no predicate twice, the parsed tree means the clause
  // exactly when it is free of such splices.
  lemma BuildExact(c: Clause)
    requires Parsed(c) && Linear(Build(c))
    ensures SpliceFree(c) <==> forall m: Meaning :: Eval(Build(c), m) == Says(c, m)
  {
    if SpliceFree(c) {
      forall m: Meaning ensures Eval(Build(c), m) == Says(c, m) {
        BuildMeans(c, m);
      }
    } else {
      var m := BuildShows(c);
    }
  }

  // `NOT a IS NOT NULL AND NOT b IS NOT NULL` holds of items with a null b and an
  // a that is there and not null, as the tree has it.
  lemma SpliceExample(a: string, b: string)
    requires a != b
    ensures var c := AndClause(NotClause(IsNotNull(a)), NotClause(IsNotNull(b)));
            && Parsed(c) && !SpliceFree(c) && !NegatedGrouped(Build(c))
            && exists m: Meaning :: Eval(Build(c), m) && !Says(c, m)
  {
    var c := AndClause(NotClause(IsNotNull(a)), NotClause(IsNotNull(b)));
    var m: Meaning := (p: Pred) => p.AttributeExists? || p.lhs == b;
    var left, right := NotNullTree(a).kids, NotNullTree(b).kids;
    assert Build(IsNotNull(a)) == And(false, false, left) && Build(IsNotNull(b)) == And(false, false, right);
    assert Build(c.left) == And(true, false, left);
    assert Build(c.right) == And(true, false, right);
    assert Build(c) == And(true, false, left + right);
    assert right[0] in left + right && !Eval(right[0], m);
    assert Eval(Build(c), m) && !Says(c.left, m);
  }
}

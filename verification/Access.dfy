// Choosing GetItem, Query or Scan for a WHERE tree: the rule `plan_query` decides,
// stated over the predicates that occur in the tree, and what a plan is worth.

module Access {
  import opened Values
  import opened Expressions
  import opened Splitting

  // ---- counting occurrences -------------------------------------------------

  // The only form that supplies a key component: an `=` that is not negated and
  // has no OR above it. A negated conjunction above it is not looked at.
  predicate IsGud(o: Occ) {
    o.spine && !o.negated && o.pred.Comparison? && o.pred.op == Eq
  }

  function CountLhs(os: seq<Occ>, name: string): nat {
    if os == [] then 0 else (if os[0].pred.lhs == name then 1 else 0) + CountLhs(os[1..], name)
  }

  function CountGud(os: seq<Occ>, name: string): nat {
    if os == [] then 0
    else (if os[0].pred.lhs == name && IsGud(os[0]) then 1 else 0) + CountGud(os[1..], name)
  }

  // The first equality on each of the two key attributes.
  function GudKey(os: seq<Occ>, pk: string, rk: string): Item {
    if os == [] then map[]
    else
      var rest := GudKey(os[1..], pk, rk);
      var o := os[0];
      if IsGud(o) && (o.pred.lhs == pk || o.pred.lhs == rk) then rest[o.pred.lhs := o.pred.rhs] else rest
  }

  lemma {:induction false} CountsConcat(a: seq<Occ>, b: seq<Occ>, name: string)
    ensures CountLhs(a + b, name) == CountLhs(a, name) + CountLhs(b, name)
    ensures CountGud(a + b, name) == CountGud(a, name) + CountGud(b, name)
  {
    if a == [] {
      assert a + b == b;
    } else {
      assert (a + b)[1..] == a[1..] + b;
      CountsConcat(a[1..], b, name);
    }
  }

  lemma {:induction false} GudKeyConcat(a: seq<Occ>, b: seq<Occ>, pk: string, rk: string)
    ensures GudKey(a + b, pk, rk) == GudKey(b, pk, rk) + GudKey(a, pk, rk)
  {
    if a == [] {
      assert a + b == b;
    } else {
      assert (a + b)[1..] == a[1..] + b;
      GudKeyConcat(a[1..], b, pk, rk);
    }
  }

  lemma {:induction false} CountPositive(os: seq<Occ>, name: string)
    ensures CountLhs(os, name) > 0 <==> Mentioned(os, name)
    ensures CountGud(os, name) > 0 <==> exists o :: o in os && o.pred.lhs == name && IsGud(o)
    ensures CountGud(os, name) <= CountLhs(os, name) <= |os|
  {
    if os != [] {
      CountPositive(os[1..], name);
      assert forall o :: o in os <==> o == os[0] || o in os[1..];
    }
  }

  predicate Mentioned(os: seq<Occ>, name: string) {
    exists o | o in os :: o.pred.lhs == name
  }

  // Mentioned once, and that by a key equality.
  predicate OnceByEquality(os: seq<Occ>, name: string) {
    exists i | 0 <= i < |os| ::
      os[i].pred.lhs == name && IsGud(os[i]) &&
      forall j | 0 <= j < |os| && j != i :: os[j].pred.lhs != name
  }

  lemma {:induction false} OnceByCounts(os: seq<Occ>, name: string)
    ensures CountGud(os, name) == 1 && CountLhs(os, name) == 1 <==> OnceByEquality(os, name)
  {
    CountPositive(os, name);
    if os != [] {
      CountPositive(os[1..], name);
      OnceByCounts(os[1..], name);
      if OnceByEquality(os, name) {
        var i :| 0 <= i < |os| && os[i].pred.lhs == name && IsGud(os[i]) &&
          forall j | 0 <= j < |os| && j != i :: os[j].pred.lhs != name;
        if i > 0 {
          assert os[1..][i - 1] == os[i];
        }
      }
    }
  }

  // ---- the rule -------------------------------------------------------------

  predicate LeafSafe(p: Pred, negated: bool, pk: seq<string>, sk: seq<string>) {
    if p.lhs !in pk && p.lhs !in sk then true
    else if p.Comparison? then
      if p.lhs in pk then p.op == Eq && !negated else !(p.op == Eq && negated)
    else (p.Between? || p.BeginsWith?) && p.lhs in sk && !negated
  }

  // Legal in a Query with these keys: below an OR no key attribute is.
  predicate SafeOcc(o: Occ, pk: seq<string>, sk: seq<string>) {
    if o.spine then LeafSafe(o.pred, o.negated, pk, sk)
    else o.pred.lhs !in pk && o.pred.lhs !in sk
  }

  // A Query with the first n sort keys: each partition key is given once, by an
  // equality; exactly the first n sort keys are mentioned, all but the last of
  // them once, by an equality; and every mention of a key attribute is legal.
  predicate QueryRule(os: seq<Occ>, pk: seq<string>, rk: seq<string>, n: nat) {
    && n <= |rk|
    && (forall p | p in pk :: OnceByEquality(os, p))
    && (forall i | 0 <= i < |rk| :: Mentioned(os, rk[i]) <==> i < n)
    && (forall i | 0 <= i < n - 1 :: OnceByEquality(os, rk[i]))
    && (forall o | o in os && (o.pred.lhs in pk || o.pred.lhs in rk) :: SafeOcc(o, pk, rk[..n]))
  }

  datatype QueryKeyPlan = QueryKeyPlan(pk: seq<string>, sk: seq<string>)

  // A sort key mentioned after one that is not: no number of sort keys fits.
  lemma Gap(os: seq<Occ>, pk: seq<string>, rk: seq<string>, i: nat, j: nat)
    requires i < j < |rk| && !Mentioned(os, rk[i]) && Mentioned(os, rk[j])
    ensures forall n: nat :: !QueryRule(os, pk, rk, n)
  {
    assert Mentioned(os, rk[j]) && !Mentioned(os, rk[i]);
  }

  lemma PrefixForced(os: seq<Occ>, pk: seq<string>, rk: seq<string>, n: nat)
    requires n <= |rk| && forall j | 0 <= j < |rk| :: Mentioned(os, rk[j]) <==> j < n
    ensures forall k: nat | QueryRule(os, pk, rk, k) :: k == n
  {
    forall k: nat | QueryRule(os, pk, rk, k) ensures k == n {
      var least := if k < n then k else n;
      assert least == |rk| || (Mentioned(os, rk[least]) <==> least < k);
    }
  }

  ghost function PlannedQuery(os: seq<Occ>, pk: seq<string>, rk: seq<string>): Option<QueryKeyPlan> {
    if exists n: nat :: QueryRule(os, pk, rk, n) then
      var n: nat :| QueryRule(os, pk, rk, n);
      Some(QueryKeyPlan(pk, rk[..n]))
    else None
  }

  lemma PlannedIs(os: seq<Occ>, pk: seq<string>, rk: seq<string>, n: nat)
    requires QueryRule(os, pk, rk, n)
    ensures PlannedQuery(os, pk, rk) == Some(QueryKeyPlan(pk, rk[..n]))
  {
    PrefixForced(os, pk, rk, n);
  }

  // A mention of a key attribute that a Query allows: with no OR above it, a comparison
  // that is no negated `=`, or, of a sort key, a BETWEEN or begins_with without a NOT.
  predicate KeyUse(o: Occ, rk: seq<string>) {
    o.spine &&
    match o.pred
    case Comparison(_, op, _) => op != Eq || !o.negated
    case Between(lhs, _, _) => lhs in rk && !o.negated
    case BeginsWith(lhs, _) => lhs in rk && !o.negated
    case _ => false
  }

  // Some sort keys from the first on are mentioned and no others, all but the last once
  // and by an equality, as each partition key is, and every mention of a key is allowed.
  predicate Plannable(os: seq<Occ>, pk: seq<string>, rk: seq<string>) {
    && (forall p | p in pk :: OnceByEquality(os, p))
    && (forall o | o in os && (o.pred.lhs in pk || o.pred.lhs in rk) :: KeyUse(o, rk))
    && (forall i, j | 0 <= i < j < |rk| && Mentioned(os, rk[j]) :: OnceByEquality(os, rk[i]))
  }

  lemma MentionedPrefix(os: seq<Occ>, rk: seq<string>) returns (n: nat)
    requires forall i, j | 0 <= i < j < |rk| && Mentioned(os, rk[j]) :: Mentioned(os, rk[i])
    ensures n <= |rk| && forall i | 0 <= i < |rk| :: Mentioned(os, rk[i]) <==> i < n
  {
    hide Mentioned;
    n := 0;
    while n < |rk| && Mentioned(os, rk[n])
      invariant n <= |rk| && forall i | 0 <= i < n :: Mentioned(os, rk[i])
    {
      n := n + 1;
    }
  }

  lemma OnceIsMentioned(os: seq<Occ>, name: string)
    requires OnceByEquality(os, name)
    ensures Mentioned(os, name) && forall o | o in os && o.pred.lhs == name :: IsGud(o)
  {
    var i :| 0 <= i < |os| && os[i].pred.lhs == name && IsGud(os[i]) &&
      forall j | 0 <= j < |os| && j != i :: os[j].pred.lhs != name;
    assert os[i] in os;
  }

  // A Query is planned exactly then.
  lemma PlannableExactly(os: seq<Occ>, pk: seq<string>, rk: seq<string>)
    ensures PlannedQuery(os, pk, rk).Some? <==> Plannable(os, pk, rk)
  {
    hide OnceByEquality, Mentioned;
    if n: nat :| QueryRule(os, pk, rk, n) {
      PlannedIs(os, pk, rk, n);
      forall o | o in os && (o.pred.lhs in pk || o.pred.lhs in rk) ensures KeyUse(o, rk) {
        RuleIsUse(os, pk, rk, n, o);
      }
    }
    if Plannable(os, pk, rk) {
      forall i, j | 0 <= i < j < |rk| && Mentioned(os, rk[j]) ensures Mentioned(os, rk[i]) {
        OnceIsMentioned(os, rk[i]);
      }
      var n := MentionedPrefix(os, rk);
      forall o | o in os && (o.pred.lhs in pk || o.pred.lhs in rk) ensures SafeOcc(o, pk, rk[..n]) {
        UseIsSafe(os, pk, rk, n, o);
      }
      assert n > 0 ==> Mentioned(os, rk[n - 1]);
      assert forall i | 0 <= i && i + 1 < n :: OnceByEquality(os, rk[i]);
      assert QueryRule(os, pk, rk, n);
      PlannedIs(os, pk, rk, n);
    }
  }

  lemma RuleIsUse(os: seq<Occ>, pk: seq<string>, rk: seq<string>, n: nat, o: Occ)
    requires QueryRule(os, pk, rk, n) && o in os && (o.pred.lhs in pk || o.pred.lhs in rk)
    ensures KeyUse(o, rk)
  {
    hide OnceByEquality;
    assert SafeOcc(o, pk, rk[..n]);
    if o.pred.lhs in rk {
      var i :| 0 <= i < |rk| && rk[i] == o.pred.lhs;
      assert Mentioned(os, rk[i]);
      assert rk[..n][i] == rk[i];
    }
  }

  lemma UseIsSafe(os: seq<Occ>, pk: seq<string>, rk: seq<string>, n: nat, o: Occ)
    requires Plannable(os, pk, rk) && o in os && (o.pred.lhs in pk || o.pred.lhs in rk)
    requires n <= |rk| && forall i | 0 <= i < |rk| :: Mentioned(os, rk[i]) <==> i < n
    ensures SafeOcc(o, pk, rk[..n])
  {
    assert KeyUse(o, rk);
    if o.pred.lhs in pk {
      OnceIsMentioned(os, o.pred.lhs);
    } else {
      var i :| 0 <= i < |rk| && rk[i] == o.pred.lhs;
      assert Mentioned(os, rk[i]);
      assert rk[..n][i] == rk[i];
    }
  }

  // For one partition key and at most one sort key the rule is the original's
  // scalar test: a single equality on the partition key, referenced once, and a
  // tree that is query-safe for the two names.
  lemma SingleKeyReduction(os: seq<Occ>, pk: string, rk: seq<string>)
    requires |rk| <= 1
    ensures (exists n: nat :: QueryRule(os, [pk], rk, n)) <==>
            CountGud(os, pk) == 1 && CountLhs(os, pk) == 1 && (forall o | o in os :: SafeOcc(o, [pk], rk))
  {
    OnceByCounts(os, pk);
    assert pk in [pk];
    if n: nat :| QueryRule(os, [pk], rk, n) {
      forall o | o in os ensures SafeOcc(o, [pk], rk) {
        if |rk| == 1 && n == 0 {
          assert Mentioned(os, rk[0]) <==> 0 < n;
        }
        assert rk[..n] == rk || rk[..n] == [];
      }
    }
    if OnceByEquality(os, pk) && forall o | o in os :: SafeOcc(o, [pk], rk) {
      var n := if |rk| == 1 && Mentioned(os, rk[0]) then 1 else 0;
      assert rk[..n] == rk || rk[..n] == [];
      assert QueryRule(os, [pk], rk, n);
    }
  }

  // ---- conservation of predicates -------------------------------------------

  // The occurrences that mention one of the names, or those that do not, in order.
  function Mentioning(os: seq<Occ>, pk: seq<string>, sk: seq<string>, wanted: bool): seq<Occ> {
    if os == [] then []
    else
      var rest := Mentioning(os[1..], pk, sk, wanted);
      if (os[0].pred.lhs in pk || os[0].pred.lhs in sk) == wanted then [os[0]] + rest else rest
  }

  lemma {:induction false} MentioningConcat(a: seq<Occ>, b: seq<Occ>, pk: seq<string>, sk: seq<string>, wanted: bool)
    ensures Mentioning(a + b, pk, sk, wanted) == Mentioning(a, pk, sk, wanted) + Mentioning(b, pk, sk, wanted)
  {
    if a == [] {
      assert a + b == b;
    } else {
      assert (a + b)[1..] == a[1..] + b;
      MentioningConcat(a[1..], b, pk, sk, wanted);
    }
  }

  lemma {:induction false} MentioningNone(os: seq<Occ>, pk: seq<string>, sk: seq<string>)
    requires forall o | o in os :: o.pred.lhs !in pk && o.pred.lhs !in sk
    ensures Mentioning(os, pk, sk, false) == os && Mentioning(os, pk, sk, true) == []
  {
    if os != [] {
      MentioningNone(os[1..], pk, sk);
    }
  }

  lemma {:induction false} OffSpine(e: Expr, spine: bool)
    ensures !spine ==> forall o | o in Occs(e, spine) :: !o.spine
    decreases e, 1
  {
    if !e.Leaf? {
      OffSpineAll(e.kids, spine && e.And?);
    }
  }

  lemma {:induction false} OffSpineAll(kids: seq<Expr>, spine: bool)
    ensures !spine ==> forall o | o in OccsOf(kids, spine) :: !o.spine
    decreases kids, 0
  {
    if kids != [] {
      OffSpine(kids[0], spine);
      OffSpineAll(kids[1..], spine);
    }
  }

  function OptionOccs(e: Option<Expr>): seq<Occ> {
    if e.Some? then Occs(e.value, true) else []
  }

  // When every occurrence is query-safe, the key condition holds exactly the
  // predicates on key attributes and the filter exactly the others, in order.
  lemma {:induction false} ConservationInTree(e: Expr, pk: seq<string>, sk: seq<string>)
    requires forall o | o in Occs(e, true) :: SafeOcc(o, pk, sk)
    ensures OptionOccs(Prune(e, KeyCondition(pk, sk))) == Mentioning(Occs(e, true), pk, sk, true)
    ensures OptionOccs(Prune(e, Filter(pk, sk))) == Mentioning(Occs(e, true), pk, sk, false)
    decreases e, 1
  {
    if e.And? {
      ConservationInList(e.kids, pk, sk);
    } else if e.Leaf? {
      assert Occs(e, true)[0] in Occs(e, true);
      assert Occs(e, true)[1..] == [];
    } else {
      OffSpineAll(e.kids, false);
      MentioningNone(Occs(e, true), pk, sk);
    }
  }

  lemma {:induction false} ConservationInList(kids: seq<Expr>, pk: seq<string>, sk: seq<string>)
    requires forall o | o in OccsOf(kids, true) :: SafeOcc(o, pk, sk)
    ensures OccsOf(PruneAll(kids, KeyCondition(pk, sk)), true) == Mentioning(OccsOf(kids, true), pk, sk, true)
    ensures OccsOf(PruneAll(kids, Filter(pk, sk)), true) == Mentioning(OccsOf(kids, true), pk, sk, false)
    decreases kids, 0
  {
    if kids != [] {
      ConservationInTree(kids[0], pk, sk);
      ConservationInList(kids[1..], pk, sk);
      forall wanted: bool {
        MentioningConcat(Occs(kids[0], true), OccsOf(kids[1..], true), pk, sk, wanted);
      }
      PrunedHead(kids, KeyCondition(pk, sk));
      PrunedHead(kids, Filter(pk, sk));
    }
  }

  lemma PrunedHead(kids: seq<Expr>, s: Side)
    requires kids != []
    ensures OccsOf(PruneAll(kids, s), true) ==
            OptionOccs(Prune(kids[0], s)) + OccsOf(PruneAll(kids[1..], s), true)
  {
    if Prune(kids[0], s).Some? {
      assert PruneAll(kids, s)[1..] == PruneAll(kids[1..], s);
    } else {
      assert PruneAll(kids, s) == PruneAll(kids[1..], s);
    }
  }

  lemma RuleMakesSafe(os: seq<Occ>, pk: seq<string>, rk: seq<string>, n: nat)
    requires QueryRule(os, pk, rk, n)
    ensures forall o | o in os :: SafeOcc(o, pk, rk[..n])
    ensures forall o | o in os && o.pred.lhs in rk :: o.pred.lhs in rk[..n]
  {
    forall o | o in os && o.pred.lhs in rk ensures o.pred.lhs in rk[..n] {
      var i :| 0 <= i < |rk| && rk[i] == o.pred.lhs;
      assert Mentioned(os, rk[i]) <==> i < n;
      assert rk[..n][i] == rk[i];
    }
  }

  lemma LeafConservation(e: Expr, pk: seq<string>, rk: seq<string>, n: nat)
    requires QueryRule(Occs(e, true), pk, rk, n)
    ensures var sk := rk[..n];
            var key := OptionOccs(Prune(e, KeyCondition(pk, sk)));
            var filter := OptionOccs(Prune(e, Filter(pk, sk)));
            && key == Mentioning(Occs(e, true), pk, sk, true)
            && filter == Mentioning(Occs(e, true), pk, sk, false)
            && (forall o | o in key :: o.pred.lhs in pk || o.pred.lhs in sk)
            && (forall o | o in filter :: o.pred.lhs !in pk && o.pred.lhs !in rk)
  {
    var os := Occs(e, true);
    RuleMakesSafe(os, pk, rk, n);
    ConservationInTree(e, pk, rk[..n]);
    MentioningAll(os, pk, rk[..n], true);
    MentioningAll(os, pk, rk[..n], false);
  }

  lemma {:induction false} MentioningAll(os: seq<Occ>, pk: seq<string>, sk: seq<string>, wanted: bool)
    ensures forall o | o in Mentioning(os, pk, sk, wanted) ::
              o in os && (o.pred.lhs in pk || o.pred.lhs in sk) == wanted
  {
    if os != [] {
      MentioningAll(os[1..], pk, sk, wanted);
    }
  }

  // ---- the meaning of a Query -----------------------------------------------

  lemma {:induction false} SafeIsComplementary(e: Expr, pk: seq<string>, sk: seq<string>)
    requires forall o | o in Occs(e, true) :: SafeOcc(o, pk, sk)
    ensures Complementary(e, KeyCondition(pk, sk), Filter(pk, sk))
  {
    if e.Leaf? {
      assert Occs(e, true)[0] in Occs(e, true);
    } else if e.And? {
      forall k | k in e.kids ensures Complementary(k, KeyCondition(pk, sk), Filter(pk, sk)) {
        KidOccs(e.kids, k, true);
        SafeIsComplementary(k, pk, sk);
      }
    }
  }

  lemma {:induction false} KidOccs(kids: seq<Expr>, k: Expr, spine: bool)
    requires k in kids
    ensures forall o | o in Occs(k, spine) :: o in OccsOf(kids, spine)
  {
    if k != kids[0] {
      KidOccs(kids[1..], k, spine);
    }
  }

  // A planned Query, read as two expressions, selects what the WHERE selects,
  // whatever the predicates mean, exactly when no negated conjunction is cut.
  lemma QueryMeaning(e: Expr, pk: seq<string>, rk: seq<string>, n: nat)
    requires Arity(e, 2) && QueryRule(Occs(e, true), pk, rk, n)
    requires Solid(Prune(e, KeyCondition(pk, rk[..n]))) && Solid(Prune(e, Filter(pk, rk[..n])))
    ensures var key, filter := KeyCondition(pk, rk[..n]), Filter(pk, rk[..n]);
            && (NegationsOneSided(e, key, filter) ==> forall m: Meaning :: Eval(e, m) == BothParts(e, key, filter, m))
            && (Linear(e) && !NegationsOneSided(e, key, filter) ==>
                  exists m: Meaning :: Eval(e, m) != BothParts(e, key, filter, m))
  {
    var key, filter := KeyCondition(pk, rk[..n]), Filter(pk, rk[..n]);
    RuleMakesSafe(Occs(e, true), pk, rk, n);
    SafeIsComplementary(e, pk, rk[..n]);
    ArityWeaken(e);
    if NegationsOneSided(e, key, filter) {
      forall m: Meaning ensures Eval(e, m) == BothParts(e, key, filter, m) {
        SplitMeaning(e, key, filter, m);
      }
    } else if Linear(e) {
      var m := Distinguish(e, key, filter);
    }
  }
}

// The WHERE clause as the planners hold it: the probes that choose an access
// path, and the texts a plan asks for.

module Wheres {
  import opened Values
  import opened Expressions
  import opened Splitting
  import opened Access
  import opened SingleItem
  import opened Symbols
  import opened LogicalExpressions

  class Where {
    const root: LogicalExpression

    ghost predicate Valid()
      reads root, root.repr
    {
      root.Valid()
    }

    ghost function Tree(): Expr
      reads root
    {
      root.tree
    }

    // The occurrences every probe looks at.
    ghost function Found(): seq<Occ>
      reads root
    {
      Occs(root.tree, true)
    }

    constructor (root: LogicalExpression)
      ensures this.root == root
    {
      this.root := root;
    }

    method CanGetItem(pk: seq<string>, rk: seq<string>) returns (can: bool)
      requires Valid()
      ensures can == SingleItem.CanGetItem(Found(), pk, rk)
    {
      if |pk| != 1 {
        return false;
      }
      var all := root.Count();
      var forPk := root.CountGudKey(pk[0]);
      if rk != [] {
        var forRk := root.CountGudKey(rk[0]);
        return all == 2 && forPk == 1 && forRk == 1;
      }
      can := all == 1 && forPk == 1;
    }

    // A plan exists exactly when the rule is met by some number of sort keys, and
    // it is the plan with that number.
    method PlanQuery(pk: seq<string>, rk: seq<string>) returns (plan: Option<QueryKeyPlan>)
      requires Valid()
      ensures plan == PlannedQuery(Found(), pk, rk)
    {
      hide OnceByEquality, SafeOcc;
      ghost var os := Found();
      for i := 0 to |pk|
        invariant forall p | p in pk[..i] :: OnceByEquality(os, p)
      {
        var gud := root.CountGudKey(pk[i]);
        var all := root.CountLhs(pk[i]);
        OnceByCounts(os, pk[i]);
        if !(gud == 1 && all == 1) {
          assert pk[i] in pk;
          return None;
        }
      }
      assert pk[..|pk|] == pk;

      var prefix: seq<string> := [];
      var ended := false;
      for i := 0 to |rk|
        invariant |prefix| <= i && prefix == rk[..|prefix|] && (!ended ==> |prefix| == i)
        invariant forall j | 0 <= j < i :: Mentioned(os, rk[j]) <==> j < |prefix|
        invariant ended ==> |prefix| < i
      {
        var n := root.CountLhs(rk[i]);
        CountPositive(os, rk[i]);
        if n == 0 {
          ended := true;
        } else if ended {
          Gap(os, pk, rk, |prefix|, i);
          return None;
        } else {
          prefix := prefix + [rk[i]];
        }
      }
      ghost var n := |prefix|;
      PrefixForced(os, pk, rk, n);

      for j := 0 to |prefix| - (if prefix == [] then 0 else 1)
        invariant forall k | 0 <= k < j :: OnceByEquality(os, rk[k])
      {
        var all := root.CountLhs(prefix[j]);
        var gud := root.CountGudKey(prefix[j]);
        OnceByCounts(os, rk[j]);
        if !(all == 1 && gud == 1) {
          return None;
        }
      }

      var safe := root.QuerySafe(pk, prefix);
      OnlyMentionsMatter(os, pk, rk, n);
      if !safe {
        return None;
      }
      assert QueryRule(os, pk, rk, n);
      PlannedIs(os, pk, rk, n);
      plan := Some(QueryKeyPlan(pk, prefix));
    }

    // The base key is a single one; extra predicates become the condition.
    method CanUpdateItem(pk: seq<string>, rk: seq<string>) returns (can: bool)
      requires Valid()
      ensures can == SingleItem.CanUpdateItem(Found(), pk, rk)
    {
      if |pk| != 1 {
        return false;
      }
      var forPk := root.CountGudKey(pk[0]);
      if rk != [] {
        var forRk := root.CountGudKey(rk[0]);
        return forPk == 1 && forRk == 1;
      }
      can := forPk == 1;
    }

    method GetGudKey(pk: seq<string>, rk: seq<string>) returns (key: Item)
      requires Valid()
      ensures key == GudKey(Found(), First(pk), First(rk))
    {
      key := root.GetGudKey(First(pk), First(rk));
    }
  }

  // Query safety ignores key attributes the tree never mentions.
  lemma OnlyMentionsMatter(os: seq<Occ>, pk: seq<string>, rk: seq<string>, n: nat)
    requires n <= |rk|
    ensures (forall o | o in os :: SafeOcc(o, pk, rk[..n])) <==>
            (forall o | o in os && (o.pred.lhs in pk || o.pred.lhs in rk) :: SafeOcc(o, pk, rk[..n]))
  {
    forall o | o in os && o.pred.lhs !in pk && o.pred.lhs !in rk ensures SafeOcc(o, pk, rk[..n]) {
    }
  }
}

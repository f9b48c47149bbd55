// The WHERE tree as the parser builds it: nodes owned by their parent, flags and
// children updated in place, and the counting, probing and printing loops over
// the children. Each is tied to the value of the tree.

module LogicalExpressions {
  import opened Values
  import opened Expressions
  import opened Splitting
  import opened Reader
  import opened Access
  import opened Clauses
  import opened Symbols

  datatype Kind = PredNode(pred: Pred) | AndNode | OrNode

  // ---- facts about lists of children ----------------------------------------

  lemma {:induction false} OccsOfSnoc(kids: seq<Expr>, i: nat, spine: bool)
    requires i < |kids|
    ensures OccsOf(kids[..i + 1], spine) == OccsOf(kids[..i], spine) + Occs(kids[i], spine)
  {
    OccsOfConcat(kids[..i], [kids[i]], spine);
    assert kids[..i + 1] == kids[..i] + [kids[i]];
    assert [kids[i]][1..] == [];
    assert OccsOf([kids[i]], spine) == Occs(kids[i], spine) + OccsOf([], spine);
  }

  // Counting does not look at the spine.
  function Unspined(os: seq<Occ>): seq<Occ> {
    seq(|os|, i requires 0 <= i < |os| => os[i].(spine := false))
  }

  lemma {:induction false} OccsUnspined(e: Expr)
    ensures Occs(e, false) == Unspined(Occs(e, true))
    decreases e, 1
  {
    if e.And? {
      OccsOfUnspined(e.kids);
    } else if e.Or? {
      OffSpineAll(e.kids, false);
      assert Unspined(OccsOf(e.kids, false)) == OccsOf(e.kids, false);
    }
  }

  lemma {:induction false} OccsOfUnspined(kids: seq<Expr>)
    ensures OccsOf(kids, false) == Unspined(OccsOf(kids, true))
    decreases kids, 0
  {
    if kids != [] {
      OccsUnspined(kids[0]);
      OccsOfUnspined(kids[1..]);
    }
  }

  lemma {:induction false} CountUnspined(os: seq<Occ>, name: string)
    ensures CountLhs(Unspined(os), name) == CountLhs(os, name)
  {
    if os != [] {
      CountUnspined(os[1..], name);
      assert Unspined(os)[1..] == Unspined(os[1..]);
    }
  }

  lemma PruneAllStep(kids: seq<Expr>, k: Expr, rest: seq<Expr>, s: Side)
    requires kids == [k] + rest
    ensures PruneAll(kids, s) == OptionSeq(Prune(k, s)) + PruneAll(rest, s)
  {
    assert kids[1..] == rest;
  }

  lemma {:induction false} PruneAllConcat(a: seq<Expr>, b: seq<Expr>, s: Side)
    ensures PruneAll(a + b, s) == PruneAll(a, s) + PruneAll(b, s)
  {
    assert PruneAll([], s) == [];
    hide PruneAll, Prune, OptionSeq;
    if a == [] {
      assert a + b == b;
    } else {
      var k, rest := a[0], a[1..];
      PruneAllConcat(rest, b, s);
      PruneAllStep(a, k, rest, s);
      assert a + b == [k] + (rest + b);
      PruneAllStep(a + b, k, rest + b, s);
    }
  }

  lemma PruneAllSnoc(kids: seq<Expr>, i: nat, s: Side)
    requires i < |kids|
    ensures PruneAll(kids[..i + 1], s) == PruneAll(kids[..i], s) + OptionSeq(Prune(kids[i], s))
  {
    PruneAllConcat(kids[..i], [kids[i]], s);
    assert kids[..i + 1] == kids[..i] + [kids[i]];
    assert [kids[i]][1..] == [];
    assert PruneAll([kids[i]], s) == OptionSeq(Prune(kids[i], s)) + PruneAll([], s);
  }

  lemma {:induction false} PrintJoinedSnoc(kids: seq<Expr>, k: Expr, sep: string)
    requires kids != []
    ensures PrintJoined(kids + [k], sep) == PrintJoined(kids, sep) + [Word(sep)] + Print(k)
  {
    var all := kids + [k];
    if |kids| == 1 {
      assert all[1..] == [k];
    } else {
      assert all[1..] == kids[1..] + [k];
      PrintJoinedSnoc(kids[1..], k, sep);
    }
  }

  lemma {:induction false} WholeKeepsAll(e: Expr)
    requires Arity(e, 1)
    ensures Prune(e, Whole) == Some(e)
    decreases e, 1
  {
    if e.And? {
      WholeKeepsAllOf(e.kids);
    }
  }

  lemma {:induction false} WholeKeepsAllOf(kids: seq<Expr>)
    requires forall k | k in kids :: Arity(k, 1)
    ensures PruneAll(kids, Whole) == kids
    decreases kids, 0
  {
    if kids != [] {
      WholeKeepsAll(kids[0]);
      WholeKeepsAllOf(kids[1..]);
    }
  }

  // Fixed text passes through the table unchanged.
  lemma EncodeAround(left: Text, body: Text, right: Text, s: Sym)
    requires forall t | t in left || t in right :: t.Word?
    ensures Encode(left + body + right, s).0 == Fixed(left) + Encode(body, s).0 + Fixed(right)
    ensures Encode(left + body + right, s).1 == Encode(body, s).1
  {
    EncodeConcat(left + body, right, s);
    EncodeConcat(left, body, s);
    EncodeFixed(left, s);
    EncodeFixed(right, Encode(body, s).1);
  }

  function Fixed(text: Text): Aliased
    requires forall t | t in text :: t.Word?
  {
    seq(|text|, i requires 0 <= i < |text| => Word(text[i].text))
  }

  lemma {:induction false} EncodeFixed(text: Text, s: Sym)
    requires forall t | t in text :: t.Word?
    ensures Encode(text, s) == (Fixed(text), s)
  {
    if text != [] {
      EncodeFixed(text[1..], s);
      assert Fixed(text) == [Word(text[0].text)] + Fixed(text[1..]);
    }
  }

  lemma EncodeParens(parens: bool, body: Text, s: Sym)
    ensures Encode(Parens(parens, body), s) == (Parens(parens, Encode(body, s).0), Encode(body, s).1)
  {
    if parens {
      EncodeAround([Word("(")], body, [Word(")")], s);
      assert Fixed([Word("(")]) == [Word("(")] && Fixed([Word(")")]) == [Word(")")];
    }
  }

  lemma EncodeNegation(negated: bool, body: Text, s: Sym)
    ensures Encode(Negation(negated, body), s) == (Negation(negated, Encode(body, s).0), Encode(body, s).1)
  {
    if negated {
      EncodeAround([Word("NOT "), Word("(")], body, [Word(")")], s);
      assert Fixed([Word("NOT "), Word("(")]) == [Word("NOT "), Word("(")] && Fixed([Word(")")]) == [Word(")")];
    }
  }

  function WithKid(e: Expr, kid: Expr): Expr
    requires !e.Leaf?
  {
    if e.And? then And(e.negated, e.parens, e.kids + [kid]) else Or(e.negated, e.parens, e.kids + [kid])
  }

  function WithKids(e: Expr, kids: seq<Expr>): Expr
    requires !e.Leaf?
  {
    if e.And? then And(e.negated, e.parens, e.kids + kids) else Or(e.negated, e.parens, e.kids + kids)
  }

  lemma WithNone(e: Expr)
    requires !e.Leaf?
    ensures WithKids(e, []) == e
  {
  }

  lemma WithOneMore(e: Expr, kids: seq<Expr>, i: nat)
    requires !e.Leaf? && i < |kids|
    ensures var more := WithKids(e, kids[..i]);
            !more.Leaf? && WithKid(more, kids[i]) == WithKids(e, kids[..i + 1])
  {
    assert kids[..i + 1] == kids[..i] + [kids[i]];
    assert e.kids + (kids[..i] + [kids[i]]) == e.kids + kids[..i] + [kids[i]];
  }

  lemma WithAll(e: Expr, kids: seq<Expr>)
    requires !e.Leaf?
    ensures WithKids(e, kids) ==
            if e.And? then And(e.negated, e.parens, e.kids + kids) else Or(e.negated, e.parens, e.kids + kids)
  {
  }

  // ---- the nodes ------------------------------------------------------------

  class LogicalExpression {
    const kind: Kind
    var negated: bool
    var parens: bool
    var exprlist: seq<LogicalExpression>
    ghost var tree: Expr
    ghost var repr: set<LogicalExpression>

    ghost predicate Valid()
      reads this, repr
      decreases repr
    {
      && this in repr
      && (forall c | c in exprlist :: c in repr && c.repr <= repr && this !in c.repr && c.Valid())
      && (forall i, j | 0 <= i < j < |exprlist| :: exprlist[i].repr !! exprlist[j].repr)
      && Arity(tree, 2)
      && tree.negated == negated && tree.parens == parens
      && (match kind
          case PredNode(pred) => exprlist == [] && tree == Leaf(negated, parens, pred)
          case AndNode => tree.And? && ChildTrees()
          case OrNode => tree.Or? && ChildTrees())
    }

    ghost predicate ChildTrees()
      requires !tree.Leaf?
      reads this, exprlist
    {
      |tree.kids| == |exprlist| && forall i | 0 <= i < |exprlist| :: exprlist[i].tree == tree.kids[i]
    }

    constructor Predicate(pred: Pred, negated: bool)
      requires pred.In? ==> pred.choices != []
      ensures Valid() && fresh(repr) && tree == Leaf(negated, false, pred)
    {
      kind, parens, exprlist := PredNode(pred), false, [];
      this.negated := negated;
      tree, repr := Leaf(negated, false, pred), {this};
    }

    constructor List(kind: Kind, e1: LogicalExpression, e2: LogicalExpression)
      requires !kind.PredNode? && e1.Valid() && e2.Valid() && e1.repr !! e2.repr
      ensures Valid() && fresh(repr - e1.repr - e2.repr)
      ensures tree == if kind.AndNode? then And(false, false, [e1.tree, e2.tree])
              else Or(false, false, [e1.tree, e2.tree])
    {
      this.kind, negated, parens, exprlist := kind, false, false, [e1, e2];
      tree := if kind.AndNode? then And(false, false, [e1.tree, e2.tree]) else Or(false, false, [e1.tree, e2.tree]);
      repr := {this} + e1.repr + e2.repr;
    }

    method Negate()
      requires Valid()
      modifies this
      ensures Valid() && repr == old(repr) && tree == Clauses.Negate(old(tree))
    {
      negated := !negated;
      tree := Clauses.Negate(tree);
    }

    method SetParenGroup()
      requires Valid()
      modifies this
      ensures Valid() && repr == old(repr) && tree == Group(old(tree))
    {
      parens := true;
      tree := Group(tree);
    }

    // Takes over one more child.
    method PushBack(child: LogicalExpression)
      requires Valid() && !kind.PredNode? && child.Valid() && repr !! child.repr
      modifies this
      ensures Valid() && repr == old(repr) + child.repr && tree == WithKid(old(tree), child.tree)
    {
      exprlist := exprlist + [child];
      repr := repr + child.repr;
      tree := WithKid(tree, child.tree);
    }

    // The child at i, and the others.
    lemma Owns(i: nat)
      requires Valid()
      ensures this in repr && forall c | c in exprlist :: c in repr
      ensures i < |exprlist| && !kind.PredNode? ==>
                exprlist[i].Valid() && exprlist[i].repr <= repr && exprlist[i].tree == tree.kids[i]
      ensures i < |exprlist| ==>
                forall nodes | KidsApart(nodes, i) ::
                  nodes !! exprlist[i].repr && KidsApart(nodes + exprlist[i].repr, i + 1)
    {
    }

    // These nodes are none of those of the children from i on.
    ghost predicate KidsApart(nodes: set<LogicalExpression>, i: nat)
      reads this, exprlist
    {
      forall j | i <= j < |exprlist| :: nodes !! exprlist[j].repr
    }

    // Takes over all the children of another list.
    method Splice(other: LogicalExpression)
      requires Valid() && other.Valid() && repr !! other.repr && !kind.PredNode? && kind == other.kind
      modifies this
      ensures Valid() && repr <= old(repr) + other.repr
      ensures var kids := old(tree).kids + other.tree.kids;
              tree == if kind.AndNode? then And(old(negated), old(parens), kids)
              else Or(old(negated), old(parens), kids)
    {
      ghost var a, b := tree, other.tree.kids;
      other.Owns(0);
      WithNone(a);
      assert this in repr && |other.exprlist| == |b| && other.KidsApart(repr, 0) && !a.Leaf?;
      assert (kind.AndNode? <==> a.And?) && a.negated == negated && a.parens == parens;
      hide LogicalExpression.Valid, LogicalExpression.KidsApart, WithKids;
      for i := 0 to |other.exprlist|
        invariant Valid() && this in repr && repr <= old(repr) + other.repr
        invariant other.Valid() && this !in other.repr && other.KidsApart(repr, i)
        invariant tree == WithKids(a, b[..i])
      {
        WithOneMore(a, b, i);
        TakeKid(other, i);
      }
      assert b[..|b|] == b;
      WithAll(a, b);
    }

    // Takes over one child of another list.
    method TakeKid(other: LogicalExpression, i: nat)
      requires Valid() && this in repr && other.Valid() && this !in other.repr && other.KidsApart(repr, i)
      requires !kind.PredNode? && !other.kind.PredNode? && i < |other.exprlist|
      modifies this
      ensures Valid() && this in repr && other.Valid() && other.KidsApart(repr, i + 1)
      ensures repr <= old(repr) + other.repr && tree == WithKid(old(tree), other.tree.kids[i])
    {
      hide LogicalExpression.KidsApart;
      other.Owns(i);
      PushBack(other.exprlist[i]);
    }

    // The flattening factories: splice, append or wrap. e1 is updated in place.
    static method Make(kind: Kind, e1: LogicalExpression, e2: LogicalExpression) returns (r: LogicalExpression)
      requires !kind.PredNode? && e1.Valid() && e2.Valid() && e1.repr !! e2.repr
      modifies e1
      ensures r.Valid() && fresh(r.repr - old(e1.repr) - old(e2.repr))
      ensures r.tree == if kind.AndNode? then MakeAnd(old(e1.tree), old(e2.tree))
              else MakeOr(old(e1.tree), old(e2.tree))
    {
      if e1.negated == e2.negated && e1.kind == kind && e2.kind == kind && !e1.parens && !e2.parens {
        e1.Splice(e2);
        return e1;
      }
      if !e1.negated && e1.kind == kind {
        e1.PushBack(e2);
        return e1;
      }
      r := new LogicalExpression.List(kind, e1, e2);
    }

    // ---- counting and probing -----------------------------------------------

    method Count() returns (ct: nat)
      requires Valid()
      ensures ct == |Occs(tree, true)|
      decreases repr
    {
      if kind.PredNode? {
        return 1;
      }
      ct := 0;
      for i := 0 to |exprlist|
        invariant ct == |OccsOf(tree.kids[..i], true)|
      {
        var n := exprlist[i].Count();
        OccsOfSnoc(tree.kids, i, true);
        ct := ct + n;
      }
      assert tree.kids[..|exprlist|] == tree.kids;
      OccsOfUnspined(tree.kids);
    }

    method CountLhs(lhs: string) returns (ct: nat)
      requires Valid()
      ensures ct == Access.CountLhs(Occs(tree, true), lhs)
      decreases repr
    {
      if kind.PredNode? {
        return if kind.pred.lhs == lhs then 1 else 0;
      }
      ct := 0;
      for i := 0 to |exprlist|
        invariant ct == Access.CountLhs(OccsOf(tree.kids[..i], true), lhs)
      {
        var n := exprlist[i].CountLhs(lhs);
        OccsOfSnoc(tree.kids, i, true);
        CountsConcat(OccsOf(tree.kids[..i], true), Occs(tree.kids[i], true), lhs);
        ct := ct + n;
      }
      assert tree.kids[..|exprlist|] == tree.kids;
      OccsOfUnspined(tree.kids);
      CountUnspined(OccsOf(tree.kids, true), lhs);
    }

    method CountGudKey(lhs: string) returns (ct: nat)
      requires Valid()
      ensures ct == CountGud(Occs(tree, true), lhs)
      decreases repr
    {
      match kind
      case PredNode(p) =>
        ct := if p.lhs == lhs && !negated && p.Comparison? && p.op == Eq then 1 else 0;
      case OrNode =>
        OffSpineAll(tree.kids, false);
        CountPositive(Occs(tree, true), lhs);
        ct := 0;
      case AndNode =>
        ct := 0;
        for i := 0 to |exprlist|
          invariant ct == CountGud(OccsOf(tree.kids[..i], true), lhs)
        {
          var n := exprlist[i].CountGudKey(lhs);
          OccsOfSnoc(tree.kids, i, true);
          CountsConcat(OccsOf(tree.kids[..i], true), Occs(tree.kids[i], true), lhs);
          ct := ct + n;
        }
        assert tree.kids[..|exprlist|] == tree.kids;
    }

    method GetGudKey(pk: string, rk: string) returns (rv: Item)
      requires Valid()
      ensures rv == GudKey(Occs(tree, true), pk, rk)
      decreases repr
    {
      rv := map[];
      match kind
      case PredNode(p) =>
        var forPk := CountGudKey(pk);
        var forRk := CountGudKey(rk);
        if forPk > 0 || forRk > 0 {
          rv := map[p.lhs := p.rhs];
        }
      case OrNode =>
        OffSpineAll(tree.kids, false);
        NoGudKey(Occs(tree, true), pk, rk);
      case AndNode =>
        for i := 0 to |exprlist|
          invariant rv == GudKey(OccsOf(tree.kids[..i], true), pk, rk)
        {
          var part := exprlist[i].GetGudKey(pk, rk);
          OccsOfSnoc(tree.kids, i, true);
          GudKeyConcat(OccsOf(tree.kids[..i], true), Occs(tree.kids[i], true), pk, rk);
          rv := part + rv;
        }
        assert tree.kids[..|exprlist|] == tree.kids;
    }

    // What AND and OR ask of their children.
    method ChildrenQuerySafe(pk: seq<string>, sk: seq<string>) returns (safe: bool)
      requires Valid() && !kind.PredNode?
      ensures safe <==> forall o | o in OccsOf(tree.kids, true) :: SafeOcc(o, pk, sk)
      decreases repr, 0
    {
      safe := true;
      for i := 0 to |exprlist|
        invariant safe <==> forall o | o in OccsOf(tree.kids[..i], true) :: SafeOcc(o, pk, sk)
      {
        var childSafe := exprlist[i].QuerySafe(pk, sk);
        OccsOfSnoc(tree.kids, i, true);
        safe := safe && childSafe;
      }
      assert tree.kids[..|exprlist|] == tree.kids;
    }

    method QuerySafe(pk: seq<string>, sk: seq<string>) returns (safe: bool)
      requires Valid()
      ensures safe <==> forall o | o in Occs(tree, true) :: SafeOcc(o, pk, sk)
      decreases repr, 1
    {
      match kind
      case PredNode(p) =>
        safe := LeafSafe(p, negated, pk, sk);
        assert Occs(tree, true)[0] in Occs(tree, true);
      case AndNode =>
        safe := ChildrenQuerySafe(pk, sk);
      case OrNode =>
        var absent := NoneMentioned(pk);
        var absentToo := NoneMentioned(sk);
        var childrenSafe := ChildrenQuerySafe(pk, sk);
        safe := absent && absentToo && childrenSafe;
        OffSpineAll(tree.kids, false);
        OccsOfUnspined(tree.kids);
        UnspinedMembers(OccsOf(tree.kids, true));
    }

    method NoneMentioned(names: seq<string>) returns (none: bool)
      requires Valid()
      ensures none <==> forall o | o in Occs(tree, true) :: o.pred.lhs !in names
    {
      none := true;
      for i := 0 to |names|
        invariant none <==> forall o | o in Occs(tree, true) :: o.pred.lhs !in names[..i]
      {
        var n := CountLhs(names[i]);
        CountPositive(Occs(tree, true), names[i]);
        none := none && n == 0;
      }
    }

    // ---- text ---------------------------------------------------------------

    // The whole tree.
    method Serialize(st: SymbolTable) returns (rv: Aliased)
      requires Valid() && st.Valid()
      modifies st
      ensures st.Valid() && (rv, st.sym) == Encode(Print(tree), old(st.sym))
      decreases repr, 1
    {
      hide Encode, PrintJoined, Arity;
      ghost var body: Text;
      if kind.PredNode? {
        body := PredText(kind.pred);
        rv := EncodeText(PredText(kind.pred), st);
      } else {
        var sep := if kind.AndNode? then AND else OR;
        body := Parens(parens, PrintJoined(tree.kids, sep));
        EncodeParens(parens, PrintJoined(tree.kids, sep), st.sym);
        rv := SerializeJoined(sep, st);
        rv := Parens(parens, rv);
      }
      EncodeNegation(negated, body, old(st.sym));
      rv := Negation(negated, rv);
    }

    method SerializeJoined(sep: string, st: SymbolTable) returns (rv: Aliased)
      requires Valid() && st.Valid() && !kind.PredNode?
      modifies st
      ensures st.Valid() && (rv, st.sym) == Encode(PrintJoined(tree.kids, sep), old(st.sym))
      decreases repr, 0
    {
      hide Encode, PrintJoined, Print, Arity;
      ghost var s := st.sym;
      rv := [];
      EncodeNothing(sep, s);
      for i := 0 to |exprlist|
        invariant st.Valid() && (rv, st.sym) == Encode(PrintJoined(tree.kids[..i], sep), s)
      {
        JoinedStep(tree.kids[..i], [tree.kids[i]], sep, s);
        assert tree.kids[..i + 1] == tree.kids[..i] + [tree.kids[i]];
        rv := rv + Separator(i == 0, sep);
        var part := exprlist[i].Serialize(st);
        rv := rv + part;
      }
      assert tree.kids[..|exprlist|] == tree.kids;
    }

    // What one generated expression keeps: the key condition and the filter of a
    // Query, and the condition of a per-item write, whose `top` flag is lowered
    // (Whole) below an OR.
    method PartText(side: Side, st: SymbolTable) returns (rv: Aliased)
      requires Valid() && st.Valid() && !side.Carried?
      modifies st
      ensures st.Valid() && (rv, st.sym) == Encode(PrintOption(Prune(tree, side)), old(st.sym))
      decreases repr, 1
    {
      hide Encode, PrintJoined, Arity, PruneAll;
      ghost var s := st.sym;
      ghost var body: Text;
      match kind {
        case PredNode(p) =>
          if !Keeps(side, p, negated) {
            EncodeEmpty(s);
            return [];
          }
          body := PredText(p);
          rv := EncodeText(PredText(p), st);
        case OrNode =>
          if side.KeyCondition? {
            EncodeEmpty(s);
            return [];
          }
          if side.Filter? {
            rv := Serialize(st);
            return;
          }
          body := Parens(parens, PrintJoined(PruneAll(tree.kids, Whole), OR));
          OrPart(tree, side);
          rv := JoinParts(Whole, OR, st);
          EncodeParens(parens, PrintJoined(PruneAll(tree.kids, Whole), OR), s);
          rv := Parens(parens, rv);
        case AndNode =>
          body := Parens(parens, PrintJoined(PruneAll(tree.kids, side), AND));
          AndPart(tree, side, s);
          rv := JoinParts(side, AND, st);
          EncodeParens(parens, PrintJoined(PruneAll(tree.kids, side), AND), s);
          rv := Parens(parens, rv);
      }
      EncodeLength(body, s);
      EncodeEmpty(s);
      if rv != [] {
        EncodeNegation(negated, body, s);
        rv := Negation(negated, rv);
      }
    }

    // The non-empty parts of the children, joined.
    method JoinParts(side: Side, sep: string, st: SymbolTable) returns (rv: Aliased)
      requires Valid() && st.Valid() && !side.Carried? && !kind.PredNode?
      modifies st
      ensures st.Valid() && (rv, st.sym) == Encode(PrintJoined(PruneAll(tree.kids, side), sep), old(st.sym))
      decreases repr, 0
    {
      ghost var s := st.sym;
      hide Encode, PrintJoined, PrintOption, Prune, PruneAll, Separator, Arity;
      JoinedNone(side, sep, s);
      assert tree.kids[..0] == [];
      rv := [];
      var first := true;
      for i := 0 to |exprlist|
        invariant st.Valid() && (rv, st.sym) == Encode(PrintJoined(PruneAll(tree.kids[..i], side), sep), s)
        invariant first <==> PruneAll(tree.kids[..i], side) == []
      {
        var child := exprlist[i];
        assert child.Valid() && child.tree == tree.kids[i];
        PartJoined(tree.kids, i, side, sep, s);
        var part := child.PartText(side, st);
        if part != [] {
          rv := rv + Separator(first, sep) + part;
          first := false;
        }
      }
      assert tree.kids[..|exprlist|] == tree.kids;
    }
  }

  // The parser's actions, on the heap: one new tree for a clause.
  method BuildTree(c: Clause) returns (e: LogicalExpression)
    requires Parsed(c)
    ensures e.Valid() && fresh(e.repr) && e.tree == Build(c)
    decreases c
  {
    if c.Element? {
      e := new LogicalExpression.Predicate(c.pred, false);
    } else if c.NotEqual? {
      e := new LogicalExpression.Predicate(Comparison(c.lhs, Eq, c.rhs), true);
    } else if c.NotExists? {
      e := new LogicalExpression.Predicate(AttributeExists(c.lhs), true);
    } else if c.IsNotNull? {
      var notNull := new LogicalExpression.Predicate(Comparison(c.lhs, Eq, Null), true);
      var present := new LogicalExpression.Predicate(AttributeExists(c.lhs), false);
      e := LogicalExpression.Make(AndNode, notNull, present);
    } else if c.NotClause? {
      e := BuildTree(c.inner);
      e.Negate();
    } else if c.ParenClause? {
      e := BuildTree(c.inner);
      e.SetParenGroup();
    } else {
      var left := BuildTree(c.left);
      var right := BuildTree(c.right);
      e := LogicalExpression.Make(if c.AndClause? then AndNode else OrNode, left, right);
    }
  }

  // Fixed text is copied; a path is minted where it stands, and so is a value.
  method EncodeText(text: Text, st: SymbolTable) returns (rv: Aliased)
    requires st.Valid()
    modifies st
    ensures st.Valid() && (rv, st.sym) == Encode(text, old(st.sym))
  {
    ghost var s := st.sym;
    rv := [];
    for i := 0 to |text|
      invariant st.Valid() && (rv, st.sym) == Encode(text[..i], s)
    {
      EncodeConcat(text[..i], [text[i]], s);
      assert text[..i + 1] == text[..i] + [text[i]];
      EncodeOne(text[i], st.sym);
      match text[i]
      case Word(w) =>
        rv := rv + [Word(w)];
      case Attr(path) =>
        var token := st.NewAttribute(path);
        rv := rv + [Attr(token)];
      case Operand(v) =>
        var token := st.NewValue(v);
        rv := rv + [Operand(token)];
    }
    assert text[..|text|] == text;
  }

  lemma EncodeOne(t: Tok<Value>, s: Sym)
    ensures Encode([t], s) == ([EncodeTok(t, s).0], EncodeTok(t, s).1)
  {
    assert [EncodeTok(t, s).0] + [] == [EncodeTok(t, s).0];
    assert [t][1..] == [];
    assert Encode([], EncodeTok(t, s).1) == ([], EncodeTok(t, s).1);
  }

  lemma JoinedNone(side: Side, sep: string, s: Sym)
    ensures PruneAll([], side) == [] && PrintJoined([], sep) == [] && Encode([], s) == ([], s)
  {
  }

  function Separator(first: bool, sep: string): Aliased {
    if first then [] else [Word(sep)]
  }

  lemma EncodeEmpty(s: Sym)
    ensures Encode([], s) == ([], s)
  {
  }

  lemma EncodeNothing(sep: string, s: Sym)
    ensures forall kids: seq<Expr> | |kids| == 0 :: Encode(PrintJoined(kids, sep), s) == ([], s)
  {
  }

  // One more child in a joined text.
  lemma JoinedStep(kids: seq<Expr>, more: seq<Expr>, sep: string, s: Sym)
    requires |more| <= 1
    ensures var before := Encode(PrintJoined(kids, sep), s);
            var part := if more == [] then [] else Print(more[0]);
            var after := Encode(part, before.1);
            Encode(PrintJoined(kids + more, sep), s) ==
            if more == [] then before else (before.0 + Separator(kids == [], sep) + after.0, after.1)
  {
    if more == [] {
      assert kids + more == kids;
    } else if kids == [] {
      assert kids + more == [more[0]];
      assert Encode(PrintJoined(kids, sep), s) == ([], s);
      assert [] + [] + Encode(Print(more[0]), s).0 == Encode(Print(more[0]), s).0;
    } else {
      var k := more[0];
      assert kids + more == kids + [k];
      PrintJoinedSnoc(kids, k, sep);
      EncodeConcat(PrintJoined(kids, sep) + [Word(sep)], Print(k), s);
      EncodeConcat(PrintJoined(kids, sep), [Word(sep)], s);
      EncodeOne(Word(sep), Encode(PrintJoined(kids, sep), s).1);
    }
  }

  // A child's text is empty exactly when nothing of it was kept.
  lemma PartNotEmpty(e: Expr, side: Side, s: Sym)
    requires Arity(e, 2)
    ensures Encode(PrintOption(Prune(e, side)), s).0 == [] <==> Prune(e, side).None?
    ensures OptionSeq(Prune(e, side)) == [] <==> Prune(e, side).None?
    ensures |OptionSeq(Prune(e, side))| <= 1
    ensures PrintOption(Prune(e, side)) ==
            if OptionSeq(Prune(e, side)) == [] then [] else Print(OptionSeq(Prune(e, side))[0])
  {
    EncodeLength(PrintOption(Prune(e, side)), s);
    if Prune(e, side).Some? {
      ArityWeaken(e);
      PrunedText(e, side);
      PrintNotEmpty(Prune(e, side).value);
    }
  }

  // What the next child adds to a joined text.
  lemma PartJoined(kids: seq<Expr>, i: nat, side: Side, sep: string, s: Sym)
    requires i < |kids| && Arity(kids[i], 2)
    ensures var before := Encode(PrintJoined(PruneAll(kids[..i], side), sep), s);
            var part := Encode(PrintOption(Prune(kids[i], side)), before.1);
            && Encode(PrintJoined(PruneAll(kids[..i + 1], side), sep), s) ==
               (if part.0 == [] then before.0
                else before.0 + Separator(PruneAll(kids[..i], side) == [], sep) + part.0,
                part.1)
            && (PruneAll(kids[..i + 1], side) == [] <==> PruneAll(kids[..i], side) == [] && part.0 == [])
  {
    var before := Encode(PrintJoined(PruneAll(kids[..i], side), sep), s);
    EncodeEmpty(before.1);
    hide Encode, PrintJoined, PrintOption, Print, Prune, PruneAll, OptionSeq, Arity, Separator;
    PruneAllSnoc(kids, i, side);
    PartNotEmpty(kids[i], side, before.1);
    JoinedStep(PruneAll(kids[..i], side), OptionSeq(Prune(kids[i], side)), sep, s);
  }

  lemma OrPart(e: Expr, side: Side)
    requires e.Or? && Arity(e, 2) && KeepsOrs(side)
    ensures PrintOption(Prune(e, side)) ==
            Negation(e.negated, Parens(e.parens, PrintJoined(PruneAll(e.kids, Whole), OR)))
    ensures Parens(e.parens, PrintJoined(PruneAll(e.kids, Whole), OR)) != []
  {
    ArityWeaken(e);
    WholeKeepsAllOf(e.kids);
    ArityPrintable(e);
    PrintNotEmpty(Or(false, e.parens, e.kids));
  }

  // A conjunction of which nothing was kept, and which has no parentheses, prints nothing.
  lemma AndPart(e: Expr, side: Side, s: Sym)
    requires e.And? && Arity(e, 2) && !side.Carried?
    ensures var body := Parens(e.parens, PrintJoined(PruneAll(e.kids, side), AND));
            PrintOption(Prune(e, side)) == if body == [] then [] else Negation(e.negated, body)
    ensures Parens(e.parens, PrintJoined(PruneAll(e.kids, side), AND)) == [] ==>
              PrintJoined(PruneAll(e.kids, side), AND) == []
  {
    var kept := PruneAll(e.kids, side);
    if kept != [] {
      ArityWeaken(e);
      PrunedText(e, side);
      PrintNotEmpty(And(false, e.parens, kept));
    }
  }

  lemma UnspinedMembers(os: seq<Occ>)
    ensures forall o | o in os :: o.(spine := false) in Unspined(os)
    ensures forall o | o in Unspined(os) :: exists o' :: o' in os && o == o'.(spine := false)
  {
    forall o | o in os ensures o.(spine := false) in Unspined(os) {
      var i :| 0 <= i < |os| && os[i] == o;
      assert Unspined(os)[i] == o.(spine := false);
    }
    forall o | o in Unspined(os) ensures exists o' :: o' in os && o == o'.(spine := false) {
      var i :| 0 <= i < |os| && Unspined(os)[i] == o;
      assert os[i] in os;
    }
  }

  lemma {:induction false} NoGudKey(os: seq<Occ>, pk: string, rk: string)
    requires forall o | o in os :: !o.spine
    ensures GudKey(os, pk, rk) == map[]
  {
    if os != [] {
      NoGudKey(os[1..], pk, rk);
    }
  }
}

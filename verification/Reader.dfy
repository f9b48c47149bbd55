// How the service reads a generated expression: NOT before AND before OR
// (Amazon DynamoDB Developer Guide, "Precedence in conditions"), with the AND of a
// BETWEEN belonging to the BETWEEN.

module Reader {
  import opened Values
  import opened Expressions
  import opened Splitting

  datatype Cond =
    | Test(pred: Pred)
    | Not(cond: Cond)
    | Both(left: Cond, right: Cond)
    | Either(left: Cond, right: Cond)

  predicate Means(c: Cond, m: Meaning) {
    match c
    case Test(p) => m(p)
    case Not(d) => !Means(d, m)
    case Both(l, r) => Means(l, m) && Means(r, m)
    case Either(l, r) => Means(l, m) || Means(r, m)
  }

  datatype Parse<+T> = Fail | Got(value: T, rest: Text)

  const LP: Tok<Value> := Word("(")
  const RP: Tok<Value> := Word(")")
  const NOT: Tok<Value> := Word("NOT ")

  predicate Starts(t: Text, text: string) {
    t != [] && t[0] == Word(text)
  }

  function OpOf(text: string): Option<CompareOp> {
    if text == " = " then Some(Eq)
    else if text == " <> " then Some(Ne)
    else if text == " < " then Some(Lt)
    else if text == " <= " then Some(Le)
    else if text == " > " then Some(Gt)
    else if text == " >= " then Some(Ge)
    else None
  }

  // One operand, then more of them after commas, then the closing parenthesis.
  function ReadChoices(t: Text): (r: Parse<seq<Value>>)
    ensures r.Got? ==> |r.rest| < |t|
  {
    if |t| < 2 || !t[0].Operand? then Fail
    else if t[1] == RP then Got([t[0].operand], t[2..])
    else if t[1] == Word(", ") then
      match ReadChoices(t[2..])
      case Got(more, rest) => Got([t[0].operand] + more, rest)
      case Fail => Fail
    else Fail
  }

  function ReadAfterPath(lhs: string, t: Text): (r: Parse<Pred>)
    ensures r.Got? ==> |r.rest| <= |t|
  {
    if |t| < 2 || !t[0].Word? then Fail
    else if t[0].text == " IN (" then
      match ReadChoices(t[1..])
      case Got(choices, rest) => Got(In(lhs, choices), rest)
      case Fail => Fail
    else if !t[1].Operand? then Fail
    else if t[0].text == " BETWEEN " then
      if |t| >= 4 && t[2] == Word(AND) && t[3].Operand?
      then Got(Between(lhs, t[1].operand, t[3].operand), t[4..]) else Fail
    else
      match OpOf(t[0].text)
      case Some(op) => Got(Comparison(lhs, op, t[1].operand), t[2..])
      case None => Fail
  }

  function ReadCall(name: string, t: Text): (r: Parse<Pred>)
    ensures r.Got? ==> |r.rest| < |t|
  {
    if |t| < 2 || !t[0].Attr? then Fail
    else if name == "attribute_exists(" then
      if t[1] == RP then Got(AttributeExists(t[0].path), t[2..]) else Fail
    else if |t| < 4 || t[1] != Word(", ") || !t[2].Operand? || t[3] != RP then Fail
    else if name == "begins_with(" then Got(BeginsWith(t[0].path, t[2].operand), t[4..])
    else if name == "contains(" then Got(Contains(t[0].path, t[2].operand), t[4..])
    else if name == "attribute_type(" && t[2].operand.S? then Got(AttributeType(t[0].path, t[2].operand.s), t[4..])
    else Fail
  }

  function ReadPred(t: Text): (r: Parse<Pred>)
    ensures r.Got? ==> |r.rest| < |t|
  {
    if t == [] then Fail
    else match t[0]
      case Attr(path) => ReadAfterPath(path, t[1..])
      case Word(name) => ReadCall(name, t[1..])
      case Operand(_) => Fail
  }

  function Joined(l: Option<Cond>, c: Cond, conjunction: bool): Cond {
    if l.None? then c else if conjunction then Both(l.value, c) else Either(l.value, c)
  }

  function ReadFactor(t: Text): (r: Parse<Cond>)
    ensures r.Got? ==> |r.rest| < |t|
    decreases |t|, 0
  {
    if Starts(t, "NOT ") then
      match ReadFactor(t[1..])
      case Got(c, rest) => Got(Not(c), rest)
      case Fail => Fail
    else if Starts(t, "(") then
      match ReadOrs(None, t[1..])
      case Got(c, rest) => if Starts(rest, ")") then Got(c, rest[1..]) else Fail
      case Fail => Fail
    else
      match ReadPred(t)
      case Got(p, rest) => Got(Test(p), rest)
      case Fail => Fail
  }

  // A chain of ANDs, given what was read of it so far.
  function ReadAnds(l: Option<Cond>, t: Text): (r: Parse<Cond>)
    ensures r.Got? ==> |r.rest| < |t|
    decreases |t|, 1
  {
    match ReadFactor(t)
    case Fail => Fail
    case Got(c, rest) =>
      if Starts(rest, AND) then ReadAnds(Some(Joined(l, c, true)), rest[1..]) else Got(Joined(l, c, true), rest)
  }

  function ReadOrs(l: Option<Cond>, t: Text): (r: Parse<Cond>)
    ensures r.Got? ==> |r.rest| < |t|
    decreases |t|, 2
  {
    match ReadAnds(None, t)
    case Fail => Fail
    case Got(c, rest) =>
      if Starts(rest, OR) then ReadOrs(Some(Joined(l, c, false)), rest[1..]) else Got(Joined(l, c, false), rest)
  }

  function Read(t: Text): Option<Cond> {
    match ReadOrs(None, t)
    case Got(c, rest) => if rest == [] then Some(c) else None
    case Fail => None
  }

  // A key condition is a conjunction of comparisons, BETWEENs and begins_withs, one
  // for each key attribute, without NOT, OR or `<>`; the service accepts nothing
  // else there.
  predicate KeyTest(p: Pred) {
    (p.Comparison? && p.op != Ne) || p.Between? || p.BeginsWith?
  }

  predicate OneTestEach(tests: seq<Pred>) {
    && (forall p | p in tests :: KeyTest(p))
    && (forall i, j | 0 <= i < j < |tests| :: tests[i].lhs != tests[j].lhs)
  }

  predicate KeyLegal(c: Cond) {
    Conjuncts(c).Some? && OneTestEach(Conjuncts(c).value)
  }

  function Chain(a: Option<seq<Pred>>, b: Option<seq<Pred>>): Option<seq<Pred>> {
    if a.None? || b.None? then None else Some(a.value + b.value)
  }

  // The predicates of a conjunction of nothing but predicates.
  function Conjuncts(c: Cond): Option<seq<Pred>> {
    match c
    case Test(p) => Some([p])
    case Both(l, r) => Chain(Conjuncts(l), Conjuncts(r))
    case _ => None
  }

  // The same of a tree.
  function Tests(e: Expr): Option<seq<Pred>>
    decreases e, 1
  {
    if e.negated then None
    else match e
      case Leaf(_, _, pred) => Some([pred])
      case And(_, _, kids) => TestsOf(kids)
      case Or(_, _, kids) => if |kids| == 1 then Tests(kids[0]) else None
  }

  function TestsOf(kids: seq<Expr>): Option<seq<Pred>>
    decreases kids, 0
  {
    if kids == [] then Some([]) else Chain(Tests(kids[0]), TestsOf(kids[1..]))
  }

  // ---- reading back what was printed ----------------------------------------

  predicate BareOr(e: Expr) {
    e.Or? && !e.negated && !e.parens
  }

  // No OR stands directly under an AND without parentheses or a NOT.
  predicate Guarded(e: Expr) {
    e.Leaf? || forall k | k in e.kids :: Guarded(k) && (e.And? ==> !BareOr(k))
  }

  predicate Delimited(e: Expr) {
    e.Leaf? || e.negated || e.parens
  }

  lemma {:induction false} ChoicesReadBack(choices: seq<Value>, rest: Text)
    requires choices != []
    ensures ReadChoices(ChoicesText(choices) + [RP] + rest) == Got(choices, rest)
  {
    var t := ChoicesText(choices) + [RP] + rest;
    if |choices| == 1 {
      assert t == [Operand(choices[0]), RP] + rest;
      assert t[2..] == rest;
      assert choices == [choices[0]];
    } else {
      var head: Text := [Operand(choices[0]), Word(", ")];
      var tail := ChoicesText(choices[1..]) + [RP] + rest;
      ChoicesReadBack(choices[1..], rest);
      assert t == head + tail;
      assert t[2..] == tail;
      assert choices == [choices[0]] + choices[1..];
    }
  }

  lemma InReadBack(lhs: string, choices: seq<Value>, rest: Text)
    requires choices != []
    ensures ReadPred(PredText(In(lhs, choices)) + rest) == Got(In(lhs, choices), rest)
  {
    var tail := ChoicesText(choices) + [RP] + rest;
    var t := PredText(In(lhs, choices)) + rest;
    ChoicesReadBack(choices, rest);
    assert t == [Attr(lhs), Word(" IN (")] + tail;
    assert t[1..][1..] == tail;
    assert |tail| > 0;
  }

  lemma PredReadBack(p: Pred, rest: Text)
    requires p.In? ==> p.choices != []
    ensures ReadPred(PredText(p) + rest) == Got(p, rest)
    ensures !Starts(PredText(p) + rest, "NOT ") && !Starts(PredText(p) + rest, "(")
  {
    var t := PredText(p) + rest;
    var past := t[1..];
    match p {
      case Comparison(lhs, op, rhs) => assert past[2..] == rest;
      case Between(lhs, lo, hi) => assert past[4..] == rest;
      case In(lhs, choices) => InReadBack(lhs, choices, rest);
      case AttributeExists(lhs) => assert past[2..] == rest;
      case BeginsWith(lhs, prefix) => assert past[4..] == rest;
      case Contains(lhs, operand) => assert past[4..] == rest;
      case AttributeType(lhs, tag) => assert past[4..] == rest;
    }
  }

  predicate MeansOption(l: Option<Cond>, m: Meaning, whenNone: bool) {
    if l.None? then whenNone else Means(l.value, m)
  }

  function ConjunctsSoFar(l: Option<Cond>): Option<seq<Pred>> {
    if l.None? then Some([]) else Conjuncts(l.value)
  }

  lemma ChainFacts(a: Option<seq<Pred>>, b: Option<seq<Pred>>, c: Option<seq<Pred>>)
    ensures Chain(Chain(a, b), c) == Chain(a, Chain(b, c))
    ensures Chain(Some([]), a) == a && Chain(a, Some([])) == a
  {
    if a.Some? && b.Some? && c.Some? {
      assert (a.value + b.value) + c.value == a.value + (b.value + c.value);
    }
    if a.Some? {
      assert [] + a.value == a.value && a.value + [] == a.value;
    }
  }

  // What a chain reader does once it has read c and rest remains.
  function AndThen(c: Cond, rest: Text): Parse<Cond> {
    if Starts(rest, AND) then ReadAnds(Some(c), rest[1..]) else Got(c, rest)
  }

  function OrThen(c: Cond, rest: Text): Parse<Cond> {
    if Starts(rest, OR) then ReadOrs(Some(c), rest[1..]) else Got(c, rest)
  }

  function Positive(e: Expr): Expr {
    match e
    case Leaf(_, parens, pred) => Leaf(false, parens, pred)
    case And(_, parens, kids) => And(false, parens, kids)
    case Or(_, parens, kids) => Or(false, parens, kids)
  }

  function Bare(e: Expr): Expr {
    match e
    case Leaf(_, _, pred) => Leaf(false, false, pred)
    case And(_, _, kids) => And(false, false, kids)
    case Or(_, _, kids) => Or(false, false, kids)
  }

  lemma {:induction false} FactorReadBack(e: Expr, rest: Text) returns (c: Cond)
    requires Arity(e, 1) && Guarded(e) && Delimited(e)
    ensures ReadFactor(Print(e) + rest) == Got(c, rest)
    ensures forall m: Meaning :: Means(c, m) == Eval(e, m)
    ensures Conjuncts(c) == Tests(e)
    decreases |Print(e)|, 0, e
  {
    if e.negated {
      var d := OrsReadBack(None, Positive(e), [RP] + rest);
      NegatedFactor(Print(Positive(e)), rest, d);
      c := Not(d);
    } else if e.Leaf? {
      PredReadBack(e.pred, rest);
      c := Test(e.pred);
    } else {
      c := OrsReadBack(None, Bare(e), [RP] + rest);
      GroupFactor(Print(Bare(e)), rest, c);
    }
  }

  lemma GroupFactor(body: Text, rest: Text, c: Cond)
    requires ReadOrs(None, body + ([RP] + rest)) == Got(c, [RP] + rest)
    ensures ReadFactor([LP] + body + [RP] + rest) == Got(c, rest)
  {
    var t := [LP] + body + [RP] + rest;
    assert t[1..] == body + ([RP] + rest);
    assert ([RP] + rest)[1..] == rest;
  }

  lemma NegatedFactor(body: Text, rest: Text, c: Cond)
    requires ReadOrs(None, body + ([RP] + rest)) == Got(c, [RP] + rest)
    ensures ReadFactor([NOT, LP] + body + [RP] + rest) == Got(Not(c), rest)
  {
    var t := [NOT, LP] + body + [RP] + rest;
    GroupFactor(body, rest, c);
    assert t[1..] == [LP] + body + [RP] + rest;
  }

  lemma {:induction false} AndsReadBack(l: Option<Cond>, e: Expr, rest: Text) returns (c: Cond)
    requires Arity(e, 1) && Guarded(e) && !BareOr(e)
    ensures ReadAnds(l, Print(e) + rest) == AndThen(c, rest)
    ensures forall m: Meaning :: Means(c, m) == (MeansOption(l, m, true) && Eval(e, m))
    ensures Conjuncts(c) == Chain(ConjunctsSoFar(l), Tests(e))
    decreases |Print(e)|, 1, e
  {
    if Delimited(e) {
      var d := FactorReadBack(e, rest);
      c := Joined(l, d, true);
      ChainFacts(Tests(e), None, None);
    } else {
      c := AndKidsReadBack(l, e.kids, rest);
    }
  }

  lemma JoinedText(head: Text, sep: string, tail: Text, rest: Text)
    ensures head + [Word(sep)] + tail + rest == head + ([Word(sep)] + (tail + rest))
    ensures ([Word(sep)] + (tail + rest))[1..] == tail + rest
  {
  }

  lemma HeadOrTail(kids: seq<Expr>)
    requires kids != []
    ensures forall k :: k in kids <==> k == kids[0] || k in kids[1..]
  {
  }

  lemma {:induction false} AndKidsReadBack(l: Option<Cond>, kids: seq<Expr>, rest: Text) returns (c: Cond)
    requires kids != [] && forall k | k in kids :: Arity(k, 1) && Guarded(k) && !BareOr(k)
    ensures ReadAnds(l, PrintJoined(kids, AND) + rest) == AndThen(c, rest)
    ensures forall m: Meaning :: Means(c, m) == (MeansOption(l, m, true) && forall k | k in kids :: Eval(k, m))
    ensures Conjuncts(c) == Chain(ConjunctsSoFar(l), TestsOf(kids))
    decreases |PrintJoined(kids, AND)|, 1, kids
  {
    hide Eval, Conjuncts, Tests;
    if |kids| == 1 {
      c := AndsReadBack(l, kids[0], rest);
      OneKid(kids);
    } else {
      var tail := PrintJoined(kids[1..], AND) + rest;
      var first := AndsReadBack(l, kids[0], [Word(AND)] + tail);
      JoinedText(Print(kids[0]), AND, PrintJoined(kids[1..], AND), rest);
      c := AndKidsReadBack(Some(first), kids[1..], rest);
      ChainFacts(ConjunctsSoFar(l), Tests(kids[0]), TestsOf(kids[1..]));
      forall m: Meaning ensures Means(c, m) == (MeansOption(l, m, true) && forall k | k in kids :: Eval(k, m)) {
        HeadOrTail(kids);
      }
    }
  }

  lemma OneKid(kids: seq<Expr>)
    requires |kids| == 1
    ensures kids == [kids[0]] && TestsOf(kids) == Tests(kids[0])
    ensures forall m: Meaning :: (forall k | k in kids :: Eval(k, m)) <==> Eval(kids[0], m)
    ensures forall m: Meaning :: (exists k | k in kids :: Eval(k, m)) <==> Eval(kids[0], m)
  {
    ChainFacts(Tests(kids[0]), None, None);
    assert kids == [kids[0]];
  }

  lemma {:induction false} OrsReadBack(l: Option<Cond>, e: Expr, rest: Text) returns (c: Cond)
    requires Arity(e, 1) && Guarded(e) && !Starts(rest, AND)
    ensures ReadOrs(l, Print(e) + rest) == OrThen(c, rest)
    ensures forall m: Meaning :: Means(c, m) == (MeansOption(l, m, false) || Eval(e, m))
    ensures Conjuncts(c) == if l.None? then Tests(e) else None
    decreases |Print(e)|, 2, e
  {
    if BareOr(e) {
      c := OrKidsReadBack(l, e.kids, rest);
    } else {
      var d := AndsReadBack(None, e, rest);
      c := Joined(l, d, false);
      ChainFacts(Tests(e), None, None);
    }
  }

  lemma {:induction false} OrKidsReadBack(l: Option<Cond>, kids: seq<Expr>, rest: Text) returns (c: Cond)
    requires kids != [] && (forall k | k in kids :: Arity(k, 1) && Guarded(k)) && !Starts(rest, AND)
    ensures ReadOrs(l, PrintJoined(kids, OR) + rest) == OrThen(c, rest)
    ensures forall m: Meaning :: Means(c, m) == (MeansOption(l, m, false) || exists k | k in kids :: Eval(k, m))
    ensures Conjuncts(c) == if l.None? && |kids| == 1 then Tests(kids[0]) else None
    decreases |PrintJoined(kids, OR)|, 2, kids
  {
    hide Eval, Conjuncts, Tests;
    if |kids| == 1 {
      c := OrsReadBack(l, kids[0], rest);
      OneKid(kids);
    } else {
      var tail := PrintJoined(kids[1..], OR) + rest;
      var first := OrsReadBack(l, kids[0], [Word(OR)] + tail);
      JoinedText(Print(kids[0]), OR, PrintJoined(kids[1..], OR), rest);
      c := OrKidsReadBack(Some(first), kids[1..], rest);
      forall m: Meaning ensures Means(c, m) == (MeansOption(l, m, false) || exists k | k in kids :: Eval(k, m)) {
        HeadOrTail(kids);
      }
    }
  }

  // The printed text of a guarded tree without empty groups means the tree, and is
  // a conjunction of predicates exactly when the tree is.
  lemma ReadBack(e: Expr)
    requires Arity(e, 1) && Guarded(e)
    ensures Read(Print(e)).Some? && forall m: Meaning :: Means(Read(Print(e)).value, m) == Eval(e, m)
    ensures Conjuncts(Read(Print(e)).value) == Tests(e)
  {
    var c := OrsReadBack(None, e, []);
    assert Print(e) + [] == Print(e);
  }

  // ---- what cannot be read --------------------------------------------------

  predicate Opens(t: Tok<Value>) {
    t == LP || t == Word(" IN (")
  }

  // Nowhere does a closing parenthesis follow an opening one.
  predicate NoHole(t: Text) {
    forall i | 0 <= i < |t| - 1 :: !(Opens(t[i]) && t[i + 1] == RP)
  }

  // What a reader consumes: no hole inside, and none when put in parentheses or joined.
  predicate Clean(t: Text) {
    t != [] && t[0] != RP && !Opens(t[|t| - 1]) && NoHole(t)
  }

  predicate Consumed(t: Text, rest: Text) {
    |rest| < |t| && t[|t| - |rest|..] == rest && Clean(t[..|t| - |rest|])
  }

  lemma CleanJoin(a: Text, sep: Tok<Value>, b: Text)
    requires Clean(a) && Clean(b) && !Opens(sep) && sep != RP
    ensures Clean(a + [sep] + b)
  {
  }

  lemma CleanGroup(a: Text)
    requires Clean(a)
    ensures Clean([LP] + a + [RP])
  {
  }

  lemma {:induction false} ChoicesConsumed(t: Text)
    requires ReadChoices(t).Got?
    ensures var rest := ReadChoices(t).rest;
            && t[|t| - |rest|..] == rest && t[0].Operand?
            && forall i | 0 <= i < |t| - |rest| :: !Opens(t[i])
  {
    var rest := ReadChoices(t).rest;
    if t[1] == Word(", ") {
      ChoicesConsumed(t[2..]);
      assert forall i | 2 <= i < |t| - |rest| :: t[i] == t[2..][i - 2];
    }
  }

  lemma PredConsumed(t: Text)
    requires ReadPred(t).Got?
    ensures Consumed(t, ReadPred(t).rest)
  {
    var rest := ReadPred(t).rest;
    if t[0].Attr? && t[1].Word? && t[1].text == " IN (" {
      ChoicesConsumed(t[1..][1..]);
      assert forall i | 2 <= i < |t| - |rest| :: t[i] == t[1..][1..][i - 2];
      assert forall i | 2 <= i < |t| - |rest| :: !Opens(t[i]);
    }
  }

  lemma ConsumedChain(t: Text, mid: Text, rest: Text)
    requires Consumed(t, mid) && mid != [] && !Opens(mid[0]) && mid[0] != RP && Consumed(mid[1..], rest)
    ensures Consumed(t, rest)
  {
    var a, b := t[..|t| - |mid|], mid[1..][..|mid| - 1 - |rest|];
    CleanJoin(a, mid[0], b);
    assert t[..|t| - |rest|] == a + [mid[0]] + b;
  }

  lemma {:induction false} FactorConsumed(t: Text)
    requires ReadFactor(t).Got?
    ensures Consumed(t, ReadFactor(t).rest)
    decreases |t|, 0
  {
    if Starts(t, "NOT ") {
      FactorConsumed(t[1..]);
      ConsumedNot(t, ReadFactor(t).rest);
    } else if Starts(t, "(") {
      OrsConsumed(None, t[1..]);
      ConsumedGroup(t, ReadOrs(None, t[1..]).rest);
    } else {
      PredConsumed(t);
    }
  }

  lemma ConsumedNot(t: Text, rest: Text)
    requires Starts(t, "NOT ") && Consumed(t[1..], rest)
    ensures Consumed(t, rest)
  {
    var a := t[1..][..|t| - 1 - |rest|];
    assert t[..|t| - |rest|] == [NOT] + a;
  }

  lemma ConsumedGroup(t: Text, inner: Text)
    requires Starts(t, "(") && Consumed(t[1..], inner) && Starts(inner, ")")
    ensures Consumed(t, inner[1..])
  {
    var a := t[1..][..|t| - 1 - |inner|];
    CleanGroup(a);
    assert t[..|t| - |inner| + 1] == [LP] + a + [RP];
  }

  lemma {:induction false} AndsConsumed(l: Option<Cond>, t: Text)
    requires ReadAnds(l, t).Got?
    ensures Consumed(t, ReadAnds(l, t).rest)
    decreases |t|, 1
  {
    FactorConsumed(t);
    var f := ReadFactor(t);
    if Starts(f.rest, AND) {
      AndsConsumed(Some(Joined(l, f.value, true)), f.rest[1..]);
      ConsumedChain(t, f.rest, ReadAnds(l, t).rest);
    }
  }

  lemma {:induction false} OrsConsumed(l: Option<Cond>, t: Text)
    requires ReadOrs(l, t).Got?
    ensures Consumed(t, ReadOrs(l, t).rest)
    decreases |t|, 2
  {
    AndsConsumed(None, t);
    var a := ReadAnds(None, t);
    if Starts(a.rest, OR) {
      OrsConsumed(Some(Joined(l, a.value, false)), a.rest[1..]);
      ConsumedChain(t, a.rest, ReadOrs(l, t).rest);
    }
  }

  // A conjunction or disjunction without children is a parenthesised one: all
  // that cutting a tree leaves behind.
  predicate Printable(e: Expr) {
    e.Leaf? || ((e.kids == [] ==> e.parens) && forall k | k in e.kids :: Printable(k))
  }

  predicate HasHole(t: Text) {
    !NoHole(t)
  }

  lemma HoleInside(a: Text, t: Text, b: Text)
    requires HasHole(t)
    ensures HasHole(a + t + b)
  {
    var i :| 0 <= i < |t| - 1 && Opens(t[i]) && t[i + 1] == RP;
    var s := a + t + b;
    assert s[|a| + i] == t[i] && s[|a| + i + 1] == t[i + 1];
  }

  lemma HoleBeside(a: Text, b: Text)
    ensures HasHole(a) || HasHole(b) ==> HasHole(a + b)
  {
    if HasHole(a) {
      HoleInside([], a, b);
      assert [] + a + b == a + b;
    } else if HasHole(b) {
      HoleInside(a, b, []);
      assert a + b + [] == a + b;
    }
  }

  lemma {:induction false} HoleInJoined(kids: seq<Expr>, sep: string, k: Expr)
    requires k in kids && HasHole(Print(k))
    ensures HasHole(PrintJoined(kids, sep))
  {
    if |kids| > 1 {
      var head, tail := Print(kids[0]) + [Word(sep)], PrintJoined(kids[1..], sep);
      HoleBeside(Print(kids[0]), [Word(sep)]);
      if k != kids[0] {
        HoleInJoined(kids[1..], sep, k);
      }
      HoleBeside(head, tail);
      assert PrintJoined(kids, sep) == head + tail;
    }
  }

  lemma WrappedHole(body: Text, parens: bool, negated: bool)
    requires HasHole(Parens(parens, body))
    ensures HasHole(Negation(negated, Parens(parens, body)))
  {
    HoleInside([NOT, LP], Parens(parens, body), [RP]);
  }

  lemma {:induction false} EmptyGroupPrintsHole(e: Expr)
    requires Printable(e) && !Arity(e, 1)
    ensures HasHole(Print(e))
  {
    if e.Leaf? {
      assert PredText(e.pred)[1] == Word(" IN (") && PredText(e.pred)[2] == RP;
      HoleInside([NOT, LP], PredText(e.pred), [RP]);
    } else {
      var body := PrintJoined(e.kids, if e.And? then AND else OR);
      if e.kids == [] {
        assert Parens(true, body)[0] == LP && Parens(true, body)[1] == RP;
      } else {
        var k :| k in e.kids && !Arity(k, 1);
        EmptyGroupPrintsHole(k);
        HoleInJoined(e.kids, if e.And? then AND else OR, k);
        HoleInside([LP], body, [RP]);
      }
      WrappedHole(body, e.parens, e.negated);
    }
  }

  // The service can read a generated expression exactly when no parenthesised
  // conjunction in it was left empty; then it means the tree it was printed for.
  lemma ReadableExactly(e: Expr)
    requires Printable(e) && Guarded(e)
    ensures Read(Print(e)).Some? <==> Arity(e, 1)
    ensures Arity(e, 1) ==> forall m: Meaning :: Means(Read(Print(e)).value, m) == Eval(e, m)
    ensures Arity(e, 1) ==> Conjuncts(Read(Print(e)).value) == Tests(e)
  {
    if Arity(e, 1) {
      ReadBack(e);
    } else {
      EmptyGroupPrintsHole(e);
      HoleUnreadable(Print(e));
    }
  }

  lemma HoleUnreadable(t: Text)
    requires HasHole(t)
    ensures Read(t).None?
  {
    assert t[..|t|] == t;
    if Read(t).Some? {
      OrsConsumed(None, t);
    }
  }

  lemma {:induction false} PrintNotEmpty(e: Expr)
    requires Printable(e)
    ensures Print(e) != []
  {
    if !e.Leaf? && !e.parens && !e.negated {
      PrintNotEmpty(e.kids[0]);
    }
  }

  lemma {:induction false} PrunedText(e: Expr, s: Side)
    requires Arity(e, 1) && Prune(e, s).Some?
    ensures Printable(Prune(e, s).value)
    ensures Guarded(e) ==> Guarded(Prune(e, s).value)
  {
    if e.And? {
      forall x | x in PruneAll(e.kids, s)
        ensures Printable(x) && (Guarded(e) ==> Guarded(x) && !BareOr(x))
      {
        var k := PruneAllSource(e.kids, s, x);
        PrunedText(k, s);
      }
    } else {
      ArityPrintable(e);
    }
  }

  lemma {:induction false} ArityPrintable(e: Expr)
    requires Arity(e, 1)
    ensures Printable(e)
  {
    if !e.Leaf? {
      forall k | k in e.kids ensures Printable(k) {
        ArityPrintable(k);
      }
    }
  }
}

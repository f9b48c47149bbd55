// The WHERE tree as a value: what it means, which predicates occur in it and
// where, what is printed for it, and what each generated expression keeps of it.

module Expressions {
  import opened Values

  datatype CompareOp = Eq | Ne | Lt | Le | Gt | Ge

  datatype Pred =
    | Comparison(lhs: string, op: CompareOp, rhs: Value)
    | Between(lhs: string, lo: Value, hi: Value)
    | BeginsWith(lhs: string, prefix: Value)
    | In(lhs: string, choices: seq<Value>)
    | Contains(lhs: string, operand: Value)
    | AttributeType(lhs: string, tag: string)
    | AttributeExists(lhs: string)

  datatype Expr =
    | Leaf(negated: bool, parens: bool, pred: Pred)
    | And(negated: bool, parens: bool, kids: seq<Expr>)
    | Or(negated: bool, parens: bool, kids: seq<Expr>)

  // ---- meaning --------------------------------------------------------------

  // What the predicates say of one item. Nothing is assumed about it: every law
  // below holds whatever the service takes a predicate to mean.
  type Meaning = Pred -> bool

  predicate Eval(e: Expr, m: Meaning) {
    match e
    case Leaf(negated, _, pred) => m(pred) != negated
    case And(negated, _, kids) => (forall k | k in kids :: Eval(k, m)) != negated
    case Or(negated, _, kids) => (exists k | k in kids :: Eval(k, m)) != negated
  }

  // An expression that was not printed imposes nothing.
  predicate EvalOption(e: Option<Expr>, m: Meaning) {
    e.Some? ==> Eval(e.value, m)
  }

  // A predicate sees only the value of its own attribute.
  type Semantics = (Pred, Option<Value>) -> bool

  function ItemMeaning(sem: Semantics, item: Item): Meaning {
    (p: Pred) => sem(p, Lookup(item, p.lhs))
  }

  predicate Holds(e: Expr, sem: Semantics, item: Item) {
    Eval(e, ItemMeaning(sem, item))
  }

  // ---- occurrences ----------------------------------------------------------

  // One predicate of a tree, in left-to-right order: whether it carries its own
  // NOT, and whether only conjunctions stand above it.
  datatype Occ = Occ(pred: Pred, negated: bool, spine: bool)

  function Occs(e: Expr, spine: bool): seq<Occ>
    decreases e, 1
  {
    match e
    case Leaf(negated, _, pred) => [Occ(pred, negated, spine)]
    case And(_, _, kids) => OccsOf(kids, spine)
    case Or(_, _, kids) => OccsOf(kids, false)
  }

  function OccsOf(kids: seq<Expr>, spine: bool): seq<Occ>
    decreases kids, 0
  {
    if kids == [] then [] else Occs(kids[0], spine) + OccsOf(kids[1..], spine)
  }

  function Preds(e: Expr): set<Pred> {
    match e
    case Leaf(_, _, pred) => {pred}
    case And(_, _, kids) => set k, p | k in kids && p in Preds(k) :: p
    case Or(_, _, kids) => set k, p | k in kids && p in Preds(k) :: p
  }

  // Every conjunction and disjunction has at least n children, every IN a choice.
  predicate Arity(e: Expr, n: nat) {
    match e
    case Leaf(_, _, pred) => pred.In? ==> pred.choices != []
    case And(_, _, kids) => |kids| >= n && forall k | k in kids :: Arity(k, n)
    case Or(_, _, kids) => |kids| >= n && forall k | k in kids :: Arity(k, n)
  }

  // No predicate is written twice.
  predicate Linear(e: Expr) {
    e.Leaf? ||
    (&& (forall k | k in e.kids :: Linear(k))
     && (forall i, j | 0 <= i < j < |e.kids| :: Preds(e.kids[i]) !! Preds(e.kids[j])))
  }

  // ---- what each generated expression keeps ---------------------------------

  // The four ways a tree is cut: the two expressions of a Query, the condition
  // of a per-item write, and (never printed) what the item key stands for. Whole
  // is a condition below an OR, where nothing is dropped.
  datatype Side =
    | KeyCondition(pk: seq<string>, sk: seq<string>)
    | Filter(pk: seq<string>, sk: seq<string>)
    | Residual(pkName: string, rkName: string)
    | Carried(pkName: string, rkName: string)
    | Whole

  predicate Rangeable(p: Pred) {
    p.Comparison? || p.Between? || p.BeginsWith?
  }

  predicate IsCarried(pk: string, rk: string, p: Pred, negated: bool) {
    Rangeable(p) && (p.lhs == pk || p.lhs == rk) && !negated
  }

  predicate Keeps(s: Side, p: Pred, negated: bool) {
    match s
    case KeyCondition(pk, sk) =>
      (p.Comparison? && (p.lhs in pk || p.lhs in sk)) ||
      ((p.Between? || p.BeginsWith?) && p.lhs in sk && !negated)
    case Filter(pk, sk) =>
      (p.Comparison? ==> p.lhs !in pk && p.lhs !in sk) &&
      (p.Between? || p.BeginsWith? ==> p.lhs !in sk)
    case Residual(pk, rk) => !IsCarried(pk, rk, p, negated)
    case Carried(pk, rk) => IsCarried(pk, rk, p, negated)
    case Whole => true
  }

  predicate KeepsOrs(s: Side) {
    !s.KeyCondition? && !s.Carried?
  }

  // What is left of a tree on one side. A parenthesised conjunction prints its
  // parentheses even when it kept nothing.
  function Prune(e: Expr, s: Side): Option<Expr>
    decreases e, 1
  {
    match e
    case Leaf(negated, _, pred) => if Keeps(s, pred, negated) then Some(e) else None
    case Or(_, _, _) => if KeepsOrs(s) then Some(e) else None
    case And(negated, parens, kids) =>
      var kept := PruneAll(kids, s);
      if kept == [] && !(parens && !s.Carried?) then None else Some(And(negated, parens, kept))
  }

  function PruneAll(kids: seq<Expr>, s: Side): seq<Expr>
    decreases kids, 0
  {
    if kids == [] then [] else OptionSeq(Prune(kids[0], s)) + PruneAll(kids[1..], s)
  }

  function OptionSeq(e: Option<Expr>): seq<Expr> {
    if e.Some? then [e.value] else []
  }

  // ---- text -----------------------------------------------------------------

  // A lexical piece of a generated expression: fixed text, an attribute path or
  // an operand. Before aliasing an operand is the value itself, after it the
  // token standing for the value; a path likewise.
  datatype Tok<+V> = Word(text: string) | Attr(path: string) | Operand(operand: V)

  type Text = seq<Tok<Value>>

  const AND := " AND "
  const OR := " OR "

  function OpText(op: CompareOp): string {
    match op
    case Eq => " = "
    case Ne => " <> "
    case Lt => " < "
    case Le => " <= "
    case Gt => " > "
    case Ge => " >= "
  }

  function ChoicesText(choices: seq<Value>): Text {
    if choices == [] then []
    else if |choices| == 1 then [Operand(choices[0])]
    else [Operand(choices[0]), Word(", ")] + ChoicesText(choices[1..])
  }

  function PredText(p: Pred): Text {
    match p
    case Comparison(lhs, op, rhs) => [Attr(lhs), Word(OpText(op)), Operand(rhs)]
    case Between(lhs, lo, hi) => [Attr(lhs), Word(" BETWEEN "), Operand(lo), Word(AND), Operand(hi)]
    case BeginsWith(lhs, prefix) => [Word("begins_with("), Attr(lhs), Word(", "), Operand(prefix), Word(")")]
    case In(lhs, choices) => [Attr(lhs), Word(" IN (")] + ChoicesText(choices) + [Word(")")]
    case Contains(lhs, operand) => [Word("contains("), Attr(lhs), Word(", "), Operand(operand), Word(")")]
    case AttributeType(lhs, tag) =>
      [Word("attribute_type("), Attr(lhs), Word(", "), Operand(Value.S(tag)), Word(")")]
    case AttributeExists(lhs) => [Word("attribute_exists("), Attr(lhs), Word(")")]
  }

  function Negation<V>(negated: bool, body: seq<Tok<V>>): seq<Tok<V>> {
    if negated then [Word("NOT "), Word("(")] + body + [Word(")")] else body
  }

  function Parens<V>(parens: bool, body: seq<Tok<V>>): seq<Tok<V>> {
    if parens then [Word("(")] + body + [Word(")")] else body
  }

  function Print(e: Expr): Text
    decreases e, 1
  {
    match e
    case Leaf(negated, _, pred) => Negation(negated, PredText(pred))
    case And(negated, parens, kids) => Negation(negated, Parens(parens, PrintJoined(kids, AND)))
    case Or(negated, parens, kids) => Negation(negated, Parens(parens, PrintJoined(kids, OR)))
  }

  function PrintJoined(kids: seq<Expr>, sep: string): Text
    decreases kids, 0
  {
    if kids == [] then []
    else if |kids| == 1 then Print(kids[0])
    else Print(kids[0]) + [Word(sep)] + PrintJoined(kids[1..], sep)
  }

  function PrintOption(e: Option<Expr>): Text {
    if e.Some? then Print(e.value) else []
  }
}

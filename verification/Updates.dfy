// SET and REMOVE lists: what a statement says, what the parser keeps of it, what is
// printed for it, and how the service reads that.

module Updates {
  import opened Values
  import opened Expressions
  import opened Reader

  // ---- the statement --------------------------------------------------------

  // What stands in the place of a value: another attribute, or its default.
  datatype Source = Attribute(name: string) | Default(path: string, value: Value)

  // The forms of an assignment.
  datatype Assignment =
    | Plain(lhs: string, value: Value)
    | Copy(lhs: string, from: Source)
    | Plus(lhs: string, from: Source, value: Value)
    | Minus(lhs: string, from: Source, value: Value)

  datatype Change = Setting(assignments: seq<Assignment>) | Removing(paths: seq<string>)

  // ---- what the parser makes of it ------------------------------------------

  // Unused parts are empty.
  datatype SetElement = SetElement(
    lhs: string,
    op: string,
    rhsValue: Option<Value>,
    rhsAttribute: string,
    ifNotExistsLhs: string,
    ifNotExistsValue: Option<Value>)

  datatype Mutation = SetAll(elements: seq<SetElement>) | RemoveAll(paths: seq<string>)

  function SourceElement(s: Source): SetElement {
    match s
    case Attribute(name) => SetElement("", "", None, name, "", None)
    case Default(path, value) => SetElement("", "", None, "", path, Some(value))
  }

  function BuildSet(a: Assignment): SetElement {
    match a
    case Plain(lhs, value) => SetElement(lhs, "", Some(value), "", "", None)
    case Copy(lhs, from) => SourceElement(from).(lhs := lhs)
    case Plus(lhs, from, value) => SourceElement(from).(lhs := lhs, op := "+", rhsValue := Some(value))
    case Minus(lhs, from, value) => SourceElement(from).(lhs := lhs, op := "-", rhsValue := Some(value))
  }

  function BuildChange(c: Change): Mutation {
    match c
    case Setting(assignments) =>
      SetAll(seq(|assignments|, i requires 0 <= i < |assignments| => BuildSet(assignments[i])))
    case Removing(paths) => RemoveAll(paths)
  }

  // ---- what is printed ------------------------------------------------------

  function PathsText(paths: seq<string>): Text {
    if paths == [] then []
    else if |paths| == 1 then [Attr(paths[0])]
    else [Attr(paths[0]), Word(", ")] + PathsText(paths[1..])
  }

  function SetText(e: SetElement): Text {
    [Attr(e.lhs), Word(" = ")]
    + (if e.rhsAttribute != "" then [Attr(e.rhsAttribute)]
       else if e.ifNotExistsLhs != "" then
         [Word("if_not_exists("), Attr(e.ifNotExistsLhs), Word(","), Operand(e.ifNotExistsValue.GetOr(Null)), Word(")")]
       else [])
    + (if e.op != "" then [Word(e.op)] else [])
    + (if e.rhsValue.Some? then [Operand(e.rhsValue.value)] else [])
  }

  function SetsText(elements: seq<SetElement>): Text {
    if elements == [] then []
    else if |elements| == 1 then SetText(elements[0])
    else SetText(elements[0]) + [Word(", ")] + SetsText(elements[1..])
  }

  function UpdateText(m: Mutation): Text {
    match m
    case SetAll(elements) => [Word("SET ")] + SetsText(elements)
    case RemoveAll(paths) => [Word("REMOVE ")] + PathsText(paths)
  }

  // ---- how the service reads it ---------------------------------------------

  // SET takes actions `path = operand`, `path = operand + operand` and `path = operand -
  // operand`, an operand being a path, a value or if_not_exists; REMOVE takes paths
  // (Amazon DynamoDB Developer Guide, "Update expressions").
  datatype Term = Path(path: string) | Const(value: Value) | IfNotExists(path: string, value: Value)

  datatype Rhs = Just(term: Term) | Sum(left: Term, right: Term) | Difference(left: Term, right: Term)

  datatype Action = Action(path: string, rhs: Rhs)

  datatype Update = Sets(actions: seq<Action>) | Removes(paths: seq<string>)

  function ReadTerm(t: Text): (r: Parse<Term>)
    ensures r.Got? ==> |r.rest| < |t|
  {
    if t == [] then Fail
    else match t[0]
      case Attr(path) => Got(Path(path), t[1..])
      case Operand(value) => Got(Const(value), t[1..])
      case Word(name) =>
        if name == "if_not_exists(" && |t| >= 5 && t[1].Attr? && t[2] == Word(",") && t[3].Operand? && t[4] == RP
        then Got(IfNotExists(t[1].path, t[3].operand), t[5..]) else Fail
  }

  function ReadRhs(t: Text): (r: Parse<Rhs>)
    ensures r.Got? ==> |r.rest| < |t|
  {
    match ReadTerm(t)
    case Fail => Fail
    case Got(left, rest) =>
      if Starts(rest, "+") || Starts(rest, "-") then
        match ReadTerm(rest[1..])
        case Fail => Fail
        case Got(right, after) => Got(if Starts(rest, "+") then Sum(left, right) else Difference(left, right), after)
      else Got(Just(left), rest)
  }

  function ReadAction(t: Text): (r: Parse<Action>)
    ensures r.Got? ==> |r.rest| < |t|
  {
    if |t| < 2 || !t[0].Attr? || t[1] != Word(" = ") then Fail
    else match ReadRhs(t[2..])
      case Fail => Fail
      case Got(rhs, rest) => Got(Action(t[0].path, rhs), rest)
  }

  function ReadActions(t: Text): Option<seq<Action>>
    decreases |t|
  {
    match ReadAction(t)
    case Fail => None
    case Got(action, rest) =>
      if rest == [] then Some([action])
      else if Starts(rest, ", ") then
        match ReadActions(rest[1..])
        case None => None
        case Some(more) => Some([action] + more)
      else None
  }

  function ReadPaths(t: Text): Option<seq<string>>
    decreases |t|
  {
    if t == [] || !t[0].Attr? then None
    else if |t| == 1 then Some([t[0].path])
    else if t[1] == Word(", ") then
      match ReadPaths(t[2..])
      case None => None
      case Some(more) => Some([t[0].path] + more)
    else None
  }

  function ReadUpdate(t: Text): Option<Update> {
    if Starts(t, "SET ") then
      match ReadActions(t[1..]) case None => None case Some(actions) => Some(Sets(actions))
    else if Starts(t, "REMOVE ") then
      match ReadPaths(t[1..]) case None => None case Some(paths) => Some(Removes(paths))
    else None
  }

  // ---- what the statement means ---------------------------------------------

  function TermOf(s: Source): Term {
    match s
    case Attribute(name) => Path(name)
    case Default(path, value) => IfNotExists(path, value)
  }

  function ActionOf(a: Assignment): Action {
    match a
    case Plain(lhs, value) => Action(lhs, Just(Const(value)))
    case Copy(lhs, from) => Action(lhs, Just(TermOf(from)))
    case Plus(lhs, from, value) => Action(lhs, Sum(TermOf(from), Const(value)))
    case Minus(lhs, from, value) => Action(lhs, Difference(TermOf(from), Const(value)))
  }

  function Meant(c: Change): Update {
    match c
    case Setting(assignments) =>
      Sets(seq(|assignments|, i requires 0 <= i < |assignments| => ActionOf(assignments[i])))
    case Removing(paths) => Removes(paths)
  }

  // The lists of the grammar are not empty, and a copied name is not.
  predicate Listed(c: Change) {
    match c
    case Setting(assignments) => assignments != [] && forall a | a in assignments :: CopiesName(a)
    case Removing(paths) => paths != []
  }

  predicate CopiesName(a: Assignment) {
    !a.Plain? && a.from.Attribute? ==> a.from.name != ""
  }

  // A default for the attribute called "" is taken for none at all.
  predicate Defaultless(a: Assignment) {
    !a.Plain? && a.from.Default? && a.from.path == ""
  }

  predicate Readable(c: Change) {
    c.Setting? ==> forall a | a in c.assignments :: !Defaultless(a)
  }

  // ---- the printed text is read as the statement ----------------------------

  predicate Ends(t: Text) {
    t == [] || t[0] == Word(", ")
  }

  // What is printed for a source, and for what follows it.
  function SourceText(s: Source): Text {
    match s
    case Attribute(name) => [Attr(name)]
    case Default(path, value) => [Word("if_not_exists("), Attr(path), Word(","), Operand(value), Word(")")]
  }

  function TailText(a: Assignment): Text {
    match a
    case Plus(_, _, value) => [Word("+"), Operand(value)]
    case Minus(_, _, value) => [Word("-"), Operand(value)]
    case _ => []
  }

  lemma SourceReads(s: Source, rest: Text)
    ensures ReadTerm(SourceText(s) + rest) == Got(TermOf(s), rest)
  {
    var text := SourceText(s) + rest;
    if s.Attribute? {
      assert text[1..] == rest;
    } else {
      assert text[5..] == rest;
    }
  }

  lemma SetIs(a: Assignment)
    requires !a.Plain? && CopiesName(a) && !Defaultless(a)
    ensures SetText(BuildSet(a)) == [Attr(a.lhs), Word(" = ")] + (SourceText(a.from) + TailText(a))
  {
    var lhs: Text, from, tail := [Attr(a.lhs), Word(" = ")], SourceText(a.from), TailText(a);
    match a {
      case Copy(_, _) => assert tail == [];
      case Plus(_, _, value) => SetTail(lhs, from, "+", value);
      case Minus(_, _, value) => SetTail(lhs, from, "-", value);
      case _ =>
    }
  }

  lemma SetTail(lhs: Text, from: Text, op: string, value: Value)
    ensures lhs + from + [Word(op)] + [Operand(value)] == lhs + (from + [Word(op), Operand(value)])
  {
  }

  lemma TailReads(a: Assignment, rest: Text)
    requires !a.Plain? && Ends(rest)
    ensures ReadRhs(SourceText(a.from) + (TailText(a) + rest)) == Got(ActionOf(a).rhs, rest)
  {
    var after := TailText(a) + rest;
    SourceReads(a.from, after);
    if a.Copy? {
      assert after == rest;
    } else {
      assert after[1..] == [Operand(a.value)] + rest && after[1..][1..] == rest;
    }
  }

  lemma ActionReads(a: Assignment, rest: Text)
    requires CopiesName(a) && !Defaultless(a) && Ends(rest)
    ensures ReadAction(SetText(BuildSet(a)) + rest) == Got(ActionOf(a), rest)
  {
    var text := SetText(BuildSet(a)) + rest;
    if a.Plain? {
      PlainReads(a, rest);
    } else {
      SetIs(a);
      TailReads(a, rest);
      hide SetText, BuildSet, SourceText, TailText, ReadRhs;
      HeadOf([Attr(a.lhs), Word(" = ")], SourceText(a.from), TailText(a), rest);
    }
  }

  lemma HeadOf(lhs: Text, from: Text, tail: Text, rest: Text)
    requires |lhs| == 2
    ensures var text := lhs + (from + tail) + rest;
            |text| >= 2 && text[0] == lhs[0] && text[1] == lhs[1] && text[2..] == from + (tail + rest)
  {
  }

  lemma PlainReads(a: Assignment, rest: Text)
    requires a.Plain? && Ends(rest)
    ensures ReadAction(SetText(BuildSet(a)) + rest) == Got(ActionOf(a), rest)
  {
    var lhs: Text, value: Text := [Attr(a.lhs), Word(" = ")], [Operand(a.value)];
    assert SetText(BuildSet(a)) == lhs + [] + [] + value == lhs + (value + []);
    HeadOf(lhs, value, [], rest);
    assert [] + rest == rest && (value + rest)[1..] == rest;
  }

  // An assignment from such a default is not read at all.
  lemma DefaultFails(a: Assignment, rest: Text)
    requires Defaultless(a) && Ends(rest)
    ensures ReadAction(SetText(BuildSet(a)) + rest).Fail?
  {
    var text := SetText(BuildSet(a)) + rest;
    assert text[0] == Attr(a.lhs) && text[1] == Word(" = ");
    if !a.Copy? {
      assert text[2] == Word(if a.Plus? then "+" else "-");
    } else {
      assert text[2..] == rest;
    }
  }

  function Elements(assignments: seq<Assignment>): seq<SetElement> {
    seq(|assignments|, i requires 0 <= i < |assignments| => BuildSet(assignments[i]))
  }

  function Actions(assignments: seq<Assignment>): seq<Action> {
    seq(|assignments|, i requires 0 <= i < |assignments| => ActionOf(assignments[i]))
  }

  lemma {:induction false} ActionsRead(assignments: seq<Assignment>)
    requires assignments != [] && forall a | a in assignments :: CopiesName(a)
    ensures ReadActions(SetsText(Elements(assignments))) ==
            if forall a | a in assignments :: !Defaultless(a) then Some(Actions(assignments)) else None
  {
    hide SetText, BuildSet, ActionOf, ReadAction, Defaultless, CopiesName;
    var first, more := assignments[0], assignments[1..];
    var head := SetText(BuildSet(first));
    var tail := SetsText(Elements(more));
    var rest: Text := if more == [] then [] else [Word(", ")] + tail;
    SetsTextFirst(assignments);
    assert forall a :: a in assignments <==> a == first || a in more;
    if Defaultless(first) {
      DefaultFails(first, rest);
    } else {
      ActionReads(first, rest);
      ActionsFirst(assignments);
      if more == [] {
        assert Actions(more) == Actions([]);
        assert [ActionOf(first)] + [] == [ActionOf(first)];
      } else {
        ActionsRead(more);
        hide SetsText, Elements, Actions;
        assert Starts(rest, ", ") && rest[1..] == tail;
      }
    }
  }

  lemma SetsTextFirst(assignments: seq<Assignment>)
    requires assignments != []
    ensures SetsText(Elements(assignments)) ==
            SetText(BuildSet(assignments[0])) +
            if |assignments| == 1 then [] else [Word(", ")] + SetsText(Elements(assignments[1..]))
  {
    hide SetText, BuildSet;
    assert Elements(assignments)[1..] == Elements(assignments[1..]);
  }

  lemma ActionsFirst(assignments: seq<Assignment>)
    requires assignments != []
    ensures Actions(assignments) == [ActionOf(assignments[0])] + Actions(assignments[1..])
    ensures Actions([]) == []
  {
  }

  lemma {:induction false} PathsRead(paths: seq<string>)
    requires paths != []
    ensures ReadPaths(PathsText(paths)) == Some(paths)
  {
    if |paths| == 1 {
      assert paths == [paths[0]];
    } else {
      assert PathsText(paths) == [Attr(paths[0]), Word(", ")] + PathsText(paths[1..]);
      PathsRead(paths[1..]);
      var head: Text, more := [Attr(paths[0]), Word(", ")], PathsText(paths[1..]);
      hide PathsText;
      assert (head + more)[2..] == more;
      assert paths == [paths[0]] + paths[1..];
    }
  }

  // The update expression of a statement is read as what the statement says, exactly
  // when it takes no default for an attribute called "".
  lemma UpdateReads(c: Change)
    requires Listed(c)
    ensures ReadUpdate(UpdateText(BuildChange(c))) == if Readable(c) then Some(Meant(c)) else None
  {
    var t := UpdateText(BuildChange(c));
    match c {
      case Setting(assignments) =>
        assert t[1..] == SetsText(Elements(assignments));
        ActionsRead(assignments);
      case Removing(paths) =>
        assert t[1..] == PathsText(paths);
        PathsRead(paths);
    }
  }
}

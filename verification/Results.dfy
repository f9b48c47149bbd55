// What a batch of statements gives back: outcomes, possibly nested, flattened into
// result sets, and the cursor that walks the sets while it executes statements.

module ResultSets {
  import opened Values

  type Shown = seq<(string, Value)>

  datatype Outcome =
    | Status(token: string, diagnostics: seq<string>)
    | Report(lines: seq<string>)
    | Empty
    | Selected(items: seq<Shown>, capacity: Option<real>)
    | Written(tokens: seq<string>, returned: seq<Option<Shown>>)
    | Explained(blocks: seq<(string, string)>, trailing: Option<string>)
    | BulkWritten(verb: string, seen: nat, modified: nat, ccf: nat, payloads: seq<Shown>)
    | Transacted(token: string, diagnostics: seq<string>)
    | TransactRead(items: seq<Shown>)
    | VectorSearched(scored: seq<(Shown, real)>)
    | Multi(parts: seq<Outcome>)

  // ---- rendering ------------------------------------------------------------

  // How a written row and an outcome of one piece are formatted.
  datatype Style = Style(line: (string, Option<Shown>) -> string, whole: Outcome -> string)

  function At(returned: seq<Option<Shown>>, i: nat): Option<Shown> {
    if i < |returned| then returned[i] else None
  }

  function WriteLines(style: Style, tokens: seq<string>, returned: seq<Option<Shown>>): string {
    if tokens == [] then ""
    else style.line(tokens[0], At(returned, 0))
         + WriteLines(style, tokens[1..], if returned == [] then [] else returned[1..])
  }

  function Render(style: Style, o: Outcome): string
    decreases o, 1
  {
    match o
    case Multi(parts) => RenderParts(style, parts)
    case Written(tokens, returned) => WriteLines(style, tokens, returned)
    case Empty => ""
    case _ => style.whole(o)
  }

  function RenderParts(style: Style, parts: seq<Outcome>): string
    decreases parts, 0
  {
    if parts == [] then "" else Render(style, parts[0]) + RenderParts(style, parts[1..])
  }

  function Lines(lines: seq<string>): string {
    if lines == [] then "" else lines[0] + "\n" + Lines(lines[1..])
  }

  // What goes to the error stream.
  function RenderErr(o: Outcome): string
    decreases o, 1
  {
    match o
    case Status(_, diagnostics) => Lines(diagnostics)
    case Transacted(_, diagnostics) => Lines(diagnostics)
    case Multi(parts) => RenderErrParts(parts)
    case _ => ""
  }

  function RenderErrParts(parts: seq<Outcome>): string
    decreases parts, 0
  {
    if parts == [] then "" else RenderErr(parts[0]) + RenderErrParts(parts[1..])
  }

  // ---- flattening -----------------------------------------------------------

  datatype Kind = StatusSet | ReportSet | EmptySet | RowSet | WriteSet | ExplainSet

  datatype ResultSet = ResultSet(kind: Kind, rows: seq<Shown>, source: Outcome)

  function ItemsOf(scored: seq<(Shown, real)>): seq<Shown> {
    seq(|scored|, i requires 0 <= i < |scored| => scored[i].0)
  }

  // The set of an outcome that is neither nested nor a write of several rows.
  function Single(o: Outcome): ResultSet {
    match o
    case Report(_) => ResultSet(ReportSet, [], o)
    case Empty => ResultSet(EmptySet, [], o)
    case Selected(items, _) => ResultSet(RowSet, items, o)
    case VectorSearched(scored) => ResultSet(RowSet, ItemsOf(scored), o)
    case TransactRead(items) => ResultSet(RowSet, items, o)
    case BulkWritten(_, _, _, _, _) => ResultSet(WriteSet, [], o)
    case Explained(_, _) => ResultSet(ExplainSet, [], o)
    case _ => ResultSet(StatusSet, [], o)
  }

  // Row i of a write, on its own.
  function OneWritten(tokens: seq<string>, returned: seq<Option<Shown>>, i: nat): Outcome
    requires i < |tokens|
  {
    Written([tokens[i]], if i < |returned| then [returned[i]] else [])
  }

  function WrittenRows(tokens: seq<string>, returned: seq<Option<Shown>>): seq<ResultSet> {
    seq(|tokens|, i requires 0 <= i < |tokens| => Single(OneWritten(tokens, returned, i)))
  }

  function Flatten(o: Outcome): seq<ResultSet>
    decreases o, 1
  {
    match o
    case Multi(parts) => FlattenParts(parts)
    case Written(tokens, returned) => WrittenRows(tokens, returned)
    case _ => [Single(o)]
  }

  function FlattenParts(parts: seq<Outcome>): seq<ResultSet>
    decreases parts, 0
  {
    if parts == [] then [] else Flatten(parts[0]) + FlattenParts(parts[1..])
  }

  lemma {:induction false} FlattenPartsSnoc(parts: seq<Outcome>, i: nat)
    requires i < |parts|
    ensures FlattenParts(parts[..i + 1]) == FlattenParts(parts[..i]) + Flatten(parts[i])
    decreases |parts|
  {
    hide Flatten;
    if i == 0 {
      assert parts[..1] == [parts[0]] && parts[..0] == [];
      assert FlattenParts(parts[..1]) == Flatten(parts[0]) + FlattenParts(parts[..1][1..]);
    } else {
      FlattenPartsSnoc(parts[1..], i - 1);
      assert parts[..i + 1][1..] == parts[1..][..i] && parts[..i][1..] == parts[1..][..i - 1];
    }
  }

  // The sets are pushed to a list, depth first.
  method FlattenInto(o: Outcome, before: seq<ResultSet>) returns (out: seq<ResultSet>)
    ensures out == before + Flatten(o)
    decreases o
  {
    out := before;
    if o.Written? {
      for i := 0 to |o.tokens|
        invariant out == before + WrittenRows(o.tokens, o.returned)[..i]
      {
        out := out + [Single(OneWritten(o.tokens, o.returned, i))];
      }
    } else if o.Multi? {
      assert o.parts[..0] == [];
      for i := 0 to |o.parts|
        invariant out == before + FlattenParts(o.parts[..i])
      {
        FlattenPartsSnoc(o.parts, i);
        out := FlattenInto(o.parts[i], out);
      }
      assert o.parts[..|o.parts|] == o.parts;
    } else {
      out := out + [Single(o)];
    }
  }

  // ---- flattening loses nothing ---------------------------------------------

  function RenderSets(style: Style, sets: seq<ResultSet>): string {
    if sets == [] then "" else Render(style, sets[0].source) + RenderSets(style, sets[1..])
  }

  function RenderErrSets(sets: seq<ResultSet>): string {
    if sets == [] then "" else RenderErr(sets[0].source) + RenderErrSets(sets[1..])
  }

  lemma {:induction false} RenderSetsConcat(style: Style, a: seq<ResultSet>, b: seq<ResultSet>)
    ensures RenderSets(style, a + b) == RenderSets(style, a) + RenderSets(style, b)
    ensures RenderErrSets(a + b) == RenderErrSets(a) + RenderErrSets(b)
  {
    hide Render, RenderErr;
    if a == [] {
      assert a + b == b;
    } else {
      assert (a + b)[0] == a[0] && (a + b)[1..] == a[1..] + b;
      RenderSetsConcat(style, a[1..], b);
    }
  }

  lemma {:induction false} WrittenRender(style: Style, tokens: seq<string>, returned: seq<Option<Shown>>)
    ensures RenderSets(style, WrittenRows(tokens, returned)) == WriteLines(style, tokens, returned)
    ensures RenderErrSets(WrittenRows(tokens, returned)) == ""
  {
    hide OneWritten;
    if tokens != [] {
      var rows, more := WrittenRows(tokens, returned), if returned == [] then [] else returned[1..];
      WrittenRender(style, tokens[1..], more);
      RowsAfter(tokens, returned);
      FirstLine(style, tokens, returned);
    }
  }

  lemma RowsAfter(tokens: seq<string>, returned: seq<Option<Shown>>)
    requires tokens != []
    ensures var more := if returned == [] then [] else returned[1..];
            WrittenRows(tokens, returned)[1..] == WrittenRows(tokens[1..], more)
  {
    var more := if returned == [] then [] else returned[1..];
    forall i | 0 <= i < |tokens| - 1
      ensures OneWritten(tokens, returned, i + 1) == OneWritten(tokens[1..], more, i)
    {
    }
  }

  lemma FirstLine(style: Style, tokens: seq<string>, returned: seq<Option<Shown>>)
    requires tokens != []
    ensures var one := OneWritten(tokens, returned, 0);
            Render(style, one) == style.line(tokens[0], At(returned, 0)) && RenderErr(one) == ""
  {
    var one := OneWritten(tokens, returned, 0);
    OneLine(style, one.tokens[0], one.returned);
  }

  lemma OneLine(style: Style, token: string, returned: seq<Option<Shown>>)
    requires |returned| <= 1
    ensures WriteLines(style, [token], returned) == style.line(token, At(returned, 0))
  {
    assert WriteLines(style, [], if returned == [] then [] else returned[1..]) == "";
    assert [token][1..] == [];
  }

  // What the result sets of an outcome render to, one after the other, is what the
  // outcome renders to, on the output and on the error stream.
  lemma {:induction false} FlattenRenders(style: Style, o: Outcome)
    ensures RenderSets(style, Flatten(o)) == Render(style, o)
    ensures RenderErrSets(Flatten(o)) == RenderErr(o)
    decreases o, 1
  {
    match o {
      case Multi(parts) => PartsRender(style, parts);
      case Written(tokens, returned) => WrittenRender(style, tokens, returned);
      case _ =>
        var sets := [Single(o)];
        assert sets[1..] == [] && RenderSets(style, []) == "" && RenderErrSets([]) == "";
        assert Render(style, o) + "" == Render(style, o) && RenderErr(o) + "" == RenderErr(o);
    }
  }

  lemma {:induction false} PartsRender(style: Style, parts: seq<Outcome>)
    ensures RenderSets(style, FlattenParts(parts)) == RenderParts(style, parts)
    ensures RenderErrSets(FlattenParts(parts)) == RenderErrParts(parts)
    decreases parts, 0
  {
    hide Render, RenderErr, Flatten;
    if parts != [] {
      FlattenRenders(style, parts[0]);
      PartsRender(style, parts[1..]);
      RenderSetsConcat(style, Flatten(parts[0]), FlattenParts(parts[1..]));
    }
  }

  // All that the statement was told, its parts' in order.
  function Diagnostics(o: Outcome): seq<string>
    decreases o, 1
  {
    match o
    case Status(_, diagnostics) => diagnostics
    case Transacted(_, diagnostics) => diagnostics
    case Multi(parts) => DiagnosticsOf(parts)
    case _ => []
  }

  function DiagnosticsOf(parts: seq<Outcome>): seq<string>
    decreases parts, 0
  {
    if parts == [] then [] else Diagnostics(parts[0]) + DiagnosticsOf(parts[1..])
  }

  lemma {:induction false} LinesConcat(a: seq<string>, b: seq<string>)
    ensures Lines(a + b) == Lines(a) + Lines(b)
  {
    if a == [] {
      assert a + b == b;
    } else {
      assert (a + b)[0] == a[0] && (a + b)[1..] == a[1..] + b;
      LinesConcat(a[1..], b);
    }
  }

  // The error stream has each diagnostic on a line of its own.
  lemma {:induction false} DiagnosticsShown(o: Outcome)
    ensures RenderErr(o) == Lines(Diagnostics(o))
    decreases o, 1
  {
    match o {
      case Multi(parts) => PartsShown(parts);
      case _ =>
    }
  }

  lemma {:induction false} PartsShown(parts: seq<Outcome>)
    ensures RenderErrParts(parts) == Lines(DiagnosticsOf(parts))
    decreases parts, 0
  {
    if parts != [] {
      DiagnosticsShown(parts[0]);
      PartsShown(parts[1..]);
      LinesConcat(Diagnostics(parts[0]), DiagnosticsOf(parts[1..]));
    }
  }

  // No set is nested any more: flattening its source gives the set itself.
  lemma {:induction false} FlattenIsFlat(o: Outcome)
    ensures forall s | s in Flatten(o) :: Flatten(s.source) == [s]
    decreases o, 1
  {
    match o {
      case Multi(parts) => PartsAreFlat(parts);
      case Written(tokens, returned) =>
        forall i | 0 <= i < |tokens|
          ensures Flatten(OneWritten(tokens, returned, i)) == [WrittenRows(tokens, returned)[i]] {
        }
      case _ =>
    }
  }

  lemma {:induction false} PartsAreFlat(parts: seq<Outcome>)
    ensures forall s | s in FlattenParts(parts) :: Flatten(s.source) == [s]
    decreases parts, 0
  {
    hide Flatten;
    if parts != [] {
      FlattenIsFlat(parts[0]);
      PartsAreFlat(parts[1..]);
    }
  }

  // ---- the items of an outcome ----------------------------------------------

  // The items an outcome holds, its parts' in order.
  function Items(o: Outcome): seq<Shown>
    decreases o, 1
  {
    match o
    case Selected(items, _) => items
    case TransactRead(items) => items
    case VectorSearched(scored) => ItemsOf(scored)
    case Multi(parts) => ItemsOfParts(parts)
    case _ => []
  }

  function ItemsOfParts(parts: seq<Outcome>): seq<Shown>
    decreases parts, 0
  {
    if parts == [] then [] else Items(parts[0]) + ItemsOfParts(parts[1..])
  }

  predicate HoldsRows(o: Outcome) {
    o.Selected? || o.TransactRead? || o.VectorSearched?
  }

  // The rows of a set can be walked when it is a row set.
  function Walkable(s: ResultSet): seq<Shown> {
    if s.kind == RowSet then s.rows else []
  }

  function RowsOf(sets: seq<ResultSet>): seq<Shown> {
    if sets == [] then [] else Walkable(sets[0]) + RowsOf(sets[1..])
  }

  lemma {:induction false} RowsOfConcat(a: seq<ResultSet>, b: seq<ResultSet>)
    ensures RowsOf(a + b) == RowsOf(a) + RowsOf(b)
  {
    if a == [] {
      assert a + b == b;
    } else {
      assert (a + b)[0] == a[0] && (a + b)[1..] == a[1..] + b;
      RowsOfConcat(a[1..], b);
    }
  }

  lemma {:induction false} NoRows(sets: seq<ResultSet>)
    requires forall s | s in sets :: s.kind != RowSet
    ensures RowsOf(sets) == []
  {
    if sets != [] {
      NoRows(sets[1..]);
    }
  }

  // The rows of the sets of an outcome are the items it holds, in order.
  lemma {:induction false} FlattenItems(o: Outcome)
    ensures RowsOf(Flatten(o)) == Items(o)
    decreases o, 1
  {
    match o {
      case Multi(parts) => PartsItems(parts);
      case Written(tokens, returned) => NoRows(WrittenRows(tokens, returned));
      case _ =>
        var sets := [Single(o)];
        assert sets[1..] == [] && RowsOf([]) == [];
    }
  }

  lemma {:induction false} PartsItems(parts: seq<Outcome>)
    ensures RowsOf(FlattenParts(parts)) == ItemsOfParts(parts)
    decreases parts, 0
  {
    hide Items, Flatten, Walkable;
    if parts != [] {
      FlattenItems(parts[0]);
      PartsItems(parts[1..]);
      RowsOfConcat(Flatten(parts[0]), FlattenParts(parts[1..]));
    }
  }

  // Each set is of the kind of what it came from, and only row sets have rows.
  predicate Kindly(s: ResultSet) {
    && (s.kind == RowSet <==> HoldsRows(s.source))
    && (s.kind == WriteSet <==> s.source.BulkWritten?)
    && (s.kind == ReportSet <==> s.source.Report?)
    && (s.kind == ExplainSet <==> s.source.Explained?)
    && (s.kind == EmptySet <==> s.source.Empty?)
    && s.rows == Items(s.source)
  }

  lemma {:induction false} FlattenKinds(o: Outcome)
    ensures forall s | s in Flatten(o) :: Kindly(s)
    decreases o, 1
  {
    match o {
      case Multi(parts) => PartsKinds(parts);
      case _ =>
    }
  }

  lemma {:induction false} PartsKinds(parts: seq<Outcome>)
    ensures forall s | s in FlattenParts(parts) :: Kindly(s)
    decreases parts, 0
  {
    hide Flatten, Kindly;
    if parts != [] {
      FlattenKinds(parts[0]);
      PartsKinds(parts[1..]);
    }
  }

  // ---- the walk -------------------------------------------------------------

  // What executing each statement of the batch, in order, would give.
  type Script = seq<Result<Outcome, string>>

  // The result sets of the statements up to the first that fails.
  function Visible(script: Script): seq<ResultSet> {
    if script == [] || script[0].Err? then [] else Flatten(script[0].value) + Visible(script[1..])
  }

  // The error of that statement, or else the error that ended the parse.
  function Verdict(script: Script, parseError: Option<string>): Option<string> {
    if script == [] then parseError
    else if script[0].Err? then Some(script[0].error)
    else Verdict(script[1..], parseError)
  }

  // The outcomes of these statements.
  function Outcomes(script: Script): seq<Outcome>
    requires forall r | r in script :: r.Ok?
  {
    seq(|script|, i requires 0 <= i < |script| => assert script[i] in script; script[i].value)
  }

  // With n statements before the first failure: the sets and the items are those of
  // the n outcomes, and the error is that failure, or else the parse error.
  lemma {:induction false} UpToFailure(script: Script, n: nat, parseError: Option<string>)
    requires n <= |script| && (forall r | r in script[..n] :: r.Ok?) && (n < |script| ==> script[n].Err?)
    ensures var outcomes := Outcomes(script[..n]);
            Visible(script) == FlattenParts(outcomes) && RowsOf(Visible(script)) == ItemsOfParts(outcomes)
    ensures Verdict(script, parseError) == if n < |script| then Some(script[n].error) else parseError
  {
    hide Flatten, RowsOf, Items;
    var outcomes := Outcomes(script[..n]);
    PartsItems(outcomes);
    if n > 0 {
      var rest := script[1..];
      assert script[..n][0] == script[0] && script[..n][1..] == rest[..n - 1];
      assert forall r | r in rest[..n - 1] :: r in script[..n];
      assert script[0] in script[..n];
      UpToFailure(rest, n - 1, parseError);
      assert outcomes[1..] == Outcomes(rest[..n - 1]);
    } else {
      assert script[..0] == [];
    }
  }

  lemma BatchStep(script: Script, n: nat, parseError: Option<string>)
    requires n <= |script|
    ensures n == |script| ==> Visible(script[n..]) == [] && Verdict(script[n..], parseError) == parseError
    ensures n < |script| && script[n].Err? ==>
              Visible(script[n..]) == [] && Verdict(script[n..], parseError) == Some(script[n].error)
    ensures n < |script| && script[n].Ok? ==>
              && Visible(script[n..]) == [] + Flatten(script[n].value) + Visible(script[n + 1..])
              && Verdict(script[n..], parseError) == Verdict(script[n + 1..], parseError)
  {
    hide Flatten;
    if n < |script| {
      assert script[n..][0] == script[n] && script[n..][1..] == script[n + 1..];
      if script[n].Ok? {
        assert [] + Flatten(script[n].value) == Flatten(script[n].value);
      }
    }
  }

  lemma FirstOfMany(sets: seq<ResultSet>, more: seq<ResultSet>)
    requires sets != []
    ensures [sets[0]] + (sets[1..] + more) == sets + more
  {
  }

  class Results {
    const script: Script
    const parseError: Option<string>
    var next: nat               // the statement to execute next
    var loaded: bool
    var done: bool
    var sets: seq<ResultSet>
    var setIndex: nat
    var error: Option<string>
    var nextRow: nat            // of the current set
    var currentRow: Shown

    predicate Valid()
      reads this
    {
      && next <= |script|
      && !(loaded && done)
      && (if done then error == Verdict(script, parseError)
          else error == None && Verdict(script, parseError) == Verdict(script[next..], parseError))
    }

    // The set the accessors read.
    function Current(): Option<ResultSet>
      reads this
    {
      if loaded && setIndex < |sets| then Some(sets[setIndex]) else None
    }

    // The sets still to come.
    ghost function Ahead(): seq<ResultSet>
      reads this
      requires Valid()
    {
      if done then [] else (if Current().Some? then sets[setIndex + 1..] else []) + Visible(script[next..])
    }

    // The sets from the current one on.
    ghost function FromHere(): seq<ResultSet>
      reads this
      requires Valid()
    {
      if done then [] else (if Current().Some? then sets[setIndex..] else []) + Visible(script[next..])
    }

    // The rows still to come in the current set.
    function RowsLeft(): seq<Shown>
      reads this
    {
      if Current().Some? && nextRow <= |Walkable(Current().value)| then Walkable(Current().value)[nextRow..] else []
    }

    // The items still to come.
    ghost function ItemsAhead(): seq<Shown>
      reads this
      requires Valid()
    {
      RowsLeft() + RowsOf(Ahead())
    }

    lemma CurrentIsFirst()
      requires Valid()
      ensures FromHere() == (if Current().Some? then [Current().value] else []) + Ahead()
    {
      hide Visible, Verdict;
      if Current().Some? {
        FirstOfMany(sets[setIndex..], Visible(script[next..]));
        assert sets[setIndex..][1..] == sets[setIndex + 1..];
      }
    }

    // The cursor starts on the first set.
    constructor (script: Script, parseError: Option<string>)
      ensures Valid() && FromHere() == Visible(script) && this.script == script && this.parseError == parseError
      ensures Current().None? <==> Visible(script) == []
      ensures Current().None? ==> done
      ensures ItemsAhead() == RowsOf(Visible(script))
    {
      this.script, this.parseError := script, parseError;
      next, loaded, done, sets, setIndex, error, nextRow, currentRow := 0, false, false, [], 0, None, 0, [];
      new;
      hide Flatten, Visible, Verdict;
      assert script[0..] == script;
      assert [] + Visible(script) == Visible(script);
      var ok := AdvanceStatement();
      FromHereItems();
    }

    // Before the first row of a set, what is to come are the rows of the sets from it on.
    lemma FromHereItems()
      requires Valid() && (Current().Some? ==> nextRow == 0)
      ensures ItemsAhead() == RowsOf(FromHere())
    {
      hide Visible, Verdict, Walkable;
      CurrentIsFirst();
      if Current().Some? {
        RowsOfConcat([Current().value], Ahead());
        assert [Current().value][1..] == [] && RowsOf([]) == [];
        assert RowsOf([Current().value]) == Walkable(Current().value) + [];
        assert Walkable(Current().value)[0..] == Walkable(Current().value);
      } else {
        assert [] + Ahead() == Ahead();
      }
    }

    // The batch ends here, with this error or none.
    method Stop(e: Option<string>)
      requires next <= |script| && e == Verdict(script, parseError)
      modifies this
      ensures Valid() && done && Current().None? && Ahead() == []
    {
      error, done, loaded, sets := e, true, false, [];
    }

    // The result sets of the statement just executed.
    method Load(flat: seq<ResultSet>)
      requires Valid() && !done
      modifies this
      ensures Valid() && !done && next == old(next) && loaded && sets == flat && setIndex == 0
      ensures FromHere() == flat + Visible(script[next..]) && (Current().Some? <==> flat != []) && nextRow == 0
    {
      hide Visible, Verdict;
      sets, setIndex, loaded := flat, 0, true;
      nextRow, currentRow := 0, [];
      assert flat[0..] == flat;
    }

    // Executes statements until one has a result set, or the batch ends.
    method AdvanceStatement() returns (ok: bool)
      requires Valid() && !done && (loaded ==> setIndex + 1 >= |sets|)
      modifies this
      ensures Valid() && ok == (old(Ahead()) != [])
              && (if ok then Current().Some? && !done else done && Current().None?)
      ensures ok ==> FromHere() == old(Ahead()) && nextRow == 0
      decreases |script| - next
    {
      hide Flatten, Visible, Verdict;
      BatchStep(script, next, parseError);
      if next == |script| {
        Stop(if parseError.Some? && error.None? then parseError else error);
        return false;
      }
      var r := script[next];
      next := next + 1;
      if r.Err? {
        Stop(Some(r.error));
        return false;
      }
      var flat := FlattenInto(r.value, []);
      Load(flat);
      ok := true;
      if flat == [] {
        ok := AdvanceStatement();
      }
    }

    // Moves to the next set of the statement, or of the next statements.
    method NextResult() returns (ok: bool)
      requires Valid()
      modifies this
      ensures Valid() && ok == (old(Ahead()) != [])
      ensures if ok then Current().Some? && FromHere() == old(Ahead()) && nextRow == 0 else done
      ensures done ==> error == Verdict(script, parseError)
      ensures |Ahead()| < |old(Ahead())| || !ok
    {
      if done {
        return false;
      }
      if loaded && setIndex + 1 < |sets| {
        setIndex := setIndex + 1;
        nextRow, currentRow := 0, [];
        CurrentIsFirst();
        return true;
      }
      ok := AdvanceStatement();
    }

    // Moves to the next row of the current set, when that is a row set.
    method NextRow() returns (ok: bool)
      requires Valid()
      modifies this`nextRow, this`currentRow
      ensures Valid() && ok == (old(RowsLeft()) != [])
      ensures if ok then currentRow == old(RowsLeft())[0] && RowsLeft() == old(RowsLeft())[1..]
              else RowsLeft() == old(RowsLeft()) && currentRow == old(currentRow)
      ensures Current() == old(Current()) && Ahead() == old(Ahead())
    {
      var c := Current();
      if c.None? || c.value.kind != RowSet || nextRow >= |c.value.rows| {
        return false;
      }
      currentRow := c.value.rows[nextRow];
      nextRow := nextRow + 1;
      ok := true;
    }

    // The loop of a caller: every row of the current set, then the next set.
    method VisitItems() returns (items: seq<Shown>)
      requires Valid()
      modifies this
      ensures Valid() && items == old(ItemsAhead())
      ensures done && error == Verdict(script, parseError)
    {
      hide Visible, Verdict, Walkable, Flatten, RowsOf;
      hide Results.Valid, Results.Ahead, Results.FromHere, Results.RowsLeft;
      items := [];
      ghost var all := ItemsAhead();
      var more := true;
      while more
        invariant Valid()
        invariant if more then items + ItemsAhead() == all
                  else items == all && done && error == Verdict(script, parseError)
        decreases more, |Ahead()|
      {
        items := VisitRows(items);
        ghost var ahead := Ahead();
        more := NextResult();
        if more {
          FromHereItems();
        } else {
          assert ahead == [];
          NoRows(ahead);
          assert items + [] == items;
        }
        assert [] + RowsOf(ahead) == RowsOf(ahead);
      }
    }

    method VisitRows(before: seq<Shown>) returns (items: seq<Shown>)
      requires Valid()
      modifies this`nextRow, this`currentRow
      ensures Valid() && items == before + old(RowsLeft()) && RowsLeft() == []
      ensures Ahead() == old(Ahead())
    {
      hide Visible, Verdict, Walkable, Results.Valid, Results.Ahead, Results.FromHere, Results.RowsLeft;
      items := before;
      ghost var all := before + RowsLeft();
      var more := true;
      while more
        invariant Valid() && items + RowsLeft() == all && Ahead() == old(Ahead())
        invariant !more ==> RowsLeft() == []
        decreases more, |RowsLeft()|
      {
        more := NextRow();
        if more {
          items := items + [currentRow];
        }
      }
      assert items + [] == items;
    }

    // Renders the current set and every set after it.
    method RenderAll(style: Style) returns (out: string)
      requires Valid()
      modifies this
      ensures Valid() && out == RenderBoth(style, old(FromHere())) && Ahead() == []
      ensures done && error == Verdict(script, parseError)
    {
      hide Render, RenderErr, RenderBoth, Visible, Verdict, Flatten;
      out := "";
      ghost var all := FromHere();
      RenderBothNone(style);
      CurrentIsFirst();
      if Current().Some? {
        RenderBothFirst(style, Current().value, Ahead());
        out := out + Render(style, Current().value.source);
        out := out + RenderErr(Current().value.source);
      } else {
        assert [] + Ahead() == Ahead();
      }
      assert out + RenderBoth(style, Ahead()) == RenderBoth(style, all);
      var more := true;
      while more
        invariant Valid() && out + RenderBoth(style, Ahead()) == RenderBoth(style, all)
        invariant !more ==> done && Ahead() == []
        decreases more, |Ahead()|
      {
        more := NextResult();
        if more {
          var source := Current().value.source;
          CurrentIsFirst();
          RenderBothFirst(style, Current().value, Ahead());
          Appended(out, Render(style, source), RenderErr(source), RenderBoth(style, Ahead()));
          out := out + Render(style, source);
          out := out + RenderErr(source);
        }
      }
      assert out + "" == out;
    }
  }

  lemma Appended(a: string, b: string, c: string, d: string)
    ensures a + ((b + c) + d) == ((a + b) + c) + d
  {
  }

  lemma RenderBothNone(style: Style)
    ensures RenderBoth(style, []) == ""
  {
  }

  // Each set's output, then its diagnostics.
  function RenderBoth(style: Style, sets: seq<ResultSet>): string {
    if sets == [] then ""
    else (Render(style, sets[0].source) + RenderErr(sets[0].source)) + RenderBoth(style, sets[1..])
  }

  lemma RenderBothFirst(style: Style, s: ResultSet, rest: seq<ResultSet>)
    ensures RenderBoth(style, [s] + rest) ==
            (Render(style, s.source) + RenderErr(s.source)) + RenderBoth(style, rest)
  {
    assert ([s] + rest)[1..] == rest;
  }
}

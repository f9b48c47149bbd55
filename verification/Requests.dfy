// The requests the planners build, as functions of the clause, and what the
// service makes of the texts in them.

module Requests {
  import opened Values
  import opened Expressions
  import opened Splitting
  import opened Reader
  import opened Access
  import opened SingleItem
  import opened Clauses
  import opened Symbols
  import opened Updates

  datatype Capacity = NoCapacity | Indexes | Total

  datatype ReadRequest = ReadRequest(
    table: string,
    index: Option<string>,
    consistent: bool,
    capacity: Capacity,
    projection: Option<Aliased>,
    keyCondition: Option<Aliased>,  // present in a Query, absent in a Scan
    filter: Option<Aliased>,
    names: map<string, string>,
    values: map<string, Value>,
    startKey: Option<Item>)

  datatype GetRequest = GetRequest(
    table: string,
    consistent: bool,
    capacity: Capacity,
    projection: Option<Aliased>,
    names: map<string, string>,
    key: Item)

  datatype PutRequest = PutRequest(
    table: string,
    item: Item,
    condition: Option<Aliased>,
    names: map<string, string>,
    capacity: Capacity)

  datatype WriteRequest = WriteRequest(
    table: string,
    update: Option<Aliased>,  // present in an UpdateItem, absent in a DeleteItem
    condition: Option<Aliased>,
    names: map<string, string>,
    values: map<string, Value>,
    capacity: Capacity,
    key: Item)

  function NonEmpty(text: Aliased): Option<Aliased> {
    if text == [] then None else Some(text)
  }

  function Fresh(prefix: string): Sym {
    Sym(prefix, [], [])
  }

  // ---- reads ----------------------------------------------------------------

  function KeyText(where: Option<Expr>, plan: Option<QueryKeyPlan>): Text {
    if where.None? || plan.None? then []
    else PrintOption(Prune(where.value, KeyCondition(plan.value.pk, plan.value.sk)))
  }

  function FilterText(where: Option<Expr>, plan: Option<QueryKeyPlan>): Text {
    if where.None? then []
    else if plan.None? then Print(where.value)
    else PrintOption(Prune(where.value, Filter(plan.value.pk, plan.value.sk)))
  }

  // Projection, then key condition, then filter: the order of minting.
  function ReadRequestOf(table: string, index: Option<string>, consistent: bool, capacity: Capacity, paths: seq<string>,
                         where: Option<Expr>, plan: Option<QueryKeyPlan>, prefix: string): ReadRequest
  {
    var p := Encode(PathsText(paths), Fresh(prefix));
    var k := Encode(KeyText(where, plan), p.1);
    var f := Encode(FilterText(where, plan), k.1);
    ReadRequest(table, index, consistent, capacity, NonEmpty(p.0), if plan.Some? then Some(k.0) else None,
                NonEmpty(f.0), NamesOf(f.1), ValuesOf(f.1), None)
  }

  // ---- writes ---------------------------------------------------------------

  function ResidualText(where: Option<Expr>, pk: string, rk: string): Text {
    if where.None? then [] else PrintOption(Prune(where.value, Residual(pk, rk)))
  }

  // UPDATE puts `attribute_exists(pk) AND ` before the residual; UPSERT and DELETE do not.
  function ConditionText(guarded: bool, where: Option<Expr>, pk: string, rk: string): Text {
    var residual := ResidualText(where, pk, rk);
    if !guarded then residual
    else PredText(AttributeExists(pk)) + if residual == [] then [] else [Word(AND)] + residual
  }

  function WriteRequestOf(table: string, mutation: Option<Mutation>, guarded: bool, where: Option<Expr>, pk: string,
                          rk: string, capacity: Capacity, prefix: string): WriteRequest
  {
    var u := Encode(if mutation.Some? then UpdateText(mutation.value) else [], Fresh(prefix));
    var c := Encode(ConditionText(guarded, where, pk, rk), u.1);
    WriteRequest(table, if mutation.Some? then Some(u.0) else None, NonEmpty(c.0), NamesOf(c.1), ValuesOf(c.1),
                 capacity, map[])
  }

  // INSERT puts a row unless its key is taken; REPLACE puts it anyway, without a table.
  function PutRequestOf(table: string, item: Item, insert: bool, pk: string, capacity: Capacity,
                        prefix: string): PutRequest {
    if insert then
      var c := Encode([Word("attribute_not_exists("), Attr(pk), Word(")")], Fresh(prefix));
      PutRequest(table, item, Some(c.0), NamesOf(c.1), capacity)
    else PutRequest(table, item, None, map[], capacity)
  }

  // ---- every token is defined, every definition used, every text read back --

  predicate DecodesTo(text: Option<Aliased>, names: map<string, string>, values: map<string, Value>, raw: Text) {
    if text.None? then raw == [] else Decode(text.value, names, values) == Some(raw)
  }

  function UsedIn(text: Option<Aliased>): (set<string>, set<string>) {
    if text.None? then ({}, {}) else (NamesUsed(text.value), ValuesUsed(text.value))
  }

  // Three texts aliased one after the other through one table, read back with its final state.
  lemma ThreeTexts(a: Text, b: Text, c: Text, s: Sym)
    requires Sound(s) && s.names == [] && s.values == []
    ensures var ta := Encode(a, s);
            var tb := Encode(b, ta.1);
            var tc := Encode(c, tb.1);
            var names, values := NamesOf(tc.1), ValuesOf(tc.1);
            && Decode(ta.0, names, values) == Some(a)
            && Decode(tb.0, names, values) == Some(b)
            && Decode(tc.0, names, values) == Some(c)
            && names.Keys == NamesUsed(ta.0) + NamesUsed(tb.0) + NamesUsed(tc.0)
            && values.Keys == ValuesUsed(ta.0) + ValuesUsed(tb.0) + ValuesUsed(tc.0)
            && |ta.0| == |a| && |tb.0| == |b| && |tc.0| == |c|
  {
    hide Encode, Decode, NamesUsed, ValuesUsed;
    var ta := Encode(a, s);
    var tb := Encode(b, ta.1);
    var tc := Encode(c, tb.1);
    EncodeExtends(a, s);
    EncodeExtends(b, ta.1);
    EncodeExtends(c, tb.1);
    ExtendsTransitive(ta.1, tb.1, tc.1);
    EncodeDecodes(a, s, tc.1);
    EncodeDecodes(b, ta.1, tc.1);
    EncodeDecodes(c, tb.1, tc.1);
    EncodeKeys(a, s);
    EncodeKeys(b, ta.1);
    EncodeKeys(c, tb.1);
    EncodeLength(a, s);
    EncodeLength(b, ta.1);
    EncodeLength(c, tb.1);
  }

  // A planned Query or Scan says what the clause says, in tokens that its own
  // tables define, and its tables define nothing else.
  lemma ReadRequestDecodes(table: string, index: Option<string>, consistent: bool, capacity: Capacity,
                           paths: seq<string>, where: Option<Expr>, plan: Option<QueryKeyPlan>, prefix: string)
    requires CleanPrefix(prefix)
    ensures var r := ReadRequestOf(table, index, consistent, capacity, paths, where, plan, prefix);
            && DecodesTo(r.projection, r.names, r.values, PathsText(paths))
            && DecodesTo(r.keyCondition, r.names, r.values, KeyText(where, plan))
            && DecodesTo(r.filter, r.names, r.values, FilterText(where, plan))
            && (r.projection.Some? <==> PathsText(paths) != []) && (r.filter.Some? <==> FilterText(where, plan) != [])
            && r.names.Keys == UsedIn(r.projection).0 + UsedIn(r.keyCondition).0 + UsedIn(r.filter).0
            && r.values.Keys == UsedIn(r.projection).1 + UsedIn(r.keyCondition).1 + UsedIn(r.filter).1
            && (r.keyCondition.Some? <==> plan.Some?) && r.startKey.None?
            && (r.table, r.index, r.consistent, r.capacity) == (table, index, consistent, capacity)
  {
    ThreeTexts(PathsText(paths), KeyText(where, plan), FilterText(where, plan), Fresh(prefix));
  }

  lemma GetRequestDecodes(paths: seq<string>, prefix: string)
    requires CleanPrefix(prefix)
    ensures var p := Encode(PathsText(paths), Fresh(prefix));
            && DecodesTo(NonEmpty(p.0), NamesOf(p.1), ValuesOf(p.1), PathsText(paths))
            && NamesOf(p.1).Keys == NamesUsed(p.0)
  {
    ThreeTexts([], [], PathsText(paths), Fresh(prefix));
    assert Encode([], Fresh(prefix)) == ([], Fresh(prefix));
  }

  // The condition of an INSERT names the partition key.
  lemma PutRequestDecodes(table: string, item: Item, pk: string, capacity: Capacity, prefix: string)
    requires CleanPrefix(prefix)
    ensures var r := PutRequestOf(table, item, true, pk, capacity, prefix);
            && DecodesTo(r.condition, r.names, map[], [Word("attribute_not_exists("), Attr(pk), Word(")")])
            && r.names.Keys == UsedIn(r.condition).0
            && (r.table, r.item, r.capacity) == (table, item, capacity)
  {
    var text: Text := [Word("attribute_not_exists("), Attr(pk), Word(")")];
    ThreeTexts([], [], text, Fresh(prefix));
    assert Encode([], Fresh(prefix)) == ([], Fresh(prefix));
    var c := Encode(text, Fresh(prefix));
    NoOperands(text, c.0, c.1, NamesOf(c.1), ValuesOf(c.1));
  }

  // A text without values is decoded without their table.
  lemma {:induction false} NoOperands(text: Text, out: Aliased, s: Sym, names: map<string, string>,
                                      values: map<string, Value>)
    requires Decode(out, names, values) == Some(text) && forall t | t in text :: !t.Operand?
    ensures Decode(out, names, map[]) == Some(text)
  {
    if out != [] {
      assert text[0] in text;
      NoOperands(text[1..], out[1..], s, names, values);
    }
  }

  lemma WriteRequestDecodes(table: string, mutation: Option<Mutation>, guarded: bool, where: Option<Expr>, pk: string,
                            rk: string, capacity: Capacity, prefix: string)
    requires CleanPrefix(prefix)
    ensures var r := WriteRequestOf(table, mutation, guarded, where, pk, rk, capacity, prefix);
            && (mutation.Some? ==> DecodesTo(r.update, r.names, r.values, UpdateText(mutation.value)))
            && DecodesTo(r.condition, r.names, r.values, ConditionText(guarded, where, pk, rk))
            && (r.condition.Some? <==> ConditionText(guarded, where, pk, rk) != [])
            && r.names.Keys == UsedIn(r.update).0 + UsedIn(r.condition).0
            && r.values.Keys == UsedIn(r.update).1 + UsedIn(r.condition).1
            && (r.update.Some? <==> mutation.Some?) && (r.table, r.capacity) == (table, capacity)
  {
    var u := if mutation.Some? then UpdateText(mutation.value) else [];
    var c := ConditionText(guarded, where, pk, rk);
    ThreeTexts(u, c, [], Fresh(prefix));
  }

  // ---- what the service makes of a text -------------------------------------

  // None: there is no update expression, or it cannot be read.
  function UpdateMeant(r: WriteRequest): Option<Update> {
    if r.update.None? then None
    else match Decode(r.update.value, r.names, r.values)
      case None => None
      case Some(raw) => ReadUpdate(raw)
  }

  // The update expression of a statement, aliased, means what the statement says.
  lemma UpdateIsMeant(table: string, change: Change, guarded: bool, where: Option<Expr>, pk: string, rk: string,
                      capacity: Capacity, prefix: string)
    requires CleanPrefix(prefix) && Listed(change)
    ensures var r := WriteRequestOf(table, Some(BuildChange(change)), guarded, where, pk, rk, capacity, prefix);
            UpdateMeant(r) == if Readable(change) then Some(Meant(change)) else None
  {
    hide Encode, Decode, Prune;
    WriteRequestDecodes(table, Some(BuildChange(change)), guarded, where, pk, rk, capacity, prefix);
    UpdateReads(change);
  }

  // None: the service rejects the request.
  function Judge(text: Option<Aliased>, names: map<string, string>, values: map<string, Value>,
                 m: Meaning): Option<bool> {
    if text.None? then Some(true)
    else match Decode(text.value, names, values)
      case None => None
      case Some(raw) =>
        match Read(raw)
        case None => None
        case Some(c) => Some(Means(c, m))
  }

  // A tree, or what is left of it on one side, is taken for what it means, unless
  // an empty group was printed: then the request is rejected.
  lemma JudgePart(e: Expr, side: Side, text: Option<Aliased>, names: map<string, string>, values: map<string, Value>,
                  m: Meaning)
    requires Arity(e, 2) && Guarded(e)
    requires DecodesTo(text, names, values, PrintOption(Prune(e, side)))
    requires text.Some? ==> Prune(e, side).Some?
    ensures Judge(text, names, values, m) ==
            if Solid(Prune(e, side)) then Some(EvalOption(Prune(e, side), m)) else None
  {
    ArityWeaken(e);
    if Prune(e, side).Some? {
      PrunedText(e, side);
      ReadableExactly(Prune(e, side).value);
      PrintNotEmpty(Prune(e, side).value);
    }
  }
}

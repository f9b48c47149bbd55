// Building the requests: the SELECT planner, the enumeration read of a bulk write
// and the per-item write template, each through one symbol table.

module Planner {
  import opened Values
  import opened Expressions
  import opened Splitting
  import opened Access
  import opened SingleItem
  import opened Symbols
  import opened LogicalExpressions
  import opened Wheres
  import opened Updates
  import opened Requests

  // A clause may be absent.
  ghost predicate ValidWhere(where: Where?)
    reads if where == null then {} else {where.root}, if where == null then {} else where.root.repr
  {
    where != null ==> where.Valid()
  }

  ghost function TreeOf(where: Where?): Option<Expr>
    reads if where == null then {} else {where.root}
  {
    if where == null then None else Some(where.Tree())
  }

  ghost function PlanOf(where: Option<Expr>, pk: seq<string>, rk: seq<string>): Option<QueryKeyPlan> {
    if where.None? then None else PlannedQuery(Occs(where.value, true), pk, rk)
  }

  datatype SelectPlan = GetItem(get: GetRequest) | ReadItems(read: ReadRequest)

  lemma {:induction false} PathsTextSnoc(paths: seq<string>, p: string)
    requires paths != []
    ensures PathsText(paths + [p]) == PathsText(paths) + [Word(", "), Attr(p)]
  {
    var all := paths + [p];
    if |paths| == 1 {
      assert all[1..] == [p];
    } else {
      assert all[1..] == paths[1..] + [p];
      PathsTextSnoc(paths[1..], p);
    }
  }

  method SerializePaths(paths: seq<string>, st: SymbolTable) returns (out: Aliased)
    requires st.Valid()
    modifies st
    ensures st.Valid() && (out, st.sym) == Encode(PathsText(paths), old(st.sym))
  {
    out := [];
    ghost var s := st.sym;
    assert PathsText([]) == [] && Encode([], s) == ([], s);
    hide Encode, PathsText, EncodePath;
    assert paths[..0] == [];
    for i := 0 to |paths|
      invariant st.Valid() && (out, st.sym) == Encode(PathsText(paths[..i]), s)
      invariant |out| == |PathsText(paths[..i])|
      invariant i > 0 ==> PathsText(paths[..i]) != []
    {
      ghost var before := PathsText(paths[..i]);
      PathsTextStep(paths, i);
      EncodePair(before, paths[i], i == 0, s);
      EncodeLength(PathsText(paths[..i + 1]), s);
      var token := st.NewAttribute(paths[i]);
      if out == [] {
        out := [Attr(token)];
      } else {
        out := out + [Word(", "), Attr(token)];
      }
    }
    assert paths[..|paths|] == paths;
  }

  lemma PathsTextStep(paths: seq<string>, i: nat)
    requires i < |paths|
    ensures PathsText(paths[..i + 1]) ==
            if i == 0 then [Attr(paths[i])] else PathsText(paths[..i]) + [Word(", "), Attr(paths[i])]
    ensures PathsText(paths[..i + 1]) != []
    ensures i == 0 ==> PathsText(paths[..i]) == []
  {
    assert paths[..i + 1] == paths[..i] + [paths[i]];
    if i > 0 {
      PathsTextSnoc(paths[..i], paths[i]);
    }
  }

  lemma EncodePair(before: Text, path: string, first: bool, s: Sym)
    requires first ==> before == []
    ensures var b := Encode(before, s);
            var t := EncodePath(b.1, path);
            Encode(if first then [Attr(path)] else before + [Word(", "), Attr(path)], s) ==
            (if first then [Attr(t.0)] else b.0 + [Word(", "), Attr(t.0)], t.1)
  {
    var b := Encode(before, s);
    var t := EncodePath(b.1, path);
    EncodeOne(Attr(path), b.1);
    EncodeOne(Word(", "), b.1);
    EncodeEmpty(s);
    hide Encode, EncodePath;
    var comma: Text, attr: Text := [Word(", ")], [Attr(path)];
    assert Encode(attr, b.1) == ([Attr(t.0)], t.1);
    assert Encode(comma, b.1) == ([Word(", ")], b.1);
    EncodeConcat(comma, attr, b.1);
    assert comma + attr == [Word(", "), Attr(path)];
    EncodeConcat(before, comma + attr, s);
    var commaOut: Aliased, attrOut: Aliased := [Word(", ")], [Attr(t.0)];
    assert Encode(comma + attr, b.1) == (commaOut + attrOut, t.1);
    assert commaOut + attrOut == [Word(", "), Attr(t.0)];
  }

  // GetItem before Query before Scan; projection, key condition and filter share
  // one table and are minted in this order.
  method PlanSelect(table: string, index: Option<string>, consistent: bool, asked: Capacity, metered: bool,
                    paths: seq<string>, where: Where?, pk: seq<string>, rk: seq<string>, prefix: string)
    returns (plan: SelectPlan)
    requires ValidWhere(where) && CleanPrefix(prefix)
    ensures plan.GetItem? <==>
            index.None? && where != null && SingleItem.CanGetItem(where.Found(), pk, rk)
    ensures plan.GetItem? ==>
              var p := Encode(PathsText(paths), Fresh(prefix));
              plan.get == GetRequest(table, consistent, asked, NonEmpty(p.0), NamesOf(p.1),
                                     GudKey(where.Found(), First(pk), First(rk)))
    ensures plan.ReadItems? ==>
              plan.read == ReadRequestOf(table, index, consistent, if metered then Total else asked, paths,
                                         TreeOf(where), PlanOf(TreeOf(where), pk, rk), prefix)
  {
    var canGetItem := false;
    if index.None? && where != null {
      canGetItem := where.CanGetItem(pk, rk);
    }
    var qplan := None;
    if where != null {
      qplan := where.PlanQuery(pk, rk);
    }
    var st := new SymbolTable(prefix);
    if canGetItem {
      var projection := SerializePaths(paths, st);
      var names := st.GetNames();
      var key := where.GetGudKey(pk, rk);
      plan := GetItem(GetRequest(table, consistent, asked, NonEmpty(projection), names, key));
    } else {
      var read := PlanRead(table, index, consistent, if metered then Total else asked, paths, where, qplan, st);
      plan := ReadItems(read);
    }
  }

  // The Query or Scan for a plan that is there or not.
  method PlanRead(table: string, index: Option<string>, consistent: bool, capacity: Capacity, paths: seq<string>,
                  where: Where?, plan: Option<QueryKeyPlan>, st: SymbolTable) returns (r: ReadRequest)
    requires ValidWhere(where) && st.Valid() && st.sym == Fresh(st.prefix) && (plan.Some? ==> where != null)
    modifies st
    ensures r == ReadRequestOf(table, index, consistent, capacity, paths, TreeOf(where), plan, st.prefix)
  {
    hide Encode, PathsText, Prune;
    assert forall s :: Encode([], s) == ([], s) by { forall s { EncodeEmpty(s); } }
    var projection := SerializePaths(paths, st);
    var keyCondition: Aliased := [];
    var filter: Aliased := [];
    if plan.Some? {
      keyCondition := where.root.PartText(KeyCondition(plan.value.pk, plan.value.sk), st);
      filter := where.root.PartText(Filter(plan.value.pk, plan.value.sk), st);
    } else if where != null {
      filter := where.root.Serialize(st);
    }
    var names := st.GetNames();
    r := ReadRequest(table, index, consistent, capacity, NonEmpty(projection),
                     if plan.Some? then Some(keyCondition) else None, NonEmpty(filter), names, st.values, None);
  }

  function BaseKeys(pk: string, rk: string): seq<string> {
    if rk == "" then [pk] else [pk, rk]
  }

  // The enumeration read projects the base-table key, whatever index it runs on.
  method BuildWriteRead(table: string, index: Option<string>, where: Where?, plan: Option<QueryKeyPlan>, basePk: string,
                        baseRk: string, metered: bool, st: SymbolTable) returns (r: ReadRequest)
    requires ValidWhere(where) && st.Valid() && st.sym == Fresh(st.prefix) && (plan.Some? ==> where != null)
    modifies st
    ensures r == ReadRequestOf(table, index, false, if metered then Total else NoCapacity, BaseKeys(basePk, baseRk),
                               TreeOf(where), plan, st.prefix)
  {
    r := PlanRead(table, index, false, if metered then Total else NoCapacity, BaseKeys(basePk, baseRk),
                  where, plan, st);
  }

  // ---- write templates ------------------------------------------------------

  lemma {:induction false} SetsTextSnoc(es: seq<SetElement>, e: SetElement)
    requires es != []
    ensures SetsText(es + [e]) == SetsText(es) + ([Word(", ")] + SetText(e))
  {
    var all := es + [e];
    if |es| == 1 {
      assert all[1..] == [e];
    } else {
      assert all[1..] == es[1..] + [e];
      SetsTextSnoc(es[1..], e);
    }
  }

  method SerializeUpdate(m: Mutation, st: SymbolTable) returns (expr: Aliased)
    requires st.Valid()
    modifies st
    ensures st.Valid() && (expr, st.sym) == Encode(UpdateText(m), old(st.sym))
  {
    ghost var s := st.sym;
    match m
    case RemoveAll(paths) =>
      EncodeConcat([Word("REMOVE ")], PathsText(paths), s);
      EncodeOne(Word("REMOVE "), s);
      var list := SerializePaths(paths, st);
      expr := [Word("REMOVE ")] + list;
    case SetAll(elements) =>
      EncodeOne(Word("SET "), s);
      hide Encode, SetText;
      expr := [Word("SET ")];
      assert [Word("SET ")] + SetsText([]) == [Word("SET ")] && elements[..0] == [];
      for i := 0 to |elements|
        invariant st.Valid() && (expr, st.sym) == Encode([Word("SET ")] + SetsText(elements[..i]), s)
      {
        ghost var before := [Word("SET ")] + SetsText(elements[..i]);
        var piece: Text := (if i != 0 then [Word(", ")] else []) + SetText(elements[i]);
        SetsTextStep(elements, i);
        EncodeConcat(before, piece, s);
        var text := EncodeText(piece, st);
        expr := expr + text;
      }
      assert elements[..|elements|] == elements;
  }

  lemma SetsTextStep(es: seq<SetElement>, i: nat)
    requires i < |es|
    ensures [Word("SET ")] + SetsText(es[..i + 1]) ==
            [Word("SET ")] + SetsText(es[..i]) + ((if i != 0 then [Word(", ")] else []) + SetText(es[i]))
  {
    assert es[..i + 1] == es[..i] + [es[i]];
    if i > 0 {
      SetsTextSnoc(es[..i], es[i]);
    }
  }

  method SerializeCondition(guarded: bool, where: Where?, pk: string, rk: string,
                            st: SymbolTable) returns (cond: Aliased)
    requires ValidWhere(where) && st.Valid()
    modifies st
    ensures st.Valid() && (cond, st.sym) == Encode(ConditionText(guarded, TreeOf(where), pk, rk), old(st.sym))
  {
    ghost var s := st.sym;
    ghost var guard := if guarded then PredText(AttributeExists(pk)) else [];
    ghost var residual := ResidualText(TreeOf(where), pk, rk);
    ConditionEncodes(guard, residual, s);
    hide Encode, Prune;
    cond := [];
    if guarded {
      cond := EncodeText(PredText(AttributeExists(pk)), st);
    }
    if where != null {
      var qf := where.root.PartText(Residual(pk, rk), st);
      if qf != [] {
        cond := if cond == [] then qf else cond + [Word(AND)] + qf;
      }
    }
  }

  lemma ConditionEncodes(guard: Text, residual: Text, s: Sym)
    ensures var g := Encode(guard, s);
            var r := Encode(residual, g.1);
            && |g.0| == |guard| && |r.0| == |residual|
            && Encode([], s) == ([], s)
            && (residual == [] ==> r.1 == g.1)
            && Encode(guard + (if residual == [] then [] else [Word(AND)] + residual), s) ==
               (if residual == [] then g.0 else g.0 + [Word(AND)] + r.0, r.1)
  {
    var g := Encode(guard, s);
    EncodeLength(guard, s);
    EncodeLength(residual, g.1);
    EncodeEmpty(s);
    EncodeEmpty(g.1);
    EncodeOne(Word(AND), g.1);
    hide Encode;
    var and: Text := [Word(AND)];
    assert Encode(and, g.1) == ([Word(AND)], g.1);
    assert guard + [] == guard;
    EncodeConcat(and, residual, g.1);
    EncodeConcat(guard, and + residual, s);
    var r := Encode(residual, g.1);
    assert g.0 + ([Word(AND)] + r.0) == g.0 + [Word(AND)] + r.0;
  }

  // The template of every per-item write; the key is set item by item.
  method MakeWriteRequest(table: string, mutation: Option<Mutation>, guarded: bool, where: Where?, pk: string,
                          rk: string, metered: bool, st: SymbolTable) returns (r: WriteRequest)
    requires ValidWhere(where) && st.Valid() && st.sym == Fresh(st.prefix)
    modifies st
    ensures r == WriteRequestOf(table, mutation, guarded, TreeOf(where), pk, rk,
                                if metered then Total else NoCapacity, st.prefix)
  {
    hide Encode;
    EncodeEmpty(st.sym);
    var update: Aliased := [];
    if mutation.Some? {
      update := SerializeUpdate(mutation.value, st);
    }
    var cond := SerializeCondition(guarded, where, pk, rk, st);
    var names := st.GetNames();
    r := WriteRequest(table, if mutation.Some? then Some(update) else None, NonEmpty(cond), names, st.values,
                      if metered then Total else NoCapacity, map[]);
  }
}

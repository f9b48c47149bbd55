// The in-memory client: a table of parallel vectors that is a map, the string a
// key is stored under, and the selection of a Query.

module MemoryClients {
  import opened Values
  import opened Expressions
  import opened Splitting
  import opened Access
  import opened SingleItem
  import opened Symbols
  import opened Updates
  import opened Requests
  import opened Planner
  import opened Clauses
  import opened Reads
  import opened KeyConditionParser

  // Attributes in the order they were written; a lookup finds the first.
  type Row = seq<(string, Value)>

  function ItemValue(row: Row, attr: string): Option<Value> {
    if row == [] then None else if row[0].0 == attr then Some(row[0].1) else ItemValue(row[1..], attr)
  }

  // ---- the table ------------------------------------------------------------

  ghost predicate Parallel(keys: seq<string>, items: seq<Row>) {
    |keys| == |items| && forall i, j | 0 <= i < j < |keys| :: keys[i] != keys[j]
  }

  function Contents(keys: seq<string>, items: seq<Row>): map<string, Row>
    requires |keys| == |items|
  {
    map k | k in keys :: items[IndexOf(keys, k)]
  }

  lemma ContentsAt(keys: seq<string>, items: seq<Row>, i: nat)
    requires Parallel(keys, items) && i < |keys|
    ensures keys[i] in Contents(keys, items) && Contents(keys, items)[keys[i]] == items[i]
  {
  }

  class Table {
    var keys: seq<string>
    var items: seq<Row>

    ghost predicate Valid()
      reads this
    {
      Parallel(keys, items)
    }

    ghost function Map(): map<string, Row>
      reads this
      requires Valid()
    {
      Contents(keys, items)
    }

    constructor ()
      ensures Valid() && Map() == map[]
    {
      keys, items := [], [];
    }

    method Find(key: string) returns (item: Option<Row>)
      requires Valid()
      ensures item == if key in Map() then Some(Map()[key]) else None
    {
      for i := 0 to |keys|
        invariant key !in keys[..i]
      {
        if keys[i] == key {
          ContentsAt(keys, items, i);
          return Some(items[i]);
        }
      }
      assert keys[..|keys|] == keys;
      return None;
    }

    // A new key goes to the end, an old one keeps its place.
    method Put(key: string, item: Row)
      requires Valid()
      modifies this
      ensures Valid() && Map() == old(Map())[key := item]
      ensures keys == if key in old(keys) then old(keys) else old(keys) + [key]
    {
      for i := 0 to |keys|
        invariant key !in keys[..i] && keys == old(keys) && items == old(items)
      {
        if keys[i] == key {
          items := items[i := item];
          PutContents(keys, old(items), i, item);
          return;
        }
      }
      assert keys[..|keys|] == keys;
      keys, items := keys + [key], items + [item];
      PushContents(old(keys), old(items), key, item);
    }

    method Erase(key: string)
      requires Valid()
      modifies this
      ensures Valid() && Map() == old(Map()) - {key}
      ensures key !in old(keys) ==> keys == old(keys)
      ensures forall i | 0 <= i < |old(keys)| && old(keys)[i] == key :: keys == old(keys)[..i] + old(keys)[i + 1..]
    {
      for i := 0 to |keys|
        invariant key !in keys[..i] && keys == old(keys) && items == old(items)
      {
        if keys[i] == key {
          keys, items := keys[..i] + keys[i + 1..], items[..i] + items[i + 1..];
          EraseContents(old(keys), old(items), i);
          return;
        }
      }
      assert keys[..|keys|] == keys;
      assert Map() == Map() - {key};
    }
  }

  lemma PutContents(keys: seq<string>, items: seq<Row>, i: nat, item: Row)
    requires Parallel(keys, items) && i < |keys|
    ensures Contents(keys, items[i := item]) == Contents(keys, items)[keys[i] := item]
  {
  }

  lemma PushContents(keys: seq<string>, items: seq<Row>, key: string, item: Row)
    requires Parallel(keys, items) && key !in keys
    ensures Parallel(keys + [key], items + [item])
    ensures Contents(keys + [key], items + [item]) == Contents(keys, items)[key := item]
  {
    var ks, vs := keys + [key], items + [item];
    forall k | k in ks ensures Contents(ks, vs)[k] == Contents(keys, items)[key := item][k] {
      var i := IndexOf(ks, k);
      ContentsAt(ks, vs, i);
      if i < |keys| {
        ContentsAt(keys, items, i);
      }
    }
  }

  lemma EraseContents(keys: seq<string>, items: seq<Row>, i: nat)
    requires Parallel(keys, items) && i < |keys|
    ensures var ks, vs := keys[..i] + keys[i + 1..], items[..i] + items[i + 1..];
            Parallel(ks, vs) && Contents(ks, vs) == Contents(keys, items) - {keys[i]}
  {
    var ks, vs := keys[..i] + keys[i + 1..], items[..i] + items[i + 1..];
    ErasedKeys(keys, items, i);
    hide Parallel, IndexOf;
    forall k | k in ks ensures Contents(ks, vs)[k] == Contents(keys, items)[k] {
      Shifted(keys, items, i, k);
    }
  }

  lemma ErasedKeys(keys: seq<string>, items: seq<Row>, i: nat)
    requires Parallel(keys, items) && i < |keys|
    ensures Parallel(keys[..i] + keys[i + 1..], items[..i] + items[i + 1..])
    ensures forall k :: k in keys[..i] + keys[i + 1..] <==> k in keys && k != keys[i]
  {
    var ks := keys[..i] + keys[i + 1..];
    assert forall j | 0 <= j < |ks| :: ks[j] == keys[if j < i then j else j + 1];
    forall k | k in keys && k != keys[i] ensures k in ks {
      var j := IndexOf(keys, k);
      assert ks[if j < i then j else j - 1] == k;
    }
  }

  lemma Shifted(keys: seq<string>, items: seq<Row>, i: nat, k: string)
    requires Parallel(keys, items) && i < |keys| && k in keys[..i] + keys[i + 1..]
    requires Parallel(keys[..i] + keys[i + 1..], items[..i] + items[i + 1..])
    ensures k in keys && k != keys[i]
    ensures Contents(keys[..i] + keys[i + 1..], items[..i] + items[i + 1..])[k] == Contents(keys, items)[k]
  {
    var ks, vs := keys[..i] + keys[i + 1..], items[..i] + items[i + 1..];
    var j := IndexOf(ks, k);
    ContentsAt(ks, vs, j);
    ContentsAt(keys, items, if j < i then j else j + 1);
  }

  // ---- the string of a key --------------------------------------------------

  const SEP: char := '\U{1f}'

  function ValueKey(v: Value): string {
    match v
    case S(s) => "S:" + s
    case N(s) => "N:" + s
    case B(s) => "B:" + s
    case Bool(b) => if b then "BOOL:1" else "BOOL:0"
    case Null => "NUL:"
    case _ => "?:"
  }

  function KeyString(key: Row): string {
    if key == [] then "" else key[0].0 + "=" + ValueKey(key[0].1) + [SEP] + KeyString(key[1..])
  }

  // What a key attribute may hold.
  predicate KeyScalar(v: Value) {
    (v.S? || v.N? || v.B?) && SEP !in v.s
  }

  predicate SameNames(a: Row, b: Row) {
    |a| == |b| && forall i | 0 <= i < |a| :: a[i].0 == b[i].0
  }

  predicate Scalars(key: Row) {
    forall i | 0 <= i < |key| :: KeyScalar(key[i].1)
  }

  lemma ValueKeyInjective(v: Value, w: Value)
    requires KeyScalar(v) && KeyScalar(w) && ValueKey(v) == ValueKey(w)
    ensures v == w
  {
    assert ValueKey(v)[0] == ValueKey(w)[0] && ValueKey(v)[2..] == v.s && ValueKey(w)[2..] == w.s;
  }

  // Where a mark that is not in a comes first.
  lemma FirstMark(a: string, c: char, x: string)
    requires c !in a
    ensures Find(a + ([c] + x), c) == |a|
  {
    FindConcat(a, [c] + x, c);
  }

  lemma UpToMark(a: string, b: string, c: char, x: string, y: string)
    requires c !in a && c !in b && a + ([c] + x) == b + ([c] + y)
    ensures a == b && x == y
  {
    FirstMark(a, c, x);
    FirstMark(b, c, y);
    var s, n := a + ([c] + x), |a|;
    assert a == s[..n] && b == s[..n] && x == s[n + 1..] && y == s[n + 1..];
  }

  lemma KeyStringFirst(key: Row)
    requires key != []
    ensures KeyString(key) == key[0].0 + (['='] + (ValueKey(key[0].1) + ([SEP] + KeyString(key[1..]))))
  {
    assert "=" == ['='];
  }

  lemma SameStart(a: string, x: string, y: string)
    requires a + x == a + y
    ensures x == y
  {
    assert (a + x)[|a|..] == x && (a + y)[|a|..] == y;
  }

  lemma ValueKeyClean(v: Value)
    requires KeyScalar(v)
    ensures SEP !in ValueKey(v)
  {
  }

  // Keys with the same names in the same order have the same string only when they
  // have the same values.
  lemma {:induction false} KeyStringInjective(a: Row, b: Row)
    requires SameNames(a, b) && Scalars(a) && Scalars(b) && KeyString(a) == KeyString(b)
    ensures a == b
  {
    if a == [] {
      EmptyKeys(a, b);
    } else {
      FirstAndRest(a, b);
      KeyStringFirst(a);
      KeyStringFirst(b);
      hide KeyString, ValueKey, KeyScalar, SameNames, Scalars;
      var va, vb := ValueKey(a[0].1), ValueKey(b[0].1);
      var ta, tb := va + ([SEP] + KeyString(a[1..])), vb + ([SEP] + KeyString(b[1..]));
      SameStart(a[0].0, ['='] + ta, ['='] + tb);
      SameStart(['='], ta, tb);
      ValueKeyClean(a[0].1);
      ValueKeyClean(b[0].1);
      UpToMark(va, vb, SEP, KeyString(a[1..]), KeyString(b[1..]));
      ValueKeyInjective(a[0].1, b[0].1);
      KeyStringInjective(a[1..], b[1..]);
      assert a == [a[0]] + a[1..] && b == [b[0]] + b[1..];
    }
  }

  lemma EmptyKeys(a: Row, b: Row)
    requires SameNames(a, b) && a == []
    ensures b == []
  {
  }

  lemma FirstAndRest(a: Row, b: Row)
    requires SameNames(a, b) && Scalars(a) && Scalars(b) && a != []
    ensures b != [] && a[0].0 == b[0].0 && KeyScalar(a[0].1) && KeyScalar(b[0].1)
    ensures SameNames(a[1..], b[1..]) && Scalars(a[1..]) && Scalars(b[1..])
  {
    hide KeyScalar;
    assert forall i | 0 <= i < |a[1..]| :: a[1..][i] == a[i + 1] && b[1..][i] == b[i + 1];
  }

  // The key attributes an item has, hash before range.
  function ExtractKey(row: Row, names: seq<string>): Row {
    if names == [] then []
    else (if ItemValue(row, names[0]).Some? then [(names[0], ItemValue(row, names[0]).value)] else [])
         + ExtractKey(row, names[1..])
  }

  // ---- stored by schema order, looked up by name order ----------------------

  // The order of std::map keys.
  predicate Before(a: string, b: string) {
    b != "" && (a == "" || a[0] < b[0] || (a[0] == b[0] && Before(a[1..], b[1..])))
  }

  lemma {:induction false} BeforeIsTotal(a: string, b: string)
    ensures a != b ==> (Before(a, b) <==> !Before(b, a))
    ensures a == b ==> !Before(a, b)
  {
    if a != "" && b != "" {
      BeforeIsTotal(a[1..], b[1..]);
      assert a == [a[0]] + a[1..] && b == [b[0]] + b[1..];
    }
  }

  // A request names its key in name order.
  function Sorted(key: Row): Row {
    if |key| == 2 && Before(key[1].0, key[0].0) then [key[1], key[0]] else key
  }

  function KeyRow(names: seq<string>, values: seq<Value>): Row
    requires |names| == |values|
  {
    seq(|names|, i requires 0 <= i < |names| => (names[i], values[i]))
  }

  predicate HasKey(row: Row, names: seq<string>, values: seq<Value>) {
    |names| == |values| && forall i | 0 <= i < |names| :: ItemValue(row, names[i]) == Some(values[i])
  }

  lemma {:induction false} ExtractIsKey(row: Row, names: seq<string>, values: seq<Value>)
    requires HasKey(row, names, values)
    ensures ExtractKey(row, names) == KeyRow(names, values)
  {
    if names != [] {
      assert forall i | 0 <= i < |names[1..]| :: names[1..][i] == names[i + 1] && values[1..][i] == values[i + 1];
      ExtractIsKey(row, names[1..], values[1..]);
    }
  }

  predicate InNameOrder(names: seq<string>) {
    |names| < 2 || Before(names[0], names[1])
  }

  datatype Op = Put(row: Row) | Delete(values: seq<Value>)

  // A put stores under the item's key attributes; a delete names the full key.
  function Applied(m: map<string, Row>, names: seq<string>, op: Op): map<string, Row>
    requires op.Delete? ==> |op.values| == |names|
  {
    match op
    case Put(row) => m[KeyString(ExtractKey(row, names)) := row]
    case Delete(values) => m - {KeyString(Sorted(KeyRow(names, values)))}
  }

  predicate Complete(op: Op, names: seq<string>) {
    match op
    case Put(row) => forall n | n in names :: ItemValue(row, n).Some? && KeyScalar(ItemValue(row, n).value)
    case Delete(values) => |values| == |names| && forall v | v in values :: KeyScalar(v)
  }

  function KeyOf(op: Op, names: seq<string>): seq<Value>
    requires Complete(op, names)
  {
    match op
    case Put(row) =>
      seq(|names|, i requires 0 <= i < |names| => assert names[i] in names; ItemValue(row, names[i]).value)
    case Delete(values) => values
  }

  function AppliedAll(names: seq<string>, ops: seq<Op>): map<string, Row>
    requires forall op | op in ops :: Complete(op, names)
  {
    if ops == [] then map[]
    else
      assert ops[|ops| - 1] in ops && Complete(ops[|ops| - 1], names);
      Applied(AppliedAll(names, ops[..|ops| - 1]), names, ops[|ops| - 1])
  }

  // The item last put under a key and not deleted since.
  function LastPut(names: seq<string>, ops: seq<Op>, values: seq<Value>): Option<Row>
    requires forall op | op in ops :: Complete(op, names)
  {
    if ops == [] then None
    else
      var op := ops[|ops| - 1];
      if KeyOf(op, names) == values then (if op.Put? then Some(op.row) else None)
      else LastPut(names, ops[..|ops| - 1], values)
  }

  function Get(m: map<string, Row>, names: seq<string>, values: seq<Value>): Option<Row>
    requires |names| == |values|
  {
    var k := KeyString(Sorted(KeyRow(names, values)));
    if k in m then Some(m[k]) else None
  }

  lemma OpKey(op: Op, names: seq<string>)
    requires Complete(op, names) && op.Put?
    ensures ExtractKey(op.row, names) == KeyRow(names, KeyOf(op, names)) && Scalars(KeyRow(names, KeyOf(op, names)))
  {
    forall i | 0 <= i < |names|
      ensures ItemValue(op.row, names[i]).Some? && KeyScalar(ItemValue(op.row, names[i]).value)
    {
      assert names[i] in names;
    }
    ExtractIsKey(op.row, names, KeyOf(op, names));
  }

  // With the key names in name order, a get by full key finds exactly the item
  // last put under that key and not deleted since, after any run of puts and deletes.
  lemma {:induction false} GetIsLastPut(names: seq<string>, ops: seq<Op>, values: seq<Value>)
    requires InNameOrder(names) && |names| <= 2 && |values| == |names|
    requires (forall v | v in values :: KeyScalar(v)) && forall op | op in ops :: Complete(op, names)
    ensures Get(AppliedAll(names, ops), names, values) == LastPut(names, ops, values)
  {
    if ops != [] {
      var op, before := ops[|ops| - 1], ops[..|ops| - 1];
      assert op in ops;
      GetIsLastPut(names, before, values);
      OneMore(names, AppliedAll(names, before), op, values);
    }
  }

  lemma OneMore(names: seq<string>, m: map<string, Row>, op: Op, values: seq<Value>)
    requires InNameOrder(names) && |names| <= 2 && |values| == |names|
    requires (forall v | v in values :: KeyScalar(v)) && Complete(op, names)
    ensures Get(Applied(m, names, op), names, values) ==
            if KeyOf(op, names) == values then (if op.Put? then Some(op.row) else None) else Get(m, names, values)
  {
    hide KeyString, ExtractKey, ItemValue;
    var mine, its := KeyRow(names, values), KeyRow(names, KeyOf(op, names));
    if |names| == 2 {
      BeforeIsTotal(names[0], names[1]);
    }
    assert Sorted(mine) == mine && Sorted(its) == its;
    if op.Put? {
      OpKey(op, names);
    }
    if KeyString(mine) == KeyString(its) {
      KeyStringInjective(mine, its);
      assert forall i | 0 <= i < |names| :: mine[i].1 == values[i] && its[i].1 == KeyOf(op, names)[i];
      assert values == KeyOf(op, names);
    }
  }

  // Every key here was stored by a put: it begins with the hash name.
  ghost predicate StoredByPut(m: map<string, Row>, hash: string) {
    forall k | k in m :: exists rest :: k == hash + (['='] + rest)
  }

  // An item that was just put is found by its full key exactly when the hash name
  // comes before the range name: it is stored in schema order and looked up in
  // name order.
  lemma PutThenGet(m: map<string, Row>, hash: string, range: string, row: Row, values: seq<Value>)
    requires '=' !in hash && '=' !in range && hash != range && StoredByPut(m, hash)
    requires HasKey(row, [hash, range], values) && forall v | v in values :: KeyScalar(v)
    ensures var after := Applied(m, [hash, range], Put(row));
            StoredByPut(after, hash) &&
            Get(after, [hash, range], values) == if Before(hash, range) then Some(row) else None
  {
    var names := [hash, range];
    var key, sorted := KeyRow(names, values), [(range, values[1]), (hash, values[0])];
    ExtractIsKey(row, names, values);
    BeforeIsTotal(hash, range);
    assert key == [(hash, values[0]), (range, values[1])];
    assert Sorted(key) == if Before(range, hash) then sorted else key;
    hide KeyString, ExtractKey, ItemValue, Before, HasKey, KeyScalar;
    var tail := FirstName(key);
    var other := FirstName(sorted);
    if Before(range, hash) && KeyString(sorted) in Applied(m, names, Put(row)) {
      var rest :| KeyString(sorted) == hash + (['='] + rest);
      UpToMark(range, hash, '=', other, rest);
    }
  }

  lemma FirstName(key: Row) returns (rest: string)
    requires key != []
    ensures KeyString(key) == key[0].0 + (['='] + rest)
  {
    KeyStringFirst(key);
    rest := ValueKey(key[0].1) + ([SEP] + KeyString(key[1..]));
  }

  // ---- Query ----------------------------------------------------------------

  // Values without text have an empty one.
  function Payload(v: Value): string {
    if v.S? || v.N? || v.B? then v.s else ""
  }

  predicate TestPasses(order: (Value, Value) -> int, v: Value, p: KeyPred) {
    if p.op == "=" then order(v, p.v1) == 0
    else if p.op == "<" then order(v, p.v1) < 0
    else if p.op == "<=" then order(v, p.v1) <= 0
    else if p.op == ">" then order(v, p.v1) > 0
    else if p.op == ">=" then order(v, p.v1) >= 0
    else if p.op == "begins_with" then Payload(p.v1) <= Payload(v)
    else if p.op == "between" then order(v, p.v1) >= 0 && order(v, p.v2) <= 0
    else false
  }

  predicate RowPasses(order: (Value, Value) -> int, row: Row, p: KeyPred) {
    ItemValue(row, p.attr).Some? && TestPasses(order, ItemValue(row, p.attr).value, p)
  }

  function Passing(order: (Value, Value) -> int, rows: seq<Row>, preds: seq<KeyPred>): seq<Row> {
    if rows == [] then []
    else
      (if forall p | p in preds :: RowPasses(order, rows[0], p) then [rows[0]] else []) +
      Passing(order, rows[1..], preds)
  }

  method MatchesAll(order: (Value, Value) -> int, row: Row, preds: seq<KeyPred>) returns (all: bool)
    ensures all <==> forall p | p in preds :: RowPasses(order, row, p)
  {
    for i := 0 to |preds|
      invariant forall p | p in preds[..i] :: RowPasses(order, row, p)
    {
      if !RowPasses(order, row, preds[i]) {
        assert preds[i] in preds;
        return false;
      }
    }
    assert preds[..|preds|] == preds;
    return true;
  }

  method QueryRows(order: (Value, Value) -> int, rows: seq<Row>, condition: string, names: map<string, string>,
                   values: map<string, Value>) returns (found: seq<Row>)
    ensures found == Passing(order, rows, ParseFields(Fields(Normalized(condition)), names, values))
  {
    hide ParseFields, Fields, Normalized, RowPasses, Passing;
    var preds := KeyConditionParser.ParseKeyCondition(condition, names, values);
    found := [];
    assert rows[0..] == rows;
    for i := 0 to |rows|
      invariant found + Passing(order, rows[i..], preds) == Passing(order, rows, preds)
    {
      PassingStep(order, rows, i, preds);
      var all := MatchesAll(order, rows[i], preds);
      if all {
        found := found + [rows[i]];
      }
    }
    assert rows[|rows|..] == [] && Passing(order, [], preds) == [] by { PassingNone(order, preds); }
  }

  lemma PassingStep(order: (Value, Value) -> int, rows: seq<Row>, i: nat, preds: seq<KeyPred>)
    requires i < |rows|
    ensures Passing(order, rows[i..], preds) ==
            (if forall p | p in preds :: RowPasses(order, rows[i], p) then [rows[i]] else [])
            + Passing(order, rows[i + 1..], preds)
  {
    assert rows[i..][0] == rows[i] && rows[i..][1..] == rows[i + 1..];
  }

  lemma PassingNone(order: (Value, Value) -> int, preds: seq<KeyPred>)
    ensures Passing(order, [], preds) == []
  {
  }

  // What a predicate of the clause says of an item, by this client's order.
  predicate PredPasses(order: (Value, Value) -> int, row: Row, p: Pred) {
    ItemValue(row, p.lhs).Some? && ValuePasses(order, ItemValue(row, p.lhs).value, p)
  }

  predicate ValuePasses(order: (Value, Value) -> int, v: Value, p: Pred) {
    match p
    case Comparison(_, op, rhs) =>
      var c := order(v, rhs);
      (match op
       case Eq => c == 0
       case Ne => c != 0
       case Lt => c < 0
       case Le => c <= 0
       case Gt => c > 0
       case Ge => c >= 0)
    case Between(_, lo, hi) => order(v, lo) >= 0 && order(v, hi) <= 0
    case BeginsWith(_, prefix) => Payload(prefix) <= Payload(v)
    case _ => false
  }

  predicate Unequal(p: Pred) {
    p.Comparison? && p.op == Ne
  }

  // The client tells `<>` from no other text it does not know, and lets nothing pass.
  lemma PassesAsPred(order: (Value, Value) -> int, row: Row, p: Pred)
    ensures RowPasses(order, row, AsKeyPred(p)) <==> !Unequal(p) && PredPasses(order, row, p)
  {
  }

  // The stored items, in their order, that pass every predicate of the clause on a
  // key attribute of the plan.
  function Chosen(order: (Value, Value) -> int, rows: seq<Row>, os: seq<Occ>): seq<Row> {
    if rows == [] then []
    else
      (if forall o | o in os :: PredPasses(order, rows[0], o.pred) then [rows[0]] else []) +
      Chosen(order, rows[1..], os)
  }

  predicate HasUnequal(os: seq<Occ>) {
    exists o | o in os :: Unequal(o.pred)
  }

  lemma {:induction false} PassingIsChosen(order: (Value, Value) -> int, rows: seq<Row>, os: seq<Occ>)
    ensures Passing(order, rows, KeyPreds(os)) == if HasUnequal(os) then [] else Chosen(order, rows, os)
  {
    if rows != [] {
      PassingIsChosen(order, rows[1..], os);
      PassesAll(order, rows[0], os);
    }
  }

  lemma PassesAll(order: (Value, Value) -> int, row: Row, os: seq<Occ>)
    ensures (forall p | p in KeyPreds(os) :: RowPasses(order, row, p)) <==>
            !HasUnequal(os) && forall o | o in os :: PredPasses(order, row, o.pred)
  {
    hide RowPasses, PredPasses, AsKeyPred, Unequal;
    forall o | o in os
      ensures RowPasses(order, row, AsKeyPred(o.pred)) <==> !Unequal(o.pred) && PredPasses(order, row, o.pred)
    {
      PassesAsPred(order, row, o.pred);
    }
    forall o | o in os ensures AsKeyPred(o.pred) in KeyPreds(os) {
      var i :| 0 <= i < |os| && os[i] == o;
      assert KeyPreds(os)[i] == AsKeyPred(o.pred);
    }
    forall p | p in KeyPreds(os) ensures exists o :: o in os && AsKeyPred(o.pred) == p {
      var i :| 0 <= i < |os| && KeyPreds(os)[i] == p;
      assert os[i] in os;
    }
  }

  // The text of a planned key condition, parsed and applied by the client, selects
  // the items that pass the clause's predicates on the plan's key attributes, or none
  // if a `<>` is among them.
  lemma QueryFindsKeyMatches(order: (Value, Value) -> int, rows: seq<Row>, e: Expr, pk: seq<string>, rk: seq<string>,
                             n: nat, enc: Aliased, names: map<string, string>, values: map<string, Value>)
    requires Arity(e, 2) && QueryRule(Occs(e, true), pk, rk, n) && Parsable(e, pk, rk[..n])
    requires Decode(enc, names, values) == Some(PrintOption(Prune(e, KeyCondition(pk, rk[..n]))))
             && CleanTables(names, values)
    ensures Passing(order, rows, ParseFields(Fields(Normalized(Spell(enc))), names, values))
            == var tests := Mentioning(Occs(e, true), pk, rk[..n], true);
               if HasUnequal(tests) then [] else Chosen(order, rows, tests)
  {
    KeyConditionParses(e, pk, rk, n, enc, names, values);
    PassingIsChosen(order, rows, Mentioning(Occs(e, true), pk, rk[..n], true));
  }

  // The predicates of a clause on the key attributes of its plan, and what the client
  // finds by the key condition planned for it.
  ghost function KeyTests(e: Expr, plan: QueryKeyPlan): seq<Occ> {
    Mentioning(Occs(e, true), plan.pk, plan.sk, true)
  }

  function FoundBy(order: (Value, Value) -> int, rows: seq<Row>, r: ReadRequest): seq<Row>
    requires r.keyCondition.Some?
  {
    Passing(order, rows, ParseFields(Fields(Normalized(Spell(r.keyCondition.value))), r.names, r.values))
  }

  // A clause with a plan the client can parse.
  ghost predicate PlannedHere(e: Expr, pk: seq<string>, rk: seq<string>, prefix: string) {
    && Arity(e, 2) && PlanOf(Some(e), pk, rk).Some?
    && Parsable(e, PlanOf(Some(e), pk, rk).value.pk, PlanOf(Some(e), pk, rk).value.sk)
    && CleanPrefix(prefix) && forall c | c in prefix :: !Separator(c)
  }

  // From the clause to the items: whenever a Query is planned, the client finds by
  // its printed key condition exactly the items that pass the key predicates, or none
  // if a `<>` is among them.
  lemma PlannedQueryFinds(order: (Value, Value) -> int, rows: seq<Row>, e: Expr, pk: seq<string>, rk: seq<string>,
                          table: string, index: Option<string>, consistent: bool, capacity: Capacity,
                          paths: seq<string>, prefix: string)
    requires PlannedHere(e, pk, rk, prefix)
    ensures var plan := PlanOf(Some(e), pk, rk);
            var r := ReadRequestOf(table, index, consistent, capacity, paths, Some(e), plan, prefix);
            var tests := KeyTests(e, plan.value);
            FoundBy(order, rows, r) == if HasUnequal(tests) then [] else Chosen(order, rows, tests)
  {
    hide Encode, Passing, Chosen, ParseFields, Fields, Mentioning, QueryRule, Parsable, CleanTables, HasUnequal;
    var plan := PlanOf(Some(e), pk, rk);
    var n: nat :| QueryRule(Occs(e, true), pk, rk, n);
    PlannedIs(Occs(e, true), pk, rk, n);
    var r := ReadRequestOf(table, index, consistent, capacity, paths, Some(e), plan, prefix);
    ReadRequestDecodes(table, index, consistent, capacity, paths, Some(e), plan, prefix);
    RequestIsClean(table, index, consistent, capacity, paths, Some(e), plan, prefix);
    assert n <= |rk| by { RuleBound(Occs(e, true), pk, rk, n); }
    QueryFindsKeyMatches(order, rows, e, pk, rk, n, r.keyCondition.value, r.names, r.values);
  }

  lemma RuleBound(os: seq<Occ>, pk: seq<string>, rk: seq<string>, n: nat)
    requires QueryRule(os, pk, rk, n)
    ensures n <= |rk|
  {
  }

  // ---- a `<>` among the key predicates --------------------------------------

  // Some value passes the test.
  ghost predicate Passable(order: (Value, Value) -> int, p: Pred) {
    exists v :: ValuePasses(order, v, p)
  }

  ghost function Witness(order: (Value, Value) -> int, p: Pred): (v: Value)
    requires Passable(order, p)
    ensures ValuePasses(order, v, p)
  {
    var v :| ValuePasses(order, v, p);
    v
  }

  ghost function WitnessRow(order: (Value, Value) -> int, os: seq<Occ>): Row
    requires forall o | o in os :: Passable(order, o.pred)
  {
    seq(|os|, i requires 0 <= i < |os| => (os[i].pred.lhs, Witness(order, os[i].pred)))
  }

  lemma {:induction false} WitnessAt(order: (Value, Value) -> int, os: seq<Occ>, i: nat)
    requires i < |os| && Apart(os) && forall o | o in os :: Passable(order, o.pred)
    ensures ItemValue(WitnessRow(order, os), os[i].pred.lhs) == Some(Witness(order, os[i].pred))
  {
    hide Witness, Passable;
    if i > 0 {
      assert forall j | 0 <= j < |os[1..]| :: os[1..][j] == os[j + 1];
      WitnessAt(order, os[1..], i - 1);
      assert WitnessRow(order, os)[1..] == WitnessRow(order, os[1..]);
      assert os[0].pred.lhs != os[i].pred.lhs;
    }
  }

  // Tests on different attributes that can each be passed can all be.
  lemma WitnessPasses(order: (Value, Value) -> int, os: seq<Occ>)
    requires Apart(os) && forall o | o in os :: Passable(order, o.pred)
    ensures Chosen(order, [WitnessRow(order, os)], os) == [WitnessRow(order, os)]
  {
    var row := WitnessRow(order, os);
    forall o | o in os ensures PredPasses(order, row, o.pred) {
      var i :| 0 <= i < |os| && os[i] == o;
      WitnessAt(order, os, i);
    }
    assert [row][1..] == [] && Chosen(order, [], os) == [];
  }

  // A test that no value passes lets nothing through.
  lemma {:induction false} NothingChosen(order: (Value, Value) -> int, rows: seq<Row>, os: seq<Occ>, o: Occ)
    requires o in os && !Passable(order, o.pred)
    ensures Chosen(order, rows, os) == []
  {
    if rows != [] {
      NothingChosen(order, rows[1..], os, o);
      assert !PredPasses(order, rows[0], o.pred);
    }
  }

  // Where each key attribute is tested once, the client finds what it should in every
  // table, by whatever order of values, exactly when none of the tests is a `<>`, or
  // one of them cannot be passed at all.
  lemma PlannedQueryExact(order: (Value, Value) -> int, e: Expr, pk: seq<string>, rk: seq<string>, table: string,
                          index: Option<string>, consistent: bool, capacity: Capacity, paths: seq<string>,
                          prefix: string)
    requires PlannedHere(e, pk, rk, prefix)
    requires var plan := PlanOf(Some(e), pk, rk).value;
             forall a | a in plan.pk + plan.sk :: CountLhs(Occs(e, true), a) <= 1
    ensures var plan := PlanOf(Some(e), pk, rk);
            var r := ReadRequestOf(table, index, consistent, capacity, paths, Some(e), plan, prefix);
            var tests := KeyTests(e, plan.value);
            (forall rows: seq<Row> :: FoundBy(order, rows, r) == Chosen(order, rows, tests)) <==>
            !HasUnequal(tests) || exists o | o in tests :: !Passable(order, o.pred)
  {
    hide FoundBy, Chosen, HasUnequal, PlannedHere, ReadRequestOf, Passable;
    var plan := PlanOf(Some(e), pk, rk);
    var r := ReadRequestOf(table, index, consistent, capacity, paths, Some(e), plan, prefix);
    KeyConditionThere(e, pk, rk, table, index, consistent, capacity, paths, prefix);
    var tests := KeyTests(e, plan.value);
    forall rows: seq<Row>
      ensures FoundBy(order, rows, r) == if HasUnequal(tests) then [] else Chosen(order, rows, tests)
    {
      PlannedQueryFinds(order, rows, e, pk, rk, table, index, consistent, capacity, paths, prefix);
    }
    ApartCounted(Occs(e, true), plan.value.pk, plan.value.sk);
    if o :| o in tests && !Passable(order, o.pred) {
      forall rows: seq<Row> ensures Chosen(order, rows, tests) == [] {
        NothingChosen(order, rows, tests, o);
      }
    } else {
      WitnessPasses(order, tests);
    }
  }

  lemma KeyConditionThere(e: Expr, pk: seq<string>, rk: seq<string>, table: string, index: Option<string>,
                          consistent: bool, capacity: Capacity, paths: seq<string>, prefix: string)
    requires PlannedHere(e, pk, rk, prefix)
    ensures PlanOf(Some(e), pk, rk).Some?
    ensures ReadRequestOf(table, index, consistent, capacity, paths, Some(e), PlanOf(Some(e), pk, rk),
                          prefix).keyCondition.Some?
  {
  }
}

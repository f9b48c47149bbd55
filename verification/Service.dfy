// The service a bulk write talks to: a keyed store that other writers share, that
// evaluates the texts of a request, and that returns reads in pages.

module Service {
  import opened Values
  import opened Expressions
  import opened Reader
  import opened Symbols
  import opened Updates
  import opened Requests

  // A primary key: the base-table key attributes and their values.
  type Key = Item

  type Store = map<Key, Item>

  datatype Failure = ConditionFailed | Rejected | Unavailable | OutOfTurns | Unexplained

  // What happens around one call: other writers may have replaced the store, the
  // call may fail, a page evaluates limit + 1 more keys, a response costs units.
  datatype Turn = Turn(foreign: Option<Store>, fault: bool, limit: nat, units: Option<real>)

  // What the service means by predicates and updates, the attributes of a key, the
  // order it enumerates keys in, the items each index shows, and how it serializes a
  // request.
  datatype Law = Law(
    sem: Semantics,
    keyNames: set<string>,
    order: seq<Key>,
    apply: (Update, Item) -> Item,
    shows: (string, Item) -> bool,
    explain: Request -> Option<string>)

  datatype Request = Reading(read: ReadRequest) | Writing(write: WriteRequest) | Putting(put: PutRequest)

  datatype Page = Page(rows: seq<Item>, last: Option<Key>, units: Option<real>)

  datatype Written = Written(request: WriteRequest, before: Option<Item>, outcome: Result<Option<Item>, Failure>)

  // The store, what is still to happen, and what was exchanged so far: the requests
  // sent, the pages and the writes that came of them, the units that each read and each
  // write was charged, and the requests explained.
  datatype World = World(store: Store, turns: seq<Turn>, issued: seq<Request>, pages: seq<Page>,
                         writes: seq<Written>, readCosts: seq<Option<real>>, writeCosts: seq<Option<real>>,
                         explained: seq<Request>)

  // The world as the next request finds it.
  function Arrive(w: World, r: Request): World
    requires w.turns != []
  {
    w.(turns := w.turns[1..], store := w.turns[0].foreign.GetOr(w.store), issued := w.issued + [r])
  }

  // ---- reads ----------------------------------------------------------------

  // A key condition must be a plain conjunction of key tests, one for each key.
  predicate KeyConditionAccepted(r: ReadRequest) {
    r.keyCondition.Some? ==>
      match Decode(r.keyCondition.value, r.names, r.values)
      case None => false
      case Some(raw) => Read(raw).Some? && KeyLegal(Read(raw).value)
  }

  // And a filter must be readable.
  predicate Accepted(r: ReadRequest) {
    KeyConditionAccepted(r) && Judge(r.filter, r.names, r.values, p => true).Some?
  }

  predicate Selects(r: ReadRequest, m: Meaning) {
    Judge(r.keyCondition, r.names, r.values, m) == Some(true) && Judge(r.filter, r.names, r.values, m) == Some(true)
  }

  function PathsIn(text: Text): set<string> {
    set t | t in text && t.Attr? :: t.path
  }

  function Project(r: ReadRequest, item: Item): Item {
    if r.projection.None? then item
    else match Decode(r.projection.value, r.names, r.values)
      case None => map[]
      case Some(raw) => map a | a in item && a in PathsIn(raw) :: item[a]
  }

  // An index may not show an item; the table shows all.
  predicate Shown(law: Law, index: Option<string>, item: Item) {
    index.Some? ==> law.shows(index.value, item)
  }

  // The rows a read finds at one key: none or one.
  function RowAt(law: Law, store: Store, r: ReadRequest, k: Key): seq<Item> {
    if k in store && Shown(law, r.index, store[k])
       && Selects(r, ItemMeaning(law.sem, store[k])) then [Project(r, store[k])] else []
  }

  function RowsAt(law: Law, store: Store, r: ReadRequest, keys: seq<Key>): seq<Item> {
    if keys == [] then [] else RowAt(law, store, r, keys[0]) + RowsAt(law, store, r, keys[1..])
  }

  // The number of keys up to and including k, or all of them.
  function After(order: seq<Key>, k: Key): (n: nat)
    ensures n <= |order|
  {
    if order == [] then 0 else if order[0] == k then 1 else 1 + After(order[1..], k)
  }

  function Position(law: Law, r: ReadRequest): (n: nat)
    ensures n <= |law.order|
  {
    if r.startKey.None? then 0 else After(law.order, r.startKey.value)
  }

  function PageEnd(law: Law, start: nat, limit: nat): (n: nat)
    requires start <= |law.order|
    ensures start <= n <= |law.order|
  {
    if start + limit + 1 <= |law.order| then start + limit + 1 else |law.order|
  }

  function ReadPage(law: Law, w: World, r: ReadRequest): (World, Result<Page, Failure>) {
    var free := w.readCosts + [None];
    if w.turns == [] then (w.(issued := w.issued + [Reading(r)], readCosts := free), Err(OutOfTurns))
    else
      var now := Arrive(w, Reading(r));
      if w.turns[0].fault then (now.(readCosts := free), Err(Unavailable))
      else if !Accepted(r) then (now.(readCosts := free), Err(Rejected))
      else
        var start := Position(law, r);
        var end := PageEnd(law, start, w.turns[0].limit);
        var page := Page(RowsAt(law, now.store, r, law.order[start..end]),
                         if end < |law.order| then Some(law.order[end - 1]) else None, w.turns[0].units);
        (now.(pages := now.pages + [page], readCosts := w.readCosts + [page.units]), Ok(page))
  }

  // ---- writes ---------------------------------------------------------------

  // A condition is evaluated on the item as it is at that moment, or on none. An update
  // expression must be readable.
  function Verdict(law: Law, store: Store, r: WriteRequest): Option<bool> {
    if r.update.Some? && UpdateMeant(r).None? then None
    else Judge(r.condition, r.names, r.values, ItemMeaning(law.sem, if r.key in store then store[r.key] else map[]))
  }

  // What an update makes of the item under a key. It cannot change the key, and no
  // attribute is called "".
  function Changed(law: Law, u: Update, key: Key, item: Item): Item {
    var result := law.apply(u, item);
    (map a | a in result && a != "" :: result[a]) + key
  }

  function Updated(law: Law, r: WriteRequest, item: Item): Item {
    Changed(law, UpdateMeant(r).GetOr(Removes([])), r.key, item)
  }

  function WriteItem(law: Law, w: World, r: WriteRequest): (World, Result<Option<Item>, Failure>, Option<real>) {
    if w.turns == [] then
      (w.(issued := w.issued + [Writing(r)], writeCosts := w.writeCosts + [None]), Err(OutOfTurns), None)
    else
      var now := Arrive(w, Writing(r));
      var before := if r.key in now.store then Some(now.store[r.key]) else None;
      var verdict := Verdict(law, now.store, r);
      var outcome: Result<Option<Item>, Failure> :=
        if w.turns[0].fault then Err(Unavailable)
        else if verdict.None? then Err(Rejected)
        else if !verdict.value then Err(ConditionFailed)
        else Ok(before);
      var store :=
        if outcome.Err? then now.store
        else if r.update.None? then now.store - {r.key}
        else now.store[r.key := Updated(law, r, before.GetOr(map[]))];
      var cost := if outcome.Ok? then w.turns[0].units else None;
      (now.(store := store, writes := now.writes + [Written(r, before, outcome)], writeCosts := w.writeCosts + [cost]),
       outcome, cost)
  }

  // The key of an item is its part of the key attributes.
  function KeyOf(law: Law, item: Item): Key {
    map a | a in item && a in law.keyNames :: item[a]
  }

  // None: the condition cannot be read. It is about one attribute not being there.
  function PutVerdict(law: Law, store: Store, r: PutRequest): Option<bool> {
    if r.condition.None? then Some(true)
    else match Decode(r.condition.value, r.names, map[])
      case None => None
      case Some(raw) =>
        if |raw| == 3 && raw[0] == Word("attribute_not_exists(") && raw[1].Attr? && raw[2] == Word(")")
        then Some(KeyOf(law, r.item) !in store || raw[1].path !in store[KeyOf(law, r.item)]) else None
  }

  // The item replaces the one under its key, if any, which is returned.
  function PutItem(law: Law, w: World, r: PutRequest): (World, Result<Option<Item>, Failure>, Option<real>) {
    if w.turns == [] then
      (w.(issued := w.issued + [Putting(r)], writeCosts := w.writeCosts + [None]), Err(OutOfTurns), None)
    else
      var now := Arrive(w, Putting(r));
      var key, verdict := KeyOf(law, r.item), PutVerdict(law, now.store, r);
      var outcome: Result<Option<Item>, Failure> :=
        if w.turns[0].fault then Err(Unavailable)
        else if !(law.keyNames <= r.item.Keys) || verdict.None? then Err(Rejected)
        else if !verdict.value then Err(ConditionFailed)
        else Ok(if key in now.store then Some(now.store[key]) else None);
      var cost := if outcome.Ok? then w.turns[0].units else None;
      (now.(store := if outcome.Ok? then now.store[key := r.item] else now.store, writeCosts := w.writeCosts + [cost]),
       outcome, cost)
  }

  function ExplainRequest(law: Law, w: World, r: Request): (World, Option<string>) {
    (w.(explained := w.explained + [r]), law.explain(r))
  }

  // The service as the object the executors call.
  class Client {
    const law: Law
    var world: World

    constructor (law: Law, world: World)
      ensures this.law == law && this.world == world
    {
      this.law, this.world := law, world;
    }

    method ReadItems(r: ReadRequest) returns (result: Result<Page, Failure>)
      modifies this
      ensures (world, result) == ReadPage(law, old(world), r)
    {
      var done := ReadPage(law, world, r);
      world, result := done.0, done.1;
    }

    method Write(r: WriteRequest) returns (result: Result<Option<Item>, Failure>, units: Option<real>)
      modifies this
      ensures (world, result, units) == WriteItem(law, old(world), r)
    {
      var done := WriteItem(law, world, r);
      world, result, units := done.0, done.1, done.2;
    }

    method Put(r: PutRequest) returns (result: Result<Option<Item>, Failure>, units: Option<real>)
      modifies this
      ensures (world, result, units) == PutItem(law, old(world), r)
    {
      var done := PutItem(law, world, r);
      world, result, units := done.0, done.1, done.2;
    }

    method Explain(r: Request) returns (body: Option<string>)
      modifies this
      ensures (world, body) == ExplainRequest(law, old(world), r)
    {
      var done := ExplainRequest(law, world, r);
      world, body := done.0, done.1;
    }
  }
}

// EXPLAIN of a bulk write: the requests it shows are the requests of the run.

module Explains {
  import opened Values
  import opened Symbols
  import opened Updates
  import opened Requests
  import opened Service
  import opened BulkWrites

  datatype Block = Block(api: string, body: string)

  // The operation of the service.
  function Api(r: Request): string {
    match r
    case Reading(read) => if read.keyCondition.Some? then "Query" else "Scan"
    case Writing(write) => if write.update.Some? then "UpdateItem" else "DeleteItem"
    case Putting(_) => "PutItem"
  }

  // ---- the run --------------------------------------------------------------

  function ExplainOne(law: Law, w: World, r: Request, blocks: seq<Block>): (World, Result<seq<Block>, Failure>) {
    var done := ExplainRequest(law, w, r);
    (done.0, match done.1
             case None => Err(Unexplained)
             case Some(body) => Ok(blocks + [Block(Api(r), body)]))
  }

  function ExplainRows(law: Law, w: World, rows: seq<Item>, t: WriteRequest,
                       blocks: seq<Block>): (World, Result<seq<Block>, Failure>)
    decreases |rows|
  {
    if rows == [] then (w, Ok(blocks))
    else
      var done := ExplainOne(law, w, Writing(t.(key := rows[0])), blocks);
      if done.1.Err? then done else ExplainRows(law, done.0, rows[1..], t, done.1.value)
  }

  lemma {:induction false} RowsOnlyExplain(law: Law, w: World, rows: seq<Item>, t: WriteRequest, blocks: seq<Block>)
    ensures var done := ExplainRows(law, w, rows, t, blocks); done.0 == w.(explained := done.0.explained)
    decreases |rows|
  {
    if rows != [] {
      var done := ExplainOne(law, w, Writing(t.(key := rows[0])), blocks);
      if done.1.Ok? {
        RowsOnlyExplain(law, done.0, rows[1..], t, done.1.value);
      }
    }
  }

  // UPDATE shows every page's read, DELETE none of them: it shows the first one up front.
  function ExplainPages(law: Law, w: World, read: ReadRequest, t: WriteRequest, eachPage: bool, blocks: seq<Block>)
    : (World, Result<seq<Block>, Failure>)
    decreases |w.turns|
  {
    var shown := if eachPage then ExplainOne(law, w, Reading(read), blocks) else (w, Ok(blocks));
    if shown.1.Err? then shown
    else
      var page := ReadPage(law, shown.0, read);
      if page.1.Err? then (page.0, Err(page.1.error))
      else
        var done := ExplainRows(law, page.0, page.1.value.rows, t, shown.1.value);
        RowsOnlyExplain(law, page.0, page.1.value.rows, t, shown.1.value);
        if done.1.Err? || page.1.value.last.None? || page.1.value.last.value == map[] then done
        else ExplainPages(law, done.0, read.(startKey := page.1.value.last), t, eachPage, done.1.value)
  }

  // A DELETE planned as a Query shows the Query and does not run it.
  function ExplainDelete(law: Law, w: World, read: ReadRequest, t: WriteRequest): (World, Result<seq<Block>, Failure>) {
    var shown := ExplainOne(law, w, Reading(read), []);
    if shown.1.Err? || read.keyCondition.Some? then shown
    else ExplainPages(law, shown.0, read, t, false, shown.1.value)
  }

  // ---- the requests of a run, from the pages it was given -------------------

  function WritesOf(t: WriteRequest, rows: seq<Item>): seq<Request> {
    seq(|rows|, i requires 0 <= i < |rows| => Writing(t.(key := rows[i])))
  }

  function Script(read: ReadRequest, t: WriteRequest, pages: seq<Page>, eachPage: bool): seq<Request>
    decreases |pages|
  {
    if pages == [] then []
    else (if eachPage then [Reading(read)] else []) + WritesOf(t, pages[0].rows)
         + Script(read.(startKey := pages[0].last), t, pages[1..], eachPage)
  }

  predicate Goes(page: Page) {
    page.last.Some? && page.last.value != map[]
  }

  // Pages up to the first that has no key to go on from.
  predicate Complete(pages: seq<Page>) {
    && pages != [] && !Goes(pages[|pages| - 1])
    && forall i | 0 <= i < |pages| - 1 :: Goes(pages[i])
  }

  lemma CompleteFrom(before: seq<Page>, page: Page, after: seq<Page>)
    requires before + [page] <= after
    requires if Goes(page) then Complete(after[|before| + 1..]) else after == before + [page]
    ensures before <= after && Complete(after[|before|..])
  {
    assert forall i | |before| <= i < |after| :: after[|before|..][i - |before|] == after[i];
    if Goes(page) {
      var rest := after[|before| + 1..];
      assert forall i | 0 <= i < |rest| :: rest[i] == after[|before|..][i + 1];
    }
  }

  function OnlyWrites(requests: seq<Request>): seq<Request> {
    if requests == [] then []
    else (if requests[0].Writing? then [requests[0]] else []) + OnlyWrites(requests[1..])
  }

  function BlocksOf(law: Law, requests: seq<Request>): seq<Block> {
    if requests == [] then []
    else [Block(Api(requests[0]), law.explain(requests[0]).GetOr(""))] + BlocksOf(law, requests[1..])
  }

  lemma {:induction false} RowsIssue(law: Law, w: World, rows: seq<Item>, t: WriteRequest, wantReturned: bool,
                                     acct: Acct)
    ensures var done := RunRows(law, w, rows, t, wantReturned, acct);
            && done.0.pages == w.pages && done.0.explained == w.explained
            && (done.1.Ok? ==> done.0.issued == w.issued + WritesOf(t, rows))
    decreases |rows|
  {
    if rows == [] {
      assert w.issued + WritesOf(t, rows) == w.issued;
    } else {
      var done := WriteItem(law, w, t.(key := rows[0]));
      if !Fatal(done.1) {
        RowsIssue(law, done.0, rows[1..], t, wantReturned, Counted(acct, done.1, wantReturned));
        WritesOfTail(t, rows);
      }
    }
  }

  lemma WritesOfTail(t: WriteRequest, rows: seq<Item>)
    requires rows != []
    ensures WritesOf(t, rows) == [Writing(t.(key := rows[0]))] + WritesOf(t, rows[1..])
  {
  }

  lemma ReadIssues(law: Law, w: World, read: ReadRequest)
    ensures var page := ReadPage(law, w, read);
            && page.0.explained == w.explained && page.0.writes == w.writes
            && (page.1.Ok? ==> && |page.0.turns| < |w.turns| && page.0.pages == w.pages + [page.1.value]
                               && page.0.issued == w.issued + [Reading(read)])
  {
  }

  // A successful run goes on to the page without a last key. It sends one read per page
  // and one write per row of it, in order.
  lemma {:induction false} RunIssues(law: Law, w: World, read: ReadRequest, t: WriteRequest, wantReturned: bool,
                                     acct: Acct)
    ensures var done := RunPages(law, w, read, t, wantReturned, acct);
            done.1.Ok? ==> && w.pages <= done.0.pages && done.0.explained == w.explained
                           && Complete(done.0.pages[|w.pages|..])
                           && done.0.issued == w.issued + Script(read, t, done.0.pages[|w.pages|..], true)
    decreases |w.turns|
  {
    hide RunRows, ReadPage, Script, Complete;
    var page := ReadPage(law, w, read);
    ReadIssues(law, w, read);
    if page.1.Ok? {
      var rows, last := page.1.value.rows, page.1.value.last;
      RowsIssue(law, page.0, rows, t, wantReturned, acct);
      RowsUseTurns(law, page.0, rows, t, wantReturned, acct);
      var done := RunRows(law, page.0, rows, t, wantReturned, acct);
      if done.1.Ok? {
        var next := read.(startKey := last);
        var all := RunPages(law, w, read, t, wantReturned, acct);
        if last.Some? && last.value != map[] {
          RunIssues(law, done.0, next, t, wantReturned, done.1.value);
        } else {
          ScriptEnd(next, t, done.0.pages[|w.pages| + 1..], true);
        }
        if all.1.Ok? {
          CompleteFrom(w.pages, page.1.value, all.0.pages);
          ScriptFirst(read, t, w.pages, page.1.value, all.0.pages, true);
        }
      }
    }
  }

  lemma ScriptFirst(read: ReadRequest, t: WriteRequest, before: seq<Page>, page: Page, after: seq<Page>, eachPage: bool)
    requires before + [page] <= after
    ensures before <= after
    ensures Script(read, t, after[|before|..], eachPage) ==
            (if eachPage then [Reading(read)] else []) + WritesOf(t, page.rows)
            + Script(read.(startKey := page.last), t, after[|before| + 1..], eachPage)
  {
    assert after[|before|..][0] == page && after[|before|..][1..] == after[|before| + 1..];
    assert before <= after;
  }

  lemma {:induction false} BlocksConcat(law: Law, a: seq<Request>, b: seq<Request>)
    ensures BlocksOf(law, a + b) == BlocksOf(law, a) + BlocksOf(law, b)
  {
    if a == [] {
      assert a + b == b;
    } else {
      assert (a + b)[0] == a[0] && (a + b)[1..] == a[1..] + b;
      BlocksConcat(law, a[1..], b);
    }
  }

  // What was shown since w, in requests and in blocks.
  ghost predicate Shows(law: Law, w: World, blocks: seq<Block>, done: (World, Result<seq<Block>, Failure>),
                        script: seq<Request>) {
    && done.1.Ok?
    && done.0.explained == w.explained + script
    && done.1.value == blocks + BlocksOf(law, script)
  }

  lemma OneShows(law: Law, w: World, r: Request, blocks: seq<Block>)
    ensures var done := ExplainOne(law, w, r, blocks);
            && done.0 == w.(explained := w.explained + [r])
            && (done.1.Ok? ==> Shows(law, w, blocks, done, [r]))
  {
  }

  lemma ShowsThen(law: Law, w: World, blocks: seq<Block>, one: (World, Result<seq<Block>, Failure>), a: seq<Request>,
                  middle: World, two: (World, Result<seq<Block>, Failure>), b: seq<Request>)
    requires Shows(law, w, blocks, one, a) && middle.explained == one.0.explained
             && Shows(law, middle, one.1.value, two, b)
    ensures Shows(law, w, blocks, two, a + b)
  {
    BlocksConcat(law, a, b);
    hide BlocksOf;
    assert w.explained + (a + b) == w.explained + a + b;
    assert blocks + (BlocksOf(law, a) + BlocksOf(law, b)) == blocks + BlocksOf(law, a) + BlocksOf(law, b);
  }

  lemma {:induction false} RowsShow(law: Law, w: World, rows: seq<Item>, t: WriteRequest, blocks: seq<Block>)
    ensures var done := ExplainRows(law, w, rows, t, blocks); done.1.Ok? ==>
            Shows(law, w, blocks, done, WritesOf(t, rows))
    decreases |rows|
  {
    hide ExplainOne, Shows;
    if rows == [] {
      NothingShown(law, w, blocks);
      assert WritesOf(t, rows) == [];
    } else {
      var r := Writing(t.(key := rows[0]));
      var one := ExplainOne(law, w, r, blocks);
      OneShows(law, w, r, blocks);
      if one.1.Ok? {
        RowsShow(law, one.0, rows[1..], t, one.1.value);
        WritesOfTail(t, rows);
        var two := ExplainRows(law, one.0, rows[1..], t, one.1.value);
        if two.1.Ok? {
          ShowsThen(law, w, blocks, one, [r], one.0, two, WritesOf(t, rows[1..]));
        }
      }
    }
  }

  lemma NothingShown(law: Law, w: World, blocks: seq<Block>)
    ensures Shows(law, w, blocks, (w, Ok(blocks)), [])
  {
  }

  // A successful EXPLAIN goes on to the page without a last key, too, and shows what a
  // run with the same pages sends.
  lemma {:induction false} PagesShow(law: Law, w: World, read: ReadRequest, t: WriteRequest, eachPage: bool,
                                     blocks: seq<Block>)
    ensures var done := ExplainPages(law, w, read, t, eachPage, blocks);
            done.1.Ok? ==> && w.pages <= done.0.pages && Complete(done.0.pages[|w.pages|..])
                           && Shows(law, w, blocks, done, Script(read, t, done.0.pages[|w.pages|..], eachPage))
    decreases |w.turns|
  {
    hide ExplainRows, ExplainOne, Shows, Script, ReadPage, Complete;
    var head := if eachPage then [Reading(read)] else [];
    var shown := if eachPage then ExplainOne(law, w, Reading(read), blocks) else (w, Ok(blocks));
    OneShows(law, w, Reading(read), blocks);
    NothingShown(law, w, blocks);
    if shown.1.Ok? {
      assert Shows(law, w, blocks, shown, head);
      var page := ReadPage(law, shown.0, read);
      ReadIssues(law, shown.0, read);
      if page.1.Ok? {
        var rows, last := page.1.value.rows, page.1.value.last;
        RowsShow(law, page.0, rows, t, shown.1.value);
        RowsOnlyExplain(law, page.0, rows, t, shown.1.value);
        var done := ExplainRows(law, page.0, rows, t, shown.1.value);
        if done.1.Ok? {
          ShowsThen(law, w, blocks, shown, head, page.0, done, WritesOf(t, rows));
          if last.Some? && last.value != map[] {
            var next := read.(startKey := last);
            PagesShow(law, done.0, next, t, eachPage, done.1.value);
            var rest := ExplainPages(law, done.0, next, t, eachPage, done.1.value);
            if rest.1.Ok? {
              CompleteFrom(w.pages, page.1.value, rest.0.pages);
              ScriptFirst(read, t, w.pages, page.1.value, rest.0.pages, eachPage);
              ShowsThen(law, w, blocks, done, head + WritesOf(t, rows), done.0, rest,
                        Script(next, t, rest.0.pages[|w.pages| + 1..], eachPage));
            }
          } else {
            CompleteFrom(w.pages, page.1.value, done.0.pages);
            ScriptFirst(read, t, w.pages, page.1.value, done.0.pages, eachPage);
            ScriptEnd(read.(startKey := last), t, done.0.pages[|w.pages| + 1..], eachPage);
            assert head + WritesOf(t, rows) + [] == head + WritesOf(t, rows);
          }
        }
      }
    }
  }

  lemma ScriptEnd(read: ReadRequest, t: WriteRequest, none: seq<Page>, eachPage: bool)
    requires none == []
    ensures Script(read, t, none, eachPage) == []
  {
  }

  // ---- EXPLAIN changes nothing ----------------------------------------------

  predicate IsReading(r: Request) {
    r.Reading?
  }

  lemma ReadChangesNothing(law: Law, w: World, read: ReadRequest)
    ensures var page := ReadPage(law, w, read);
            && page.0.writes == w.writes && (page.1.Ok? ==> |page.0.turns| < |w.turns|)
            && w.issued <= page.0.issued && (forall r | r in page.0.issued[|w.issued|..] :: IsReading(r))
            && ((forall x | x in w.turns :: x.foreign.None?) ==>
                  page.0.store == w.store && forall x | x in page.0.turns :: x.foreign.None?)
  {
    if w.turns != [] {
      assert w.turns[0] in w.turns;
      assert forall x | x in w.turns[1..] :: x in w.turns;
    }
  }

  lemma {:induction false} ExplainOnlyReads(law: Law, w: World, read: ReadRequest, t: WriteRequest, eachPage: bool,
                                            blocks: seq<Block>)
    ensures var done := ExplainPages(law, w, read, t, eachPage, blocks).0;
            && done.writes == w.writes && w.issued <= done.issued
            && (forall r | r in done.issued[|w.issued|..] :: IsReading(r))
            && ((forall x | x in w.turns :: x.foreign.None?) ==> done.store == w.store)
    decreases |w.turns|
  {
    hide ExplainRows, ExplainOne, ReadPage, IsReading;
    var shown := if eachPage then ExplainOne(law, w, Reading(read), blocks) else (w, Ok(blocks));
    OneShows(law, w, Reading(read), blocks);
    if shown.1.Ok? {
      var page := ReadPage(law, shown.0, read);
      ReadChangesNothing(law, shown.0, read);
      if page.1.Ok? {
        var rows, last := page.1.value.rows, page.1.value.last;
        RowsOnlyExplain(law, page.0, rows, t, shown.1.value);
        var done := ExplainRows(law, page.0, rows, t, shown.1.value);
        if done.1.Ok? && last.Some? && last.value != map[] {
          ExplainOnlyReads(law, done.0, read.(startKey := last), t, eachPage, done.1.value);
        }
      }
    }
  }

  // ---- EXPLAIN is faithful --------------------------------------------------

  // EXPLAIN DELETE of a Query shows it and sends nothing.
  lemma QueryDeleteExplained(law: Law, w: World, read: ReadRequest, t: WriteRequest)
    requires read.keyCondition.Some?
    ensures var done := ExplainDelete(law, w, read, t);
            && done.0 == w.(explained := w.explained + [Reading(read)])
            && (done.1.Ok? ==> Shows(law, w, [], done, [Reading(read)]) && done.1.value[0].api == "Query")
  {
    OneShows(law, w, Reading(read), []);
  }

  lemma {:induction false} OnlyWritesConcat(a: seq<Request>, b: seq<Request>)
    ensures OnlyWrites(a + b) == OnlyWrites(a) + OnlyWrites(b)
  {
    if a == [] {
      assert a + b == b;
    } else {
      assert (a + b)[0] == a[0] && (a + b)[1..] == a[1..] + b;
      OnlyWritesConcat(a[1..], b);
    }
  }

  lemma {:induction false} OnlyWritesOfRows(t: WriteRequest, rows: seq<Item>)
    ensures OnlyWrites(WritesOf(t, rows)) == WritesOf(t, rows)
    decreases |rows|
  {
    if rows != [] {
      WritesOfTail(t, rows);
      OnlyWritesOfRows(t, rows[1..]);
    }
  }

  lemma {:induction false} ScriptWithoutReads(read: ReadRequest, t: WriteRequest, pages: seq<Page>)
    ensures Script(read, t, pages, false) == OnlyWrites(Script(read, t, pages, true))
    decreases |pages|
  {
    if pages != [] {
      var next, rows := read.(startKey := pages[0].last), WritesOf(t, pages[0].rows);
      ScriptWithoutReads(next, t, pages[1..]);
      OnlyWritesOfRows(t, pages[0].rows);
      OnlyWritesConcat([Reading(read)] + rows, Script(next, t, pages[1..], true));
      OnlyWritesConcat([Reading(read)], rows);
    }
  }

  // Given the same pages, EXPLAIN UPDATE shows exactly the requests a successful
  // run sends, reads and writes in their order; EXPLAIN DELETE of a Scan shows the
  // first read and then the run's writes. Both show them as the blocks of these
  // requests.
  lemma ExplainIsFaithful(law: Law, live: World, dry: World, read: ReadRequest, t: WriteRequest, wantReturned: bool)
    requires RunPages(law, live, read, t, wantReturned, Acct(0, 0, 0, [])).1.Ok?
    ensures var run := RunPages(law, live, read, t, wantReturned, Acct(0, 0, 0, [])).0;
            var update := ExplainPages(law, dry, read, t, true, []);
            var delete := ExplainDelete(law, dry, read, t);
            && live.pages <= run.pages && live.issued <= run.issued
            && (update.1.Ok? && dry.pages <= update.0.pages
                && update.0.pages[|dry.pages|..] == run.pages[|live.pages|..] ==>
                  Shows(law, dry, [], update, run.issued[|live.issued|..]))
            && (delete.1.Ok? && read.keyCondition.None? && dry.pages <= delete.0.pages
                && delete.0.pages[|dry.pages|..] == run.pages[|live.pages|..] ==>
                  Shows(law, dry, [], delete, [Reading(read)] + OnlyWrites(run.issued[|live.issued|..])))
  {
    hide RunPages, ExplainPages, Script, ExplainOne, Shows;
    RunIssues(law, live, read, t, wantReturned, Acct(0, 0, 0, []));
    var run := RunPages(law, live, read, t, wantReturned, Acct(0, 0, 0, [])).0;
    var pages := run.pages[|live.pages|..];
    assert run.issued[|live.issued|..] == Script(read, t, pages, true);
    ScriptWithoutReads(read, t, pages);
    PagesShow(law, dry, read, t, true, []);
    var shown := ExplainOne(law, dry, Reading(read), []);
    OneShows(law, dry, Reading(read), []);
    if shown.1.Ok? && read.keyCondition.None? {
      PagesShow(law, shown.0, read, t, false, shown.1.value);
      var rest := ExplainPages(law, shown.0, read, t, false, shown.1.value);
      if rest.1.Ok? && rest.0.pages[|dry.pages|..] == pages {
        ShowsThen(law, dry, [], shown, [Reading(read)], shown.0, rest, Script(read, t, pages, false));
      }
    }
  }
}

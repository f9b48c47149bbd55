// Prepared statements: placeholders outside string literals are replaced by the
// literals of the bound values, and everything else stays as it is.

module PreparedStatements {
  import opened Values
  import opened Symbols

  const QUOTE: char := '"'

  // ---- the quote automaton --------------------------------------------------

  // Just after an opening quote: how far the string literal goes. A doubled quote
  // stays inside; without a closing quote it goes to the end.
  function Inside(s: string): (n: nat)
    ensures n <= |s|
  {
    if s == "" then 0
    else if s[0] != QUOTE then 1 + Inside(s[1..])
    else if |s| > 1 && s[1] == QUOTE then 2 + Inside(s[2..])
    else 1
  }

  predicate Closes(s: string) {
    if s == "" then false
    else if s[0] != QUOTE then Closes(s[1..])
    else if |s| > 1 && s[1] == QUOTE then Closes(s[2..])
    else true
  }

  datatype Part = Quoted(text: string) | Bare(c: char)

  // A text as the automaton sees it: its string literals and the characters between.
  function Lex(s: string): seq<Part>
    decreases |s|
  {
    if s == "" then []
    else if s[0] == QUOTE then
      var n := 1 + Inside(s[1..]);
      [Quoted(s[..n])] + Lex(s[n..])
    else [Bare(s[0])] + Lex(s[1..])
  }

  // The automaton is outside every string at the end.
  predicate Closed(s: string)
    decreases |s|
  {
    if s == "" then true
    else if s[0] == QUOTE then Closes(s[1..]) && Closed(s[1 + Inside(s[1..])..])
    else Closed(s[1..])
  }

  predicate Meet(a: string, b: string) {
    a == "" || b == "" || a[|a| - 1] != QUOTE || b[0] != QUOTE
  }

  // A literal that ends is not prolonged by what follows, unless that is a quote.
  lemma {:induction false} InsideConcat(s: string, b: string)
    requires Closes(s) && (Inside(s) == |s| ==> b == "" || b[0] != QUOTE)
    ensures Inside(s + b) == Inside(s) && Closes(s + b)
    decreases |s|
  {
    if s[0] != QUOTE {
      assert (s + b)[1..] == s[1..] + b;
      InsideConcat(s[1..], b);
    } else if |s| > 1 && s[1] == QUOTE {
      assert (s + b)[2..] == s[2..] + b;
      InsideConcat(s[2..], b);
    }
  }

  lemma {:induction false} InsideEnds(s: string)
    requires Closes(s)
    ensures Inside(s) > 0 && s[Inside(s) - 1] == QUOTE
    decreases |s|
  {
    if s[0] != QUOTE {
      InsideEnds(s[1..]);
    } else if |s| > 1 && s[1] == QUOTE {
      InsideEnds(s[2..]);
    }
  }

  lemma LexString(s: string)
    requires s != "" && s[0] == QUOTE
    ensures var n := 1 + Inside(s[1..]);
            Lex(s) == [Quoted(s[..n])] + Lex(s[n..]) && (Closed(s) <==> Closes(s[1..]) && Closed(s[n..]))
  {
  }

  lemma LexBare(s: string)
    requires s != "" && s[0] != QUOTE
    ensures Lex(s) == [Bare(s[0])] + Lex(s[1..]) && (Closed(s) <==> Closed(s[1..]))
  {
  }

  lemma LexNothing()
    ensures Lex("") == [] && Closed("")
  {
  }

  // Texts that do not meet quote to quote are seen one by one.
  lemma {:induction false} LexConcat(a: string, b: string)
    requires Closed(a) && Meet(a, b)
    ensures Lex(a + b) == Lex(a) + Lex(b) && (Closed(a + b) <==> Closed(b))
    decreases |a|
  {
    hide Lex, Closed, Inside, Closes;
    if a == "" {
      LexNothing();
      assert a + b == b;
    } else if a[0] == QUOTE {
      var t, n := a[1..], 1 + Inside(a[1..]);
      assert (a + b)[1..] == t + b;
      LexString(a);
      LexString(a + b);
      InsideEnds(t);
      InsideConcat(t, b);
      assert (a + b)[..n] == a[..n] && (a + b)[n..] == a[n..] + b;
      LexConcat(a[n..], b);
    } else {
      LexBare(a);
      LexBare(a + b);
      assert (a + b)[1..] == a[1..] + b;
      LexConcat(a[1..], b);
    }
  }

  // ---- literals -------------------------------------------------------------

  function Doubled(s: string): string {
    if s == "" then "" else (if s[0] == QUOTE then [QUOTE, QUOTE] else [s[0]]) + Doubled(s[1..])
  }

  function StringLiteral(s: string): string {
    [QUOTE] + Doubled(s) + [QUOTE]
  }

  // None: binary values and sets have no literal.
  function Literal(v: Value): Option<string>
    decreases v, 1
  {
    match v
    case S(s) => Some(StringLiteral(s))
    case N(s) => Some(s)
    case Bool(b) => Some(if b then "true" else "false")
    case Null => Some("null")
    case L(list) => (match ListText(list) case None => None case Some(t) => Some("[" + t + "]"))
    case M(entries) => (match EntriesText(entries) case None => None case Some(t) => Some("{" + t + "}"))
    case _ => None
  }

  function ListText(list: seq<Value>): Option<string>
    decreases list, 0
  {
    if list == [] then Some("")
    else
      var head, rest := Literal(list[0]), ListText(list[1..]);
      if head.None? || rest.None? then None
      else Some(head.value + (if |list| == 1 then "" else ", ") + rest.value)
  }

  function EntriesText(entries: seq<(string, Value)>): Option<string>
    decreases entries, 0
  {
    if entries == [] then Some("")
    else
      var head, rest := EntryText(entries[0]), EntriesText(entries[1..]);
      if head.None? || rest.None? then None
      else Some(head.value + (if |entries| == 1 then "" else ", ") + rest.value)
  }

  function EntryText(entry: (string, Value)): Option<string>
    decreases entry, 2
  {
    match Literal(entry.1)
    case None => None
    case Some(t) => Some(StringLiteral(entry.0) + ":" + t)
  }

  // Numbers are bound as exact lexemes; these have no quote.
  predicate PlainNumbers(v: Value) {
    match v
    case N(s) => QUOTE !in s
    case L(list) => forall x | x in list :: PlainNumbers(x)
    case M(entries) => forall x | x in entries :: PlainEntry(x)
    case _ => true
  }

  predicate PlainEntry(entry: (string, Value)) {
    PlainNumbers(entry.1)
  }

  lemma {:induction false} DoubledCloses(s: string)
    ensures Closes(Doubled(s) + [QUOTE]) && Inside(Doubled(s) + [QUOTE]) == |Doubled(s)| + 1
  {
    var t := Doubled(s) + [QUOTE];
    if s != "" {
      DoubledCloses(s[1..]);
      var rest := Doubled(s[1..]) + [QUOTE];
      if s[0] == QUOTE {
        assert t == [QUOTE, QUOTE] + rest && t[2..] == rest;
      } else {
        assert t == [s[0]] + rest && t[1..] == rest;
      }
    }
  }

  lemma StringLiteralLex(s: string)
    ensures Closed(StringLiteral(s)) && Lex(StringLiteral(s)) == [Quoted(StringLiteral(s))]
  {
    var t := StringLiteral(s);
    assert t[1..] == Doubled(s) + [QUOTE];
    DoubledCloses(s);
    assert t[|t|..] == "" && t[..|t|] == t;
  }

  lemma {:induction false} NoQuotes(s: string)
    requires QUOTE !in s
    ensures Closed(s)
  {
    if s != "" {
      NoQuotes(s[1..]);
    }
  }

  lemma ClosedConcat(a: string, b: string)
    requires Closed(a) && Closed(b) && Meet(a, b)
    ensures Closed(a + b)
  {
    LexConcat(a, b);
  }

  // A bound value leaves the automaton outside every string.
  lemma {:induction false} LiteralClosed(v: Value)
    requires PlainNumbers(v) && Literal(v).Some?
    ensures Closed(Literal(v).value)
    decreases v, 1
  {
    match v {
      case S(s) => StringLiteralLex(s);
      case N(s) => NoQuotes(s);
      case Bool(b) => NoQuotes(Literal(v).value);
      case Null => NoQuotes("null");
      case L(list) =>
        ListClosed(list);
        Bracketed("[", ListText(list).value, "]");
      case M(entries) =>
        EntriesClosed(entries);
        Bracketed("{", EntriesText(entries).value, "}");
      case _ =>
    }
  }

  lemma Bracketed(open: string, t: string, close: string)
    requires Closed(t) && QUOTE !in open && QUOTE !in close && open != "" && close != ""
    ensures Closed(open + t + close)
  {
    NoQuotes(open);
    NoQuotes(close);
    assert open[|open| - 1] in open && close[0] in close;
    ClosedConcat(open, t);
    ClosedConcat(open + t, close);
  }

  lemma {:induction false} ListClosed(list: seq<Value>)
    requires (forall x | x in list :: PlainNumbers(x)) && ListText(list).Some?
    ensures Closed(ListText(list).value)
    decreases list, 0
  {
    hide Literal, PlainNumbers, Closed;
    if list == [] {
      NoQuotes("");
    } else {
      LiteralClosed(list[0]);
      ListClosed(list[1..]);
      var head, rest := Literal(list[0]).value, ListText(list[1..]).value;
      if |list| == 1 {
        assert list[1..] == [] && head + "" + "" == head;
      } else {
        Bracketed2(head, ", ", rest);
      }
    }
  }

  lemma Bracketed2(a: string, sep: string, b: string)
    requires Closed(a) && Closed(b) && QUOTE !in sep && sep != ""
    ensures Closed(a + sep + b)
  {
    NoQuotes(sep);
    assert sep[0] in sep && sep[|sep| - 1] in sep;
    ClosedConcat(a, sep);
    ClosedConcat(a + sep, b);
  }

  lemma {:induction false} EntriesClosed(entries: seq<(string, Value)>)
    requires (forall x | x in entries :: PlainEntry(x)) && EntriesText(entries).Some?
    ensures Closed(EntriesText(entries).value)
    decreases entries, 0
  {
    hide PlainEntry, Closed, EntryText;
    if entries == [] {
      NoQuotes("");
    } else {
      EntryClosed(entries[0]);
      EntriesClosed(entries[1..]);
      var head, rest := EntryText(entries[0]).value, EntriesText(entries[1..]).value;
      if |entries| == 1 {
        assert entries[1..] == [] && head + "" + "" == head;
      } else {
        Bracketed2(head, ", ", rest);
      }
    }
  }

  lemma EntryClosed(entry: (string, Value))
    requires PlainEntry(entry) && EntryText(entry).Some?
    ensures Closed(EntryText(entry).value)
    decreases entry, 2
  {
    LiteralClosed(entry.1);
    StringLiteralLex(entry.0);
    hide Closed, StringLiteral, Literal;
    Bracketed2(StringLiteral(entry.0), ":", Literal(entry.1).value);
  }

  // ---- the pieces of a statement --------------------------------------------

  // A string literal, a character outside one, and the two kinds of placeholder.
  datatype Piece = Quote(text: string) | Plain(c: char) | Positional | Named(name: string)

  predicate NameChar(c: char) {
    'a' <= c <= 'z' || 'A' <= c <= 'Z' || '0' <= c <= '9' || c == '_'
  }

  function NameLength(s: string): (n: nat)
    ensures n <= |s|
  {
    if s == "" || !NameChar(s[0]) then 0 else 1 + NameLength(s[1..])
  }

  // A colon and a name, when the name is bound; any other colon is a character.
  predicate StartsNamed(s: string, bound: seq<string>) {
    |s| > 1 && s[0] == ':' && NameChar(s[1]) && !('0' <= s[1] <= '9') && s[1..][..NameLength(s[1..])] in bound
  }

  function SourceOf(p: Piece): string {
    match p
    case Quote(text) => text
    case Plain(c) => [c]
    case Positional => "?"
    case Named(name) => ":" + name
  }

  function FirstPiece(s: string, bound: seq<string>): (p: Piece)
    requires s != ""
    ensures 0 < |SourceOf(p)| <= |s| && SourceOf(p) == s[..|SourceOf(p)|]
  {
    if s[0] == QUOTE then Quote(s[..1 + Inside(s[1..])])
    else if s[0] == '?' then Positional
    else if StartsNamed(s, bound) then
      var n := NameLength(s[1..]);
      assert s[..n + 1] == [s[0]] + s[1..][..n];
      Named(s[1..][..n])
    else Plain(s[0])
  }

  function Pieces(s: string, bound: seq<string>): seq<Piece>
    decreases |s|
  {
    if s == "" then []
    else
      var p := FirstPiece(s, bound);
      [p] + Pieces(s[|SourceOf(p)|..], bound)
  }

  function Source(pieces: seq<Piece>): string {
    if pieces == [] then "" else SourceOf(pieces[0]) + Source(pieces[1..])
  }

  // The pieces are the statement, cut up.
  lemma {:induction false} PiecesAreSource(s: string, bound: seq<string>)
    ensures Source(Pieces(s, bound)) == s
    decreases |s|
  {
    hide FirstPiece, SourceOf;
    if s != "" {
      var p := FirstPiece(s, bound);
      var n := |SourceOf(p)|;
      PiecesAreSource(s[n..], bound);
      var rest := Pieces(s[n..], bound);
      assert Pieces(s, bound) == [p] + rest && ([p] + rest)[0] == p && ([p] + rest)[1..] == rest;
      assert s == s[..n] + s[n..];
    }
  }

  // ---- the expansion --------------------------------------------------------

  datatype Problem = BadIndex | NoValue(index: nat) | NoLiteral | Extra(index: nat) | Unused(name: string)

  function NamesIn(named: seq<(string, Value)>): seq<string> {
    seq(|named|, i requires 0 <= i < |named| => named[i].0)
  }

  datatype Filling = Filled(text: string, next: nat, used: set<string>) | Failed(problem: Problem)

  // What comes before a filling.
  function Prepend(text: string, used: set<string>, f: Filling): Filling {
    if f.Failed? then f else Filled(text + f.text, f.next, used + f.used)
  }

  function Fill(pieces: seq<Piece>, positional: seq<Value>, named: seq<(string, Value)>, next: nat): Filling {
    if pieces == [] then Filled("", next, {})
    else
      match pieces[0]
      case Positional =>
        if next >= |positional| then Failed(NoValue(next + 1))
        else if Literal(positional[next]).None? then Failed(NoLiteral)
        else Prepend(Literal(positional[next]).value, {}, Fill(pieces[1..], positional, named, next + 1))
      case Named(name) =>
        var k := IndexOf(NamesIn(named), name);
        if k == |named| then Prepend(":" + name, {}, Fill(pieces[1..], positional, named, next))
        else if Literal(named[k].1).None? then Failed(NoLiteral)
        else Prepend(Literal(named[k].1).value, {name}, Fill(pieces[1..], positional, named, next))
      case _ => Prepend(SourceOf(pieces[0]), {}, Fill(pieces[1..], positional, named, next))
  }

  // The first binding without a placeholder.
  function FirstUnused(named: seq<(string, Value)>, used: set<string>): Option<string> {
    if named == [] then None
    else if named[0].0 !in used then Some(named[0].0)
    else FirstUnused(named[1..], used)
  }

  function Expansion(sql: string, positional: seq<Value>, named: seq<(string, Value)>,
                     badIndex: bool): Result<string, Problem> {
    if badIndex then Err(BadIndex)
    else
      match Fill(Pieces(sql, NamesIn(named)), positional, named, 0)
      case Failed(problem) => Err(problem)
      case Filled(text, next, used) =>
        if next < |positional| then Err(Extra(next + 1))
        else if FirstUnused(named, used).Some? then Err(Unused(FirstUnused(named, used).value))
        else Ok(text)
  }

  lemma PrependTwice(a: string, x: set<string>, b: string, y: set<string>, f: Filling)
    ensures Prepend(a, x, Prepend(b, y, f)) == Prepend(a + b, x + y, f)
  {
    if f.Filled? {
      assert a + (b + f.text) == (a + b) + f.text && x + (y + f.used) == (x + y) + f.used;
    }
  }

  lemma PrependText(a: string, x: set<string>, b: string, f: Filling)
    ensures Prepend(a, x, Prepend(b, {}, f)) == Prepend(a + b, x, f)
  {
    PrependTwice(a, x, b, {}, f);
    assert x + {} == x;
  }

  // The rest of the work, from inside a string literal or outside.
  function Rest(s: string, inString: bool, positional: seq<Value>, named: seq<(string, Value)>, next: nat): Filling {
    if inString then Prepend(s[..Inside(s)], {}, Fill(Pieces(s[Inside(s)..], NamesIn(named)), positional, named, next))
    else Fill(Pieces(s, NamesIn(named)), positional, named, next)
  }

  lemma RestInString(s: string, positional: seq<Value>, named: seq<(string, Value)>, next: nat)
    ensures s == "" ==> Rest(s, true, positional, named, next) == Rest(s, false, positional, named, next)
    ensures s != "" && s[0] != QUOTE ==>
              Rest(s, true, positional, named, next) == Prepend([s[0]], {}, Rest(s[1..], true, positional, named, next))
    ensures |s| > 1 && s[0] == QUOTE && s[1] == QUOTE ==>
              Rest(s, true, positional, named, next) ==
              Prepend([QUOTE, QUOTE], {}, Rest(s[2..], true, positional, named, next))
    ensures s != "" && s[0] == QUOTE && !(|s| > 1 && s[1] == QUOTE) ==>
              Rest(s, true, positional, named, next) ==
              Prepend([QUOTE], {}, Rest(s[1..], false, positional, named, next))
  {
    hide Fill, Pieces;
    var n := Inside(s);
    var f := Fill(Pieces(s[n..], NamesIn(named)), positional, named, next);
    if s == "" {
      PrependNothing(f);
    } else if s[0] != QUOTE {
      var m := Inside(s[1..]);
      assert s[n..] == s[1..][m..] && s[..n] == [s[0]] + s[1..][..m];
      PrependText([s[0]], {}, s[1..][..m], f);
    } else if |s| > 1 && s[1] == QUOTE {
      var m := Inside(s[2..]);
      assert s[n..] == s[2..][m..] && s[..n] == [QUOTE, QUOTE] + s[2..][..m];
      PrependText([QUOTE, QUOTE], {}, s[2..][..m], f);
    } else {
      assert s[..1] == [QUOTE];
    }
  }

  lemma PrependNothing(f: Filling)
    ensures Prepend("", {}, f) == f
  {
    if f.Filled? {
      assert "" + f.text == f.text && {} + f.used == f.used;
    }
  }

  lemma PiecesFirst(s: string, bound: seq<string>)
    requires s != ""
    ensures var p := FirstPiece(s, bound);
            Pieces(s, bound) == [p] + Pieces(s[|SourceOf(p)|..], bound)
  {
  }

  // One piece further.
  lemma FillFirst(p: Piece, rest: seq<Piece>, positional: seq<Value>, named: seq<(string, Value)>, next: nat)
    requires next <= |positional|
    ensures var all := Fill([p] + rest, positional, named, next);
            if p.Positional? then
              if next == |positional| then all == Failed(NoValue(next + 1))
              else if Literal(positional[next]).None? then all == Failed(NoLiteral)
              else all == Prepend(Literal(positional[next]).value, {}, Fill(rest, positional, named, next + 1))
            else if p.Named? && p.name in NamesIn(named) then
              var v := named[IndexOf(NamesIn(named), p.name)].1;
              if Literal(v).None? then all == Failed(NoLiteral)
              else all == Prepend(Literal(v).value, {p.name}, Fill(rest, positional, named, next))
            else all == Prepend(SourceOf(p), {}, Fill(rest, positional, named, next))
  {
    hide Literal;
    assert ([p] + rest)[0] == p && ([p] + rest)[1..] == rest;
  }

  lemma RestOutside(s: string, positional: seq<Value>, named: seq<(string, Value)>, next: nat)
    requires s != "" && next <= |positional|
    ensures var p := FirstPiece(s, NamesIn(named));
            var rest := Rest(s, false, positional, named, next);
            if p.Positional? then
              if next == |positional| then rest == Failed(NoValue(next + 1))
              else if Literal(positional[next]).None? then rest == Failed(NoLiteral)
              else rest == Prepend(Literal(positional[next]).value, {},
                                   Rest(s[1..], false, positional, named, next + 1))
            else if p.Named? then
              p.name in NamesIn(named) &&
              var v := named[IndexOf(NamesIn(named), p.name)].1;
              if Literal(v).None? then rest == Failed(NoLiteral)
              else rest == Prepend(Literal(v).value, {p.name}, Rest(s[1 + |p.name|..], false, positional, named, next))
            else rest == Prepend([s[0]], {}, Rest(s[1..], p.Quote?, positional, named, next))
  {
    hide Literal, NameLength, Fill, Pieces, Inside, Prepend;
    var p := FirstPiece(s, NamesIn(named));
    var rest := s[|SourceOf(p)|..];
    PiecesFirst(s, NamesIn(named));
    FillFirst(p, Pieces(rest, NamesIn(named)), positional, named, next);
    if p.Quote? {
      var m := Inside(s[1..]);
      assert s[1..][m..] == rest && p.text == [QUOTE] + s[1..][..m];
      PrependText([QUOTE], {}, s[1..][..m], Fill(Pieces(rest, NamesIn(named)), positional, named, next));
      assert [QUOTE] == [s[0]];
    } else if p.Plain? {
      assert SourceOf(p) == [s[0]];
    }
  }

  lemma {:induction false} FirstUnusedAt(named: seq<(string, Value)>, used: set<string>, k: nat)
    requires k <= |named| && (forall j | 0 <= j < k :: named[j].0 in used) && (k < |named| ==> named[k].0 !in used)
    ensures FirstUnused(named, used) == if k < |named| then Some(named[k].0) else None
  {
    if k > 0 {
      FirstUnusedAt(named[1..], used, k - 1);
    }
  }

  // ---- the statement --------------------------------------------------------

  class PreparedStatement {
    const sql: string
    var positional: seq<Value>
    var named: seq<(string, Value)>
    var badIndex: bool

    ghost predicate Valid()
      reads this
    {
      forall i, j | 0 <= i < j < |named| :: named[i].0 != named[j].0
    }

    constructor (sql: string)
      ensures Valid() && this.sql == sql && positional == [] && named == [] && !badIndex
    {
      this.sql, positional, named, badIndex := sql, [], [], false;
    }

    // Positions count from 1; those skipped are null.
    method Bind(index1: int, v: Value)
      requires Valid()
      modifies this
      ensures Valid() && named == old(named) && (badIndex <==> old(badIndex) || index1 < 1)
      ensures index1 < 1 ==> positional == old(positional)
      ensures index1 >= 1 ==> |positional| == (if index1 > |old(positional)| then index1 else |old(positional)|)
      ensures index1 >= 1 ==>
                forall i | 0 <= i < |positional| ::
                  positional[i] == if i == index1 - 1 then v
                                   else if i < |old(positional)| then old(positional)[i]
                                   else Null
    {
      if index1 < 1 {
        badIndex := true;
        return;
      }
      var idx := index1 - 1;
      if idx >= |positional| {
        positional := positional + seq(idx + 1 - |positional|, i => Null);
      }
      positional := positional[idx := v];
    }

    method BindNamed(name: string, v: Value)
      requires Valid()
      modifies this
      ensures Valid() && positional == old(positional) && badIndex == old(badIndex)
      ensures NamesIn(named) == if name in old(NamesIn(named)) then old(NamesIn(named))
              else old(NamesIn(named)) + [name]
      ensures forall i | 0 <= i < |named| :: named[i].1 == if named[i].0 == name then v else old(named)[i].1
    {
      for i := 0 to |named|
        invariant named == old(named) && forall j | 0 <= j < i :: named[j].0 != name
      {
        if named[i].0 == name {
          assert NamesIn(named)[i] == name;
          named := named[i := (name, v)];
          return;
        }
      }
      assert forall j | 0 <= j < |named| :: NamesIn(named)[j] != name;
      named := named + [(name, v)];
    }

    method NameEnd(start: nat) returns (j: nat)
      requires start <= |sql|
      ensures j == start + NameLength(sql[start..])
    {
      j := start;
      while j < |sql| && NameChar(sql[j])
        invariant start <= j <= |sql|
        invariant j + NameLength(sql[j..]) == start + NameLength(sql[start..])
      {
        assert sql[j..][1..] == sql[j + 1..];
        j := j + 1;
      }
    }

    method FindNamed(name: string) returns (k: nat)
      ensures k == IndexOf(NamesIn(named), name)
    {
      k := 0;
      var names := NamesIn(named);
      while k < |named| && named[k].0 != name
        invariant k <= |named| && IndexOf(names, name) == k + IndexOf(names[k..], name)
      {
        assert names[k..][0] != name && names[k..][1..] == names[k + 1..];
        k := k + 1;
      }
    }

    // One pass over the characters: the text, the positions taken and the names used.
    method Substitute() returns (text: string, next: nat, namedUsed: seq<bool>, problem: Option<Problem>)
      requires Valid()
      ensures match Fill(Pieces(sql, NamesIn(named)), positional, named, 0)
              case Failed(p) => problem == Some(p)
              case Filled(t, n, used) =>
                && problem.None? && text == t && next == n <= |positional| && |namedUsed| == |named|
                && forall k | 0 <= k < |named| :: namedUsed[k] <==> named[k].0 in used
    {
      hide Fill, Pieces, Literal, Prepend, Inside, Rest, NameLength, StartsNamed, NameChar, IndexOf, FirstPiece;
      ghost var all := Fill(Pieces(sql, NamesIn(named)), positional, named, 0);
      var inString, i := false, 0;
      text, next, namedUsed, problem := "", 0, seq(|named|, k => false), None;
      ghost var used: set<string> := {};
      RestWhole(sql, positional, named);
      while i < |sql|
        invariant i <= |sql| && next <= |positional| && |namedUsed| == |named| && problem.None?
        invariant all == Prepend(text, used, Rest(sql[i..], inString, positional, named, next))
        invariant forall k | 0 <= k < |named| :: namedUsed[k] <==> named[k].0 in used
      {
        ghost var s := sql[i..];
        Onward(sql, i);
        if inString {
          RestInString(s, positional, named, next);
          if sql[i] == QUOTE && i + 1 < |sql| && sql[i + 1] == QUOTE {
            PrependText(text, used, [QUOTE, QUOTE], Rest(s[2..], true, positional, named, next));
            text, i := text + [QUOTE, QUOTE], i + 2;
          } else {
            inString := sql[i] != QUOTE;
            PrependText(text, used, [sql[i]], Rest(s[1..], inString, positional, named, next));
            text, i := text + [sql[i]], i + 1;
          }
          continue;
        }
        RestOutside(s, positional, named, next);
        FirstPieceIs(s, NamesIn(named));
        if sql[i] == '?' {
          if next >= |positional| {
            problem := Some(NoValue(next + 1));
            PrependFailed(text, used, Rest(s, false, positional, named, next));
            return;
          }
          var literal := Literal(positional[next]);
          if literal.None? {
            problem := Some(NoLiteral);
            PrependFailed(text, used, Rest(s, false, positional, named, next));
            return;
          }
          PrependText(text, used, literal.value, Rest(s[1..], false, positional, named, next + 1));
          text, next, i := text + literal.value, next + 1, i + 1;
          continue;
        }
        var end := PlaceholderEnd(i);
        StartsNamedAt(s, sql, i, NamesIn(named));
        if end > i {
          var name := sql[i + 1..end];
          var k := FindNamed(name);
          if k < |named| {
            assert FirstPiece(s, NamesIn(named)) == Named(name);
            var literal := Literal(named[k].1);
            if literal.None? {
              problem := Some(NoLiteral);
              PrependFailed(text, used, Rest(s, false, positional, named, next));
              return;
            }
            PrependTwice(text, used, literal.value, {name}, Rest(s[1 + |name|..], false, positional, named, next));
            OnwardTo(sql, i, end);
            text, namedUsed, i := text + literal.value, namedUsed[k := true], end;
            used := used + {name};
            continue;
          }
        }
        inString := sql[i] == QUOTE;
        PrependText(text, used, [sql[i]], Rest(s[1..], inString, positional, named, next));
        text, i := text + [sql[i]], i + 1;
      }
      RestDone(sql[i..], inString, positional, named, next, text, used);
    }

    // The end of the placeholder that may start at i, or i.
    method PlaceholderEnd(i: nat) returns (end: nat)
      requires i < |sql|
      ensures end == if sql[i] == ':' && i + 1 < |sql| && NameChar(sql[i + 1]) && !('0' <= sql[i + 1] <= '9')
                     then i + 1 + NameLength(sql[i + 1..]) else i
      ensures end <= |sql|
    {
      end := i;
      if sql[i] == ':' && i + 1 < |sql| && NameChar(sql[i + 1]) && !('0' <= sql[i + 1] <= '9') {
        end := NameEnd(i + 1);
      }
    }

    method Expand() returns (result: Result<string, Problem>)
      requires Valid()
      ensures result == Expansion(sql, positional, named, badIndex)
    {
      if badIndex {
        return Err(BadIndex);
      }
      hide Fill, Pieces;
      var text, next, namedUsed, problem := Substitute();
      if problem.Some? {
        return Err(problem.value);
      }
      if next < |positional| {
        return Err(Extra(next + 1));
      }
      ghost var used := Fill(Pieces(sql, NamesIn(named)), positional, named, 0).used;
      for k := 0 to |named|
        invariant forall j | 0 <= j < k :: named[j].0 in used
      {
        if !namedUsed[k] {
          FirstUnusedAt(named, used, k);
          return Err(Unused(named[k].0));
        }
      }
      FirstUnusedAt(named, used, |named|);
      result := Ok(text);
    }
  }

  lemma FirstPieceIs(s: string, bound: seq<string>)
    requires s != ""
    ensures var p := FirstPiece(s, bound);
            && (p.Quote? <==> s[0] == QUOTE) && (p.Positional? <==> s[0] == '?')
            && (p.Named? <==> StartsNamed(s, bound)) && (p.Named? ==> p.name == s[1..][..NameLength(s[1..])])
  {
  }

  lemma PrependFailed(text: string, used: set<string>, f: Filling)
    requires f.Failed?
    ensures Prepend(text, used, f) == f
  {
  }

  lemma RestWhole(s: string, positional: seq<Value>, named: seq<(string, Value)>)
    ensures Fill(Pieces(s, NamesIn(named)), positional, named, 0) ==
            Prepend("", {}, Rest(s[0..], false, positional, named, 0))
  {
    assert s[0..] == s;
    PrependNothing(Rest(s, false, positional, named, 0));
  }

  lemma RestDone(s: string, inString: bool, positional: seq<Value>, named: seq<(string, Value)>, next: nat,
                 text: string, used: set<string>)
    requires s == ""
    ensures Prepend(text, used, Rest(s, inString, positional, named, next)) == Filled(text, next, used)
  {
    RestInString(s, positional, named, next);
    assert text + "" == text && used + {} == used;
  }

  lemma StartsNamedAt(s: string, sql: string, i: nat, bound: seq<string>)
    requires i < |sql| && s == sql[i..]
    ensures StartsNamed(s, bound) <==>
            && sql[i] == ':' && i + 1 < |sql| && NameChar(sql[i + 1]) && !('0' <= sql[i + 1] <= '9')
            && sql[i + 1..i + 1 + NameLength(sql[i + 1..])] in bound
    ensures StartsNamed(s, bound) ==>
              s[1..][..NameLength(s[1..])] == sql[i + 1..i + 1 + NameLength(sql[i + 1..])]
  {
    if i + 1 < |sql| {
      assert s[1..] == sql[i + 1..];
      var n := NameLength(sql[i + 1..]);
      assert s[1..][..n] == sql[i + 1..i + 1 + n];
    }
  }

  // ---- what the expansion is ------------------------------------------------

  function Positions(pieces: seq<Piece>): nat {
    if pieces == [] then 0 else (if pieces[0].Positional? then 1 else 0) + Positions(pieces[1..])
  }

  function Bound(named: seq<(string, Value)>, name: string): Option<Value> {
    var k := IndexOf(NamesIn(named), name);
    if k < |named| then Some(named[k].1) else None
  }

  // What stands for each piece: the literal of the next value, the literal of the
  // named value, or the piece itself.
  function Texts(pieces: seq<Piece>, positional: seq<Value>, named: seq<(string, Value)>, next: nat): seq<string> {
    if pieces == [] then []
    else if pieces[0].Positional? then
      [if next < |positional| then Literal(positional[next]).GetOr("") else ""]
      + Texts(pieces[1..], positional, named, next + 1)
    else if pieces[0].Named? && Bound(named, pieces[0].name).Some? then
      [Literal(Bound(named, pieces[0].name).value).GetOr("")] + Texts(pieces[1..], positional, named, next)
    else [SourceOf(pieces[0])] + Texts(pieces[1..], positional, named, next)
  }

  function Joined(texts: seq<string>): string {
    if texts == [] then "" else texts[0] + Joined(texts[1..])
  }

  // String literals and text that is no placeholder stay as they are.
  lemma {:induction false} OthersUnchanged(pieces: seq<Piece>, positional: seq<Value>, named: seq<(string, Value)>,
                                           next: nat)
    ensures |Texts(pieces, positional, named, next)| == |pieces|
    ensures forall i | 0 <= i < |pieces| && (pieces[i].Quote? || pieces[i].Plain?) ::
              Texts(pieces, positional, named, next)[i] == SourceOf(pieces[i])
  {
    hide Literal, Bound, SourceOf;
    if pieces != [] {
      OthersUnchanged(pieces[1..], positional, named, next);
      OthersUnchanged(pieces[1..], positional, named, next + 1);
    }
  }

  // Every placeholder has a value with a literal.
  predicate Placeable(pieces: seq<Piece>, positional: seq<Value>, named: seq<(string, Value)>, next: nat) {
    && next + Positions(pieces) <= |positional|
    && (forall j | next <= j < next + Positions(pieces) :: Literal(positional[j]).Some?)
    && (forall p | p in pieces && p.Named? && Bound(named, p.name).Some? :: Literal(Bound(named, p.name).value).Some?)
  }

  function NamesUsed(pieces: seq<Piece>, named: seq<(string, Value)>): set<string> {
    set p | p in pieces && p.Named? && Bound(named, p.name).Some? :: p.name
  }

  lemma PlaceableFirst(pieces: seq<Piece>, positional: seq<Value>, named: seq<(string, Value)>, next: nat)
    requires pieces != [] && next <= |positional|
    ensures var p, rest := pieces[0], pieces[1..];
            Placeable(pieces, positional, named, next) <==>
              if p.Positional? then
                next < |positional| && Literal(positional[next]).Some? && Placeable(rest, positional, named, next + 1)
              else
                (p.Named? && Bound(named, p.name).Some? ==> Literal(Bound(named, p.name).value).Some?)
                && Placeable(rest, positional, named, next)
  {
    hide Literal, Bound;
    assert forall x :: x in pieces <==> x == pieces[0] || x in pieces[1..];
  }

  lemma NamesUsedFirst(pieces: seq<Piece>, named: seq<(string, Value)>)
    requires pieces != []
    ensures var p := pieces[0];
            NamesUsed(pieces, named) ==
              (if p.Named? && Bound(named, p.name).Some? then {p.name} else {}) + NamesUsed(pieces[1..], named)
  {
    hide Bound;
    assert forall x :: x in pieces <==> x == pieces[0] || x in pieces[1..];
  }

  lemma {:induction false} FillIs(pieces: seq<Piece>, positional: seq<Value>, named: seq<(string, Value)>, next: nat)
    requires next <= |positional|
    ensures var f := Fill(pieces, positional, named, next);
            && (f.Filled? <==> Placeable(pieces, positional, named, next))
            && (f.Filled? ==> && f.text == Joined(Texts(pieces, positional, named, next))
                              && f.next == next + Positions(pieces) && f.used == NamesUsed(pieces, named))
  {
    if pieces != [] {
      var p, rest := pieces[0], pieces[1..];
      var after := if p.Positional? then next + 1 else next;
      assert pieces == [p] + rest;
      PlaceableFirst(pieces, positional, named, next);
      NamesUsedFirst(pieces, named);
      FillFirst(p, rest, positional, named, next);
      hide Literal, SourceOf, Placeable, NamesUsed, Fill, IndexOf;
      if after <= |positional| {
        FillIs(rest, positional, named, after);
        var texts := Texts(pieces, positional, named, next);
        assert texts[1..] == Texts(rest, positional, named, after) && Joined(texts) == texts[0] + Joined(texts[1..]);
      }
    }
  }

  lemma {:induction false} FirstUnusedExists(named: seq<(string, Value)>, used: set<string>)
    ensures FirstUnused(named, used).Some? <==> exists b :: b in named && b.0 !in used
  {
    if named != [] {
      FirstUnusedExists(named[1..], used);
      assert forall x :: x in named <==> x == named[0] || x in named[1..];
    }
  }

  // A value without a literal was bound.
  predicate Unliteral(positional: seq<Value>, named: seq<(string, Value)>) {
    (exists v :: v in positional && Literal(v).None?) || (exists b :: b in named && Literal(b.1).None?)
  }

  lemma {:induction false} FillFails(pieces: seq<Piece>, positional: seq<Value>, named: seq<(string, Value)>, next: nat)
    requires next <= |positional|
    ensures var f := Fill(pieces, positional, named, next);
            f.Failed? ==>
              match f.problem
              case NoValue(k) => k == |positional| + 1 && next + Positions(pieces) > |positional|
              case NoLiteral => Unliteral(positional, named)
              case _ => false
  {
    hide Literal;
    if pieces != [] {
      var p, rest := pieces[0], pieces[1..];
      if p.Positional? {
        if next < |positional| {
          assert positional[next] in positional;
          FillFails(rest, positional, named, next + 1);
        }
      } else {
        if p.Named? {
          var k := IndexOf(NamesIn(named), p.name);
          assert k < |named| ==> named[k] in named;
        }
        FillFails(rest, positional, named, next);
      }
    }
  }

  lemma {:induction false} FirstUnusedIs(named: seq<(string, Value)>, used: set<string>) returns (k: nat)
    requires FirstUnused(named, used).Some?
    ensures k < |named| && FirstUnused(named, used) == Some(named[k].0) && named[k].0 !in used
    ensures forall j | 0 <= j < k :: named[j].0 in used
  {
    if named[0].0 !in used {
      k := 0;
    } else {
      var l := FirstUnusedIs(named[1..], used);
      assert forall j | 0 < j < |named| :: named[j] == named[1..][j - 1];
      k := l + 1;
    }
  }

  // Each error names what it is about: the first placeholder without a value, the first
  // value without a placeholder, by position or by name.
  lemma ExpansionFails(sql: string, positional: seq<Value>, named: seq<(string, Value)>, badIndex: bool)
    ensures var pieces := Pieces(sql, NamesIn(named));
            match Expansion(sql, positional, named, badIndex)
            case Ok(_) => true
            case Err(BadIndex) => badIndex
            case Err(NoLiteral) => Unliteral(positional, named)
            case Err(NoValue(k)) => k == |positional| + 1 && Positions(pieces) > |positional|
            case Err(Extra(k)) => k == Positions(pieces) + 1 && Positions(pieces) < |positional|
            case Err(Unused(name)) =>
              exists k | 0 <= k < |named| ::
                && named[k].0 == name && Named(name) !in pieces
                && forall j | 0 <= j < k :: Named(named[j].0) in pieces
  {
    hide Literal, Pieces, Fill, Positions, Unliteral, FirstUnused;
    var pieces := Pieces(sql, NamesIn(named));
    FillFails(pieces, positional, named, 0);
    FillIs(pieces, positional, named, 0);
    var used := NamesUsed(pieces, named);
    if FirstUnused(named, used).Some? {
      var k := FirstUnusedIs(named, used);
      assert NamesIn(named)[k] == named[k].0;
      assert Bound(named, named[k].0).Some?;
    }
  }

  // Expansion succeeds exactly when every position was bound with a valid index,
  // the placeholders outside strings are as many as the positional values, every
  // named value has a placeholder, and every value has a literal form.
  lemma ExpandsExactly(sql: string, positional: seq<Value>, named: seq<(string, Value)>, badIndex: bool)
    requires forall i, j | 0 <= i < j < |named| :: named[i].0 != named[j].0
    ensures var pieces := Pieces(sql, NamesIn(named));
            var result := Expansion(sql, positional, named, badIndex);
            && (result.Ok? <==>
                  && !badIndex
                  && Positions(pieces) == |positional|
                  && (forall v | v in positional :: Literal(v).Some?)
                  && (forall b | b in named :: Named(b.0) in pieces && Literal(b.1).Some?))
            && (result.Ok? ==> result.value == Joined(Texts(pieces, positional, named, 0)))
  {
    hide Literal, Pieces, Fill, Texts, Joined, Positions;
    var pieces := Pieces(sql, NamesIn(named));
    FillIs(pieces, positional, named, 0);
    FirstUnusedExists(named, NamesUsed(pieces, named));
    forall b | b in named ensures Bound(named, b.0) == Some(b.1) {
      var k :| 0 <= k < |named| && named[k] == b;
      assert NamesIn(named)[k] == b.0;
    }
    forall b | b in named ensures b.0 in NamesUsed(pieces, named) <==> Named(b.0) in pieces {
    }
    forall p | p in pieces && p.Named? && Bound(named, p.name).Some?
      ensures exists b :: b in named && b.0 == p.name && Some(b.1) == Bound(named, p.name)
    {
      var k := IndexOf(NamesIn(named), p.name);
      assert named[k] in named && NamesIn(named)[k] == named[k].0;
    }
    assert (forall v | v in positional :: Literal(v).Some?) <==>
           forall j | 0 <= j < |positional| :: Literal(positional[j]).Some?;
  }

  // ---- scanning the expansion again -----------------------------------------

  lemma {:induction false} InsideStops(s: string)
    ensures Inside(s) < |s| ==> Closes(s) && s[Inside(s)] != QUOTE
    ensures Inside(s[..Inside(s)]) == Inside(s) && (Closes(s[..Inside(s)]) <==> Closes(s))
    decreases |s|
  {
    if s != "" {
      var n := Inside(s);
      if s[0] != QUOTE {
        InsideStops(s[1..]);
        assert s[..n][1..] == s[1..][..n - 1];
      } else if |s| > 1 && s[1] == QUOTE {
        InsideStops(s[2..]);
        assert s[..n][2..] == s[2..][..n - 2];
      } else {
        assert s[..1] == [QUOTE];
      }
    }
  }

  // A string literal, and one that ends.
  predicate Opened(text: string) {
    text != "" && text[0] == QUOTE
  }

  predicate Finished(text: string) {
    Opened(text) && Closed(text) && text[|text| - 1] == QUOTE
  }

  // What scanning makes of string literals: each ends before the next piece.
  ghost predicate Scanned(pieces: seq<Piece>) {
    && (forall i | 0 <= i < |pieces| && pieces[i].Plain? :: pieces[i].c != QUOTE)
    && (forall i | 0 <= i < |pieces| && pieces[i].Quote? :: Opened(pieces[i].text))
    && (forall i | 0 <= i < |pieces| - 1 && pieces[i].Quote? :: Finished(pieces[i].text))
  }

  lemma QuoteFinished(s: string)
    requires s != "" && s[0] == QUOTE
    ensures var n := 1 + Inside(s[1..]);
            Opened(s[..n]) && (n < |s| ==> Finished(s[..n]))
  {
    var n := 1 + Inside(s[1..]);
    InsideStops(s[1..]);
    assert s[..n][1..] == s[1..][..n - 1];
    LexString(s[..n]);
    LexNothing();
    assert s[..n][n..] == "";
    if n < |s| {
      InsideEnds(s[1..][..n - 1]);
    }
  }

  lemma {:induction false} PiecesScanned(s: string, bound: seq<string>)
    ensures Scanned(Pieces(s, bound))
    decreases |s|
  {
    hide Opened, Finished, Inside, StartsNamed, NameLength;
    if s != "" {
      var p := FirstPiece(s, bound);
      var n := |SourceOf(p)|;
      var rest := Pieces(s[n..], bound);
      PiecesScanned(s[n..], bound);
      PiecesFirst(s, bound);
      if p.Quote? {
        QuoteFinished(s);
      }
      ScannedCons(p, rest);
    }
  }

  lemma ScannedCons(p: Piece, rest: seq<Piece>)
    requires Scanned(rest) && (p.Plain? ==> p.c != QUOTE) && (p.Quote? ==> Opened(p.text))
    requires p.Quote? && rest != [] ==> Finished(p.text)
    ensures Scanned([p] + rest)
  {
    hide Opened, Finished;
    var all := [p] + rest;
    assert forall i | 1 <= i < |all| :: all[i] == rest[i - 1];
  }

  // ---- when texts are scanned one by one ------------------------------------

  function LexEach(texts: seq<string>): seq<Part> {
    if texts == [] then [] else Lex(texts[0]) + LexEach(texts[1..])
  }

  // A quote after a closing quote takes the string further.
  lemma {:induction false} InsideProlonged(s: string, b: string)
    requires Closes(s) && Inside(s) == |s| && b != "" && b[0] == QUOTE
    ensures Inside(s + b) > |s|
    decreases |s|
  {
    if s[0] != QUOTE {
      assert (s + b)[1..] == s[1..] + b;
      InsideProlonged(s[1..], b);
    } else if |s| > 1 {
      assert (s + b)[2..] == s[2..] + b;
      InsideProlonged(s[2..], b);
    } else {
      assert s + b == [QUOTE] + b;
    }
  }

  // Texts that meet quote to quote are never seen one by one.
  lemma {:induction false} LexMerges(a: string, b: string)
    requires Closed(a) && !Meet(a, b)
    ensures !(Lex(a) <= Lex(a + b))
    decreases |a|
  {
    hide Lex, Closed, Inside, Closes;
    if a[0] == QUOTE {
      var t, n := a[1..], 1 + Inside(a[1..]);
      assert (a + b)[1..] == t + b;
      LexString(a);
      LexString(a + b);
      if n < |a| {
        InsideConcat(t, b);
        assert (a + b)[..n] == a[..n] && (a + b)[n..] == a[n..] + b;
        LexMerges(a[n..], b);
        SamePrefix(Quoted(a[..n]), Lex(a[n..]), Lex(a[n..] + b));
      } else {
        InsideProlonged(t, b);
        var m := 1 + Inside(t + b);
        assert |a[..n]| < |(a + b)[..m]|;
        assert Lex(a)[0] != Lex(a + b)[0];
      }
    } else {
      LexBare(a);
      LexBare(a + b);
      assert (a + b)[1..] == a[1..] + b;
      LexMerges(a[1..], b);
      SamePrefix(Bare(a[0]), Lex(a[1..]), Lex(a[1..] + b));
    }
  }

  lemma SamePrefix(p: Part, a: seq<Part>, b: seq<Part>)
    ensures [p] + a <= [p] + b <==> a <= b
  {
    if [p] + a <= [p] + b {
      assert ([p] + a)[1..] == a && ([p] + b)[1..] == b;
    }
  }

  predicate TextsApart(texts: seq<string>) {
    texts != [] ==> Meet(texts[0], Joined(texts[1..])) && TextsApart(texts[1..])
  }

  lemma {:induction false} LexEachExactly(texts: seq<string>)
    requires forall i | 0 <= i < |texts| - 1 :: Closed(texts[i])
    ensures Lex(Joined(texts)) == LexEach(texts) <==> TextsApart(texts)
  {
    hide Lex, Closed;
    if texts == [] {
      LexNothing();
    } else {
      var first, rest := texts[0], texts[1..];
      assert forall i | 0 <= i < |rest| - 1 :: rest[i] == texts[i + 1];
      LexEachExactly(rest);
      if rest == [] {
        assert first + Joined(rest) == first && Lex(first) + LexEach(rest) == Lex(first);
      } else {
        assert Closed(texts[0]);
        if Meet(first, Joined(rest)) {
          LexConcat(first, Joined(rest));
          SameTail(Lex(first), Lex(Joined(rest)), LexEach(rest));
        } else {
          LexMerges(first, Joined(rest));
        }
      }
    }
  }

  lemma SameTail(a: seq<Part>, x: seq<Part>, y: seq<Part>)
    ensures a + x == a + y <==> x == y
  {
    if a + x == a + y {
      assert (a + x)[|a|..] == x && (a + y)[|a|..] == y;
    }
  }

  // ---- which pieces are strings ---------------------------------------------

  // What a piece puts next to its neighbours: nothing, something that is no string,
  // or a string.
  datatype Edge = Nothing | Words | AString

  function ValueEdge(v: Value): Edge {
    if v.S? then AString else if v.N? && v.s == "" then Nothing else Words
  }

  function Edges(pieces: seq<Piece>, positional: seq<Value>, named: seq<(string, Value)>, next: nat): seq<Edge> {
    if pieces == [] then []
    else if pieces[0].Positional? then
      [if next < |positional| then ValueEdge(positional[next]) else Nothing] +
      Edges(pieces[1..], positional, named, next + 1)
    else if pieces[0].Named? && Bound(named, pieces[0].name).Some? then
      [ValueEdge(Bound(named, pieces[0].name).value)] + Edges(pieces[1..], positional, named, next)
    else [if pieces[0].Quote? then AString else Words] + Edges(pieces[1..], positional, named, next)
  }

  function FirstEdge(edges: seq<Edge>): Edge {
    if edges == [] then Nothing else if edges[0].Nothing? then FirstEdge(edges[1..]) else edges[0]
  }

  // No string stands next to a string, or with nothing but empty numbers between.
  predicate KeptApart(edges: seq<Edge>) {
    edges != [] ==> !(edges[0].AString? && FirstEdge(edges[1..]).AString?) && KeptApart(edges[1..])
  }

  // A text has this edge; only the last string may be unfinished.
  predicate HasEdge(text: string, edge: Edge, last: bool) {
    match edge
    case Nothing => text == ""
    case Words => Closed(text) && text != "" && text[0] != QUOTE && text[|text| - 1] != QUOTE
    case AString => Opened(text) && (last || Finished(text))
  }

  lemma ValueHasEdge(v: Value)
    requires PlainNumbers(v) && Literal(v).Some?
    ensures HasEdge(Literal(v).value, ValueEdge(v), false)
  {
    LiteralClosed(v);
    hide Closed;
    match v {
      case N(s) =>
        if s != "" {
          assert s[0] in s && s[|s| - 1] in s;
        }
      case _ =>
    }
  }

  lemma {:induction false} FirstEdgeIs(texts: seq<string>, edges: seq<Edge>)
    requires |texts| == |edges| && forall i | 0 <= i < |texts| :: HasEdge(texts[i], edges[i], i == |texts| - 1)
    ensures var t := Joined(texts);
            match FirstEdge(edges)
            case Nothing => t == ""
            case Words => t != "" && t[0] != QUOTE
            case AString => t != "" && t[0] == QUOTE
  {
    hide Closed;
    if texts != [] {
      TailEdges(texts, edges);
      FirstEdgeIs(texts[1..], edges[1..]);
      assert HasEdge(texts[0], edges[0], 0 == |texts| - 1);
    }
  }

  lemma TailEdges(texts: seq<string>, edges: seq<Edge>)
    requires texts != [] && |texts| == |edges|
             && forall i | 0 <= i < |texts| :: HasEdge(texts[i], edges[i], i == |texts| - 1)
    ensures forall i | 0 <= i < |texts[1..]| :: HasEdge(texts[1..][i], edges[1..][i], i == |texts[1..]| - 1)
  {
    hide HasEdge;
    forall i | 0 <= i < |texts[1..]| ensures HasEdge(texts[1..][i], edges[1..][i], i == |texts[1..]| - 1) {
      assert HasEdge(texts[i + 1], edges[i + 1], i + 1 == |texts| - 1);
    }
  }

  lemma {:induction false} EdgesApart(texts: seq<string>, edges: seq<Edge>)
    requires |texts| == |edges| && forall i | 0 <= i < |texts| :: HasEdge(texts[i], edges[i], i == |texts| - 1)
    ensures TextsApart(texts) <==> KeptApart(edges)
    ensures forall i | 0 <= i < |texts| - 1 :: Closed(texts[i])
  {
    hide Closed;
    LexNothing();
    if texts != [] {
      TailEdges(texts, edges);
      EdgesApart(texts[1..], edges[1..]);
      FirstEdgeIs(texts[1..], edges[1..]);
      assert HasEdge(texts[0], edges[0], 0 == |texts| - 1);
      assert forall i | 1 <= i < |texts| :: texts[i] == texts[1..][i - 1];
    }
  }

  lemma {:induction false} PiecesHaveEdges(pieces: seq<Piece>, positional: seq<Value>, named: seq<(string, Value)>,
                                           next: nat)
    requires Scanned(pieces) && Placeable(pieces, positional, named, next)
    requires forall p | p in pieces && p.Named? :: Bound(named, p.name).Some?
    requires (forall v | v in positional :: PlainNumbers(v)) && forall b | b in named :: PlainNumbers(b.1)
    ensures var texts, edges := Texts(pieces, positional, named, next), Edges(pieces, positional, named, next);
            |texts| == |edges| == |pieces| &&
            forall i | 0 <= i < |pieces| :: HasEdge(texts[i], edges[i], i == |pieces| - 1)
  {
    hide HasEdge, PlainNumbers, Literal, ValueEdge, Opened, Finished, IndexOf;
    if pieces != [] {
      var p, rest := pieces[0], pieces[1..];
      assert forall x :: x in pieces <==> x == p || x in rest;
      assert forall i | 0 <= i < |rest| :: rest[i] == pieces[i + 1];
      PiecesHaveEdges(rest, positional, named, if p.Positional? then next + 1 else next);
      FirstHasEdge(pieces, positional, named, next);
    }
  }

  lemma FirstHasEdge(pieces: seq<Piece>, positional: seq<Value>, named: seq<(string, Value)>, next: nat)
    requires pieces != [] && Scanned(pieces) && Placeable(pieces, positional, named, next)
    requires forall p | p in pieces && p.Named? :: Bound(named, p.name).Some?
    requires (forall v | v in positional :: PlainNumbers(v)) && forall b | b in named :: PlainNumbers(b.1)
    ensures HasEdge(Texts(pieces, positional, named, next)[0], Edges(pieces, positional, named, next)[0], |pieces| == 1)
  {
    hide PlainNumbers, Closed;
    var p := pieces[0];
    assert p in pieces;
    match p {
      case Quote(text) =>
      case Plain(c) => NoQuotes([c]);
      case Positional => ValueHasEdge(positional[next]);
      case Named(name) =>
        var k := IndexOf(NamesIn(named), name);
        assert named[k] in named;
        ValueHasEdge(named[k].1);
    }
  }

  lemma {:induction false} NamedAreBound(s: string, bound: seq<string>)
    ensures forall p | p in Pieces(s, bound) && p.Named? :: p.name in bound
    decreases |s|
  {
    hide NameLength, Inside;
    if s != "" {
      var p := FirstPiece(s, bound);
      NamedAreBound(s[|SourceOf(p)|..], bound);
    }
  }

  // A named placeholder is a whole name, and one that was bound: it starts with no digit,
  // and no name character comes after it.
  predicate WholeName(p: Piece, after: seq<Piece>, bound: seq<string>) {
    p.Named? ==>
      && p.name in bound && p.name != "" && !('0' <= p.name[0] <= '9')
      && (forall c | c in p.name :: NameChar(c))
      && (after != [] && after[0].Plain? ==> !NameChar(after[0].c))
  }

  lemma {:induction false} NamesAreWhole(s: string, bound: seq<string>)
    ensures var pieces := Pieces(s, bound);
            forall i | 0 <= i < |pieces| :: WholeName(pieces[i], pieces[i + 1..], bound)
    decreases |s|
  {
    hide Inside, NameChar;
    if s != "" {
      var p := FirstPiece(s, bound);
      var n := |SourceOf(p)|;
      var pieces, rest := Pieces(s, bound), Pieces(s[n..], bound);
      NamesAreWhole(s[n..], bound);
      PiecesFirst(s, bound);
      NameRun(s[1..]);
      hide StartsNamed, NameLength, WholeName;
      assert WholeName(p, rest, bound) by { FirstIsWhole(s, bound); }
      forall i | 0 <= i < |pieces| ensures WholeName(pieces[i], pieces[i + 1..], bound) {
        if i > 0 {
          assert pieces[i] == rest[i - 1] && pieces[i + 1..] == rest[i..];
        } else {
          assert pieces[1..] == rest;
        }
      }
    }
  }

  lemma {:induction false} NameRun(s: string)
    ensures forall c | c in s[..NameLength(s)] :: NameChar(c)
    ensures NameLength(s) < |s| ==> !NameChar(s[NameLength(s)])
  {
    if s != "" && NameChar(s[0]) {
      NameRun(s[1..]);
      assert s[..NameLength(s)] == [s[0]] + s[1..][..NameLength(s[1..])];
    }
  }

  lemma FirstIsWhole(s: string, bound: seq<string>)
    requires s != ""
    ensures var p := FirstPiece(s, bound); WholeName(p, Pieces(s[|SourceOf(p)|..], bound), bound)
  {
    hide Inside, NameChar;
    var p := FirstPiece(s, bound);
    if p.Named? {
      var n := NameLength(s[1..]);
      NameRun(s[1..]);
      var rest := s[n + 1..];
      assert p.name == s[1..][..n] && |SourceOf(p)| == n + 1;
      if rest != "" {
        assert s[1..][n] == rest[0];
        PiecesFirst(rest, bound);
      }
      assert n > 0 && p.name[0] == s[1];
    }
  }

  // Scanned again with the same automaton, the expansion is the statement with each
  // placeholder's literal scanned on its own, exactly when no string, bound or of the
  // statement, stands next to another: then no bound value ends or starts a string
  // of the statement. Numbers are lexemes without a quote.
  lemma Rescan(sql: string, positional: seq<Value>, named: seq<(string, Value)>)
    requires Expansion(sql, positional, named, false).Ok?
    requires (forall v | v in positional :: PlainNumbers(v)) && forall b | b in named :: PlainNumbers(b.1)
    ensures var pieces := Pieces(sql, NamesIn(named));
            Lex(Expansion(sql, positional, named, false).value) == LexEach(Texts(pieces, positional, named, 0))
            <==> KeptApart(Edges(pieces, positional, named, 0))
  {
    hide Lex, Pieces, Texts, Edges, Joined, PlainNumbers, Literal, KeptApart, Scanned, HasEdge, LexEach;
    var pieces := Pieces(sql, NamesIn(named));
    PiecesScanned(sql, NamesIn(named));
    FillIs(pieces, positional, named, 0);
    NamedAreBound(sql, NamesIn(named));
    PiecesHaveEdges(pieces, positional, named, 0);
    var texts, edges := Texts(pieces, positional, named, 0), Edges(pieces, positional, named, 0);
    EdgesApart(texts, edges);
    LexEachExactly(texts);
  }

  lemma {:induction false} DoubledConcat(a: string, b: string)
    ensures Doubled(a + b) == Doubled(a) + Doubled(b)
  {
    if a == "" {
      assert a + b == b;
    } else {
      assert (a + b)[0] == a[0] && (a + b)[1..] == a[1..] + b;
      DoubledConcat(a[1..], b);
    }
  }

  // What is left of a text after one character, or two, and at a later place.
  lemma Onward(s: string, i: nat)
    requires i < |s|
    ensures s[i..][0] == s[i] && s[i..][1..] == s[i + 1..]
    ensures i + 1 < |s| ==> s[i..][1] == s[i + 1] && s[i..][2..] == s[i + 2..]
  {
  }

  lemma OnwardTo(s: string, i: nat, end: nat)
    requires i < end <= |s|
    ensures s[i..][1 + |s[i + 1..end]|..] == s[end..]
  {
  }

  lemma DoubledQuote()
    ensures Doubled([QUOTE]) == [QUOTE, QUOTE]
  {
    assert [QUOTE][1..] == "" && Doubled("") == "";
  }

  // That they must not touch: two bound strings side by side are read as one.
  lemma TouchingMerge(a: string, b: string)
    ensures Lex(StringLiteral(a) + StringLiteral(b)) == [Quoted(StringLiteral(a + [QUOTE] + b))]
  {
    hide Lex, Doubled;
    DoubledConcat(a + [QUOTE], b);
    DoubledConcat(a, [QUOTE]);
    DoubledQuote();
    TwoQuoted(Doubled(a), Doubled(b));
    StringLiteralLex(a + [QUOTE] + b);
  }

  lemma TwoQuoted(a: string, b: string)
    ensures [QUOTE] + a + [QUOTE] + ([QUOTE] + b + [QUOTE]) == [QUOTE] + (a + [QUOTE, QUOTE] + b) + [QUOTE]
  {
    var two := [QUOTE] + [QUOTE];
    assert [QUOTE] + a + [QUOTE] + ([QUOTE] + b + [QUOTE]) == [QUOTE] + a + two + b + [QUOTE];
  }
}

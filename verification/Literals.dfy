// What the parser reads where a bound value was filled in.

module Literals {
  import opened Values
  import opened Symbols
  import opened PreparedStatements
  import opened Lexers

  // ---- the grammar of values ------------------------------------------------

  datatype Parsed<+T> = Wrong | Right(value: T, rest: seq<Token>)

  function Lower(c: char): char {
    if 'A' <= c <= 'Z' then (c as int + 32) as char else c
  }

  function Lowered(s: string): string {
    seq(|s|, i requires 0 <= i < |s| => Lower(s[i]))
  }

  // The outer quotes go; a doubled quote stays doubled.
  function Unquoted(s: string): string {
    if |s| >= 2 && s[0] == QUOTE && s[|s| - 1] == QUOTE then s[1..|s| - 1] else s
  }

  // Numbers keep their lexeme; a time stamp is no value.
  function ReadValue(t: seq<Token>): (r: Parsed<Value>)
    ensures r.Right? ==> |r.rest| < |t|
    decreases |t|, 0
  {
    if t == [] then Wrong
    else
      match t[0]
      case Num(text) => Right(N(text), t[1..])
      case Str(text) => Right(S(Unquoted(text)), t[1..])
      case Id(text) =>
        if Lowered(text) == "true" then Right(Bool(true), t[1..])
        else if Lowered(text) == "false" then Right(Bool(false), t[1..])
        else if Lowered(text) == "null" then Right(Null, t[1..])
        else Wrong
      case Other(c) =>
        if c == '[' then
          if |t| > 1 && t[1] == Other(']') then Right(L([]), t[2..])
          else match ReadList(t[1..]) case Right(list, rest) => Right(L(list), rest) case Wrong => Wrong
        else if c == '{' then
          if |t| > 1 && t[1] == Other('}') then Right(M([]), t[2..])
          else match ReadEntries(t[1..]) case Right(entries, rest) => Right(M(entries), rest) case Wrong => Wrong
        else Wrong
      case _ => Wrong
  }

  // Values with commas between them, and the closing bracket.
  function ReadList(t: seq<Token>): (r: Parsed<seq<Value>>)
    ensures r.Right? ==> |r.rest| < |t|
    decreases |t|, 1
  {
    match ReadValue(t)
    case Wrong => Wrong
    case Right(v, rest) =>
      if rest == [] then Wrong
      else if rest[0] == Other(']') then Right([v], rest[1..])
      else if rest[0] == Other(',') then
        match ReadList(rest[1..]) case Right(more, last) => Right([v] + more, last) case Wrong => Wrong
      else Wrong
  }

  // Keys, colons and values, and the closing brace. (A key may also be an identifier
  // that is no keyword; that form is left out.)
  function ReadEntries(t: seq<Token>): (r: Parsed<seq<(string, Value)>>)
    ensures r.Right? ==> |r.rest| < |t|
    decreases |t|, 1
  {
    if |t| < 2 || !t[0].Str? || t[1] != Other(':') then Wrong
    else
      match ReadValue(t[2..])
      case Wrong => Wrong
      case Right(v, rest) =>
        var entry := (Unquoted(t[0].text), v);
        if rest == [] then Wrong
        else if rest[0] == Other('}') then Right([entry], rest[1..])
        else if rest[0] == Other(',') then
          match ReadEntries(rest[1..]) case Right(more, last) => Right([entry] + more, last) case Wrong => Wrong
        else Wrong
  }

  // ---- literals are read back -----------------------------------------------

  predicate Lexeme(s: string) {
    s != "" && NumLength(s) == |s|
  }

  predicate Stamped(s: string) {
    |s| == |STAMP| && Fits(s, STAMP)
  }

  predicate Quotable(s: string) {
    !Stamped([QUOTE] + s + [QUOTE])
  }

  // Numbers are lexemes, and no string or key is a time stamp.
  predicate Lexical(v: Value) {
    match v
    case N(s) => Lexeme(s)
    case S(s) => Quotable(s)
    case L(list) => forall x | x in list :: Lexical(x)
    case M(entries) => forall x | x in entries :: LexicalEntry(x)
    case _ => true
  }

  predicate LexicalEntry(entry: (string, Value)) {
    Quotable(entry.0) && Lexical(entry.1)
  }

  predicate QuoteFree(v: Value) {
    match v
    case S(s) => QUOTE !in s
    case L(list) => forall x | x in list :: QuoteFree(x)
    case M(entries) => forall x | x in entries :: QuoteFreeEntry(x)
    case _ => true
  }

  predicate QuoteFreeEntry(entry: (string, Value)) {
    QUOTE !in entry.0 && QuoteFree(entry.1)
  }

  // The value with its quotes doubled, as they are left.
  function AsLexed(v: Value): Value
    decreases v, 1
  {
    match v
    case S(s) => S(Doubled(s))
    case L(list) => L(ListAsLexed(list))
    case M(entries) => M(EntriesAsLexed(entries))
    case _ => v
  }

  function ListAsLexed(list: seq<Value>): seq<Value>
    decreases list, 0
  {
    if list == [] then [] else [AsLexed(list[0])] + ListAsLexed(list[1..])
  }

  function EntriesAsLexed(entries: seq<(string, Value)>): seq<(string, Value)>
    decreases entries, 0
  {
    if entries == [] then [] else [EntryAsLexed(entries[0])] + EntriesAsLexed(entries[1..])
  }

  function EntryAsLexed(entry: (string, Value)): (string, Value)
    decreases entry, 2
  {
    (Doubled(entry.0), AsLexed(entry.1))
  }

  // ---- tokens of the pieces of a literal ------------------------------------

  lemma {:induction false} Letters(s: string)
    requires forall c | c in s :: 'a' <= c <= 'z'
    ensures IdTail(s) == |s| && Lowered(s) == s
  {
    if s != "" {
      assert forall c | c in s[1..] :: c in s;
      Letters(s[1..]);
      assert s[0] in s;
      assert Lowered(s)[0] == s[0] && forall i | 0 <= i < |s[1..]| :: Lowered(s)[i + 1] == Lowered(s[1..])[i];
    }
  }

  lemma WordTokens(s: string)
    requires s != "" && forall c | c in s :: 'a' <= c <= 'z'
    ensures Tokens(s) == [Id(s)] && Clean(s) && Lowered(s) == s
  {
    assert s[0] in s && forall c | c in s[1..] :: c in s;
    Letters(s);
    Letters(s[1..]);
    NoString(s);
    LetterFirst(s);
    hide IdLength, NumLength, StringLength, StampLength, IdTail, Lowered;
    assert s[..|s|] == s && s[|s|..] == "";
    assert First(s) == (Some(Id(s)), |s|);
  }

  lemma LetterFirst(s: string)
    requires s != "" && 'a' <= s[0] <= 'z'
    ensures IdLength(s) == 1 + IdTail(s[1..]) && NumLength(s) == 0 && !Comment(s) && !Space(s[0])
  {
  }

  lemma NumberTokens(s: string)
    requires Lexeme(s)
    ensures Tokens(s) == [Num(s)] && Clean(s)
  {
    assert !Comment(s) && !Space(s[0]);
    NoString(s);
    assert s[..|s|] == s && s[|s|..] == "";
    assert First(s) == (Some(Num(s)), |s|);
  }

  lemma StringTokens(s: string)
    requires Quotable(Doubled(s))
    ensures Tokens(StringLiteral(s)) == [Str(StringLiteral(s))] && Clean(StringLiteral(s))
    ensures Unquoted(StringLiteral(s)) == Doubled(s)
  {
    var t := StringLiteral(s);
    assert t[1..] == Doubled(s) + [QUOTE];
    DoubledCloses(s);
    StringTailIs(t[1..]);
    assert StringLength(t) == |t| && t[..|t|] == t && t[|t|..] == "";
    FitsLength(t, STAMP);
    hide Fits, StringLength, Doubled, Inside;
    assert StampLength(t) == 0 || StampLength(t) < |t|;
    assert First(t) == (Some(Str(t)), |t|);
    assert t[1..|t| - 1] == Doubled(s);
  }

  lemma OneChar(c: char)
    requires c in "[]{},:"
    ensures Tokens([c]) == [Other(c)] && Clean([c])
  {
    assert First([c]) == (Some(Other(c)), 1) && [c][1..] == "";
  }

  lemma CommaTokens()
    ensures Tokens(", ") == [Other(',')] && Clean(", ")
  {
    var s := ", ";
    assert First(s) == (Some(Other(',')), 1) && s[1..] == " ";
    assert First(" ") == (None, 1) && " "[1..] == "";
  }

  lemma Enclosed(open: char, t: string, close: char)
    requires Clean(t) && open in "[{" && close in "]}"
    ensures Tokens([open] + t + [close]) == [Other(open)] + Tokens(t) + [Other(close)] && Clean([open] + t + [close])
  {
    OneChar(open);
    OneChar(close);
    hide Tokens, Clean;
    TokensConcat([open], t);
    assert ([open] + t)[0] == open;
    TokensConcat([open] + t, [close]);
  }

  // Two texts and a separator that joins no token.
  lemma Separated(a: string, sep: string, b: string)
    requires Clean(a) && Clean(sep) && Clean(b) && (sep == ", " || sep == ":")
    ensures Tokens(a + sep + b) == Tokens(a) + Tokens(sep) + Tokens(b) && Clean(a + sep + b)
  {
    hide Tokens, Clean;
    TokensConcat(a, sep);
    assert (a + sep)[|a + sep| - 1] == sep[|sep| - 1];
    TokensConcat(a + sep, b);
  }

  lemma {:induction false} DoubledPlain(s: string)
    ensures QUOTE !in s ==> Doubled(s) == s
    ensures QUOTE in s ==> QUOTE in Doubled(s) && |Doubled(s)| > |s|
    ensures |Doubled(s)| >= |s|
  {
    if s != "" {
      DoubledPlain(s[1..]);
      assert s == [s[0]] + s[1..];
      assert forall c :: c in s <==> c == s[0] || c in s[1..];
    }
  }

  lemma StampPlain(s: string)
    requires Stamped([QUOTE] + s + [QUOTE])
    ensures QUOTE !in s
  {
    var t := [QUOTE] + s + [QUOTE];
    forall i | 0 <= i < |s| ensures s[i] != QUOTE {
      FitsAt(t, STAMP, i + 1);
      StampInside(i + 1);
      assert t[i + 1] == s[i];
    }
  }

  lemma QuotableDoubled(s: string)
    ensures Quotable(Doubled(s)) <==> Quotable(s)
  {
    DoubledPlain(s);
    if !Quotable(s) {
      StampPlain(s);
    }
    if !Quotable(Doubled(s)) {
      StampPlain(Doubled(s));
    }
  }

  // ---- reading back ---------------------------------------------------------

  // What follows a literal is left when it was read.
  lemma {:induction false} LiteralReads(v: Value, rest: seq<Token>)
    requires Literal(v).Some? && Lexical(v)
    ensures Clean(Literal(v).value) && ReadValue(Tokens(Literal(v).value) + rest) == Right(AsLexed(v), rest)
    decreases v, 1
  {
    hide Tokens, Clean, NumLength, Fits;
    match v {
      case S(s) =>
        QuotableDoubled(s);
        StringTokens(s);
        Alone(Str(StringLiteral(s)), rest);
      case N(s) =>
        NumberTokens(s);
        Alone(Num(s), rest);
      case Bool(b) =>
        WordTokens(if b then "true" else "false");
        Alone(Id(if b then "true" else "false"), rest);
      case Null =>
        WordTokens("null");
        Alone(Id("null"), rest);
      case L(list) => BracketsRead(list, rest);
      case M(entries) => BracesRead(entries, rest);
      case _ =>
    }
  }

  lemma Alone(t: Token, rest: seq<Token>)
    ensures ([t] + rest)[0] == t && ([t] + rest)[1..] == rest
  {
  }

  lemma BracketsRead(list: seq<Value>, rest: seq<Token>)
    requires ListText(list).Some? && forall x | x in list :: Lexical(x)
    ensures var text := Literal(L(list)).value;
            Clean(text) && ReadValue(Tokens(text) + rest) == Right(L(ListAsLexed(list)), rest)
    decreases list, 1
  {
    hide Tokens, Clean, Lexical, Literal;
    var t := ListText(list).value;
    var open, close := Other('['), Other(']');
    TextOf(list);
    if list == [] {
      OneChar('[');
      OneChar(']');
      TokensConcat("[", "]");
      assert "[" + "" + "]" == "[" + "]";
      var all := [open] + [close] + rest;
      assert all[0] == open && all[1] == close && all[2..] == rest;
    } else {
      ListReads(list, rest);
      Enclosed('[', t, ']');
      var inner := Tokens(t) + [close] + rest;
      NotClosing(inner);
      var all := [open] + Tokens(t) + [close] + rest;
      assert all == [open] + inner && all[1..] == inner && all[1] == inner[0];
    }
  }

  lemma TextOf(list: seq<Value>)
    ensures ListText(list).Some? ==> Literal(L(list)) == Some("[" + ListText(list).value + "]")
    ensures ListText([]) == Some("") && ListAsLexed([]) == []
  {
  }

  lemma NotClosing(t: seq<Token>)
    ensures ReadList(t).Right? ==> t != [] && t[0] != Other(']')
    ensures ReadEntries(t).Right? ==> t != [] && t[0] != Other('}')
  {
    assert t != [] && t[0] == Other(']') ==> ReadValue(t).Wrong?;
  }

  lemma {:induction false} ListReads(list: seq<Value>, rest: seq<Token>)
    requires list != [] && ListText(list).Some? && forall x | x in list :: Lexical(x)
    ensures var text := ListText(list).value;
            Clean(text) && ReadList(Tokens(text) + [Other(']')] + rest) == Right(ListAsLexed(list), rest)
    decreases list, 0
  {
    hide Tokens, Clean, Lexical, Literal, AsLexed, ReadValue;
    var close: seq<Token> := [Other(']')] + rest;
    var head := Literal(list[0]).value;
    if |list| == 1 {
      LiteralReads(list[0], close);
      assert list[1..] == [] && head + "" + "" == head;
      assert Tokens(head) + [Other(']')] + rest == Tokens(head) + close;
      Alone(Other(']'), rest);
      assert ListAsLexed(list) == [AsLexed(list[0])] + [] == [AsLexed(list[0])];
      assert ListText(list).value == head;
      assert ReadList(Tokens(head) + close) == Right([AsLexed(list[0])], rest);
    } else {
      var more := ListText(list[1..]).value;
      ListReads(list[1..], rest);
      CommaTokens();
      var tail := Tokens(more) + [Other(']')] + rest;
      LiteralReads(list[0], [Other(',')] + tail);
      Separated(head, ", ", more);
      assert Tokens(head) + [Other(',')] + Tokens(more) + [Other(']')] + rest == Tokens(head) + ([Other(',')] + tail);
      Alone(Other(','), tail);
    }
  }

  lemma BracesRead(entries: seq<(string, Value)>, rest: seq<Token>)
    requires EntriesText(entries).Some? && forall x | x in entries :: LexicalEntry(x)
    ensures var text := Literal(M(entries)).value;
            Clean(text) && ReadValue(Tokens(text) + rest) == Right(M(EntriesAsLexed(entries)), rest)
    decreases entries, 1
  {
    hide Tokens, Clean, LexicalEntry, Literal;
    var t := EntriesText(entries).value;
    var open, close := Other('{'), Other('}');
    EntriesTextOf(entries);
    if entries == [] {
      OneChar('{');
      OneChar('}');
      TokensConcat("{", "}");
      assert "{" + "" + "}" == "{" + "}";
      var all := [open] + [close] + rest;
      assert all[0] == open && all[1] == close && all[2..] == rest;
    } else {
      EntriesRead(entries, rest);
      Enclosed('{', t, '}');
      var inner := Tokens(t) + [close] + rest;
      NotClosing(inner);
      var all := [open] + Tokens(t) + [close] + rest;
      assert all == [open] + inner && all[1..] == inner && all[1] == inner[0];
    }
  }

  lemma EntriesTextOf(entries: seq<(string, Value)>)
    ensures EntriesText(entries).Some? ==> Literal(M(entries)) == Some("{" + EntriesText(entries).value + "}")
    ensures EntriesText([]) == Some("") && EntriesAsLexed([]) == []
  {
  }

  // A key, a colon and a value.
  lemma EntryTokens(entry: (string, Value))
    requires EntryText(entry).Some? && Quotable(entry.0) && Clean(Literal(entry.1).value)
    ensures var text := EntryText(entry).value;
            && Clean(text)
            && Tokens(text) == [Str(StringLiteral(entry.0)), Other(':')] + Tokens(Literal(entry.1).value)
            && Unquoted(StringLiteral(entry.0)) == Doubled(entry.0)
  {
    QuotableDoubled(entry.0);
    StringTokens(entry.0);
    OneChar(':');
    hide Tokens, Clean, Literal, StringLiteral;
    Separated(StringLiteral(entry.0), ":", Literal(entry.1).value);
    assert [Str(StringLiteral(entry.0))] + [Other(':')] == [Str(StringLiteral(entry.0)), Other(':')];
  }

  lemma {:induction false} EntriesRead(entries: seq<(string, Value)>, rest: seq<Token>)
    requires entries != [] && EntriesText(entries).Some? && forall x | x in entries :: LexicalEntry(x)
    ensures var text := EntriesText(entries).value;
            Clean(text) && ReadEntries(Tokens(text) + [Other('}')] + rest) == Right(EntriesAsLexed(entries), rest)
    decreases entries, 0
  {
    hide Tokens, Clean, LexicalEntry, Literal, AsLexed, ReadValue, StringLiteral, EntryText, Unquoted, EntryAsLexed;
    var entry := entries[0];
    var t := EntryText(entry).value;
    if |entries| == 1 {
      var close: seq<Token> := [Other('}')] + rest;
      EntryReads(entry, close);
      assert entries[1..] == [] && t + "" + "" == t;
      assert Tokens(t) + [Other('}')] + rest == Tokens(t) + close;
      Alone(Other('}'), rest);
      assert EntriesAsLexed(entries) == [EntryAsLexed(entry)] + [] == [EntryAsLexed(entry)];
      assert EntriesText(entries).value == t;
      assert ReadEntries(Tokens(t) + close) == Right([EntryAsLexed(entry)], rest);
    } else {
      var more := EntriesText(entries[1..]).value;
      EntriesRead(entries[1..], rest);
      CommaTokens();
      var tail := Tokens(more) + [Other('}')] + rest;
      EntryReads(entry, [Other(',')] + tail);
      Separated(t, ", ", more);
      assert Tokens(t) + [Other(',')] + Tokens(more) + [Other('}')] + rest == Tokens(t) + ([Other(',')] + tail);
      Alone(Other(','), tail);
    }
  }

  lemma EntryReads(entry: (string, Value), rest: seq<Token>)
    requires EntryText(entry).Some? && LexicalEntry(entry)
    ensures var text := EntryText(entry).value;
            var all := Tokens(text) + rest;
            && Clean(text) && |all| >= 2 && all[0].Str? && all[1] == Other(':')
            && ReadValue(all[2..]) == Right(AsLexed(entry.1), rest)
            && (Unquoted(all[0].text), AsLexed(entry.1)) == EntryAsLexed(entry)
    decreases entry, 2
  {
    LiteralReads(entry.1, rest);
    EntryTokens(entry);
    hide Tokens, Clean, Literal, AsLexed, ReadValue, StringLiteral, Unquoted;
    KeyFirst(entry, Tokens(Literal(entry.1).value), rest);
  }

  lemma KeyFirst(entry: (string, Value), value: seq<Token>, rest: seq<Token>)
    ensures var key := Str(StringLiteral(entry.0));
            var all := [key, Other(':')] + value + rest;
            |all| >= 2 && all[0] == key && all[1] == Other(':') && all[2..] == value + rest
  {
  }

  // ---- exactly when -----------------------------------------------------------

  lemma {:induction false} DigitsTaken(s: string, k: nat)
    requires k <= |s|
    ensures Digits(s[..k]) == if Digits(s) <= k then Digits(s) else k
  {
    if k > 0 {
      assert s[..k][1..] == s[1..][..k - 1];
      DigitsTaken(s[1..], k - 1);
    }
  }

  lemma ExponentTaken(s: string)
    ensures Exponent(s[..Exponent(s)]) == Exponent(s)
  {
    var e := Exponent(s);
    if e > 0 {
      var t := s[..e];
      var sign := if Starts(s[1..], '+') || Starts(s[1..], '-') then 1 else 0;
      assert t[1..] == s[1..][..e - 1] && t[1 + sign..] == s[1 + sign..][..e - 1 - sign];
      DigitsTaken(s[1 + sign..], e - 1 - sign);
    }
  }

  lemma UnsignedTaken(s: string, signed: bool)
    ensures Unsigned(s[..Unsigned(s, signed)], signed) == Unsigned(s, signed)
  {
    hide Exponent, Digits;
    var u := Unsigned(s, signed);
    var t, d := s[..u], Digits(s);
    if u > 0 {
      DigitsTaken(s, u);
      FirstDigit(s);
      if Starts(s[d..], '.') {
        var f := d + 1 + Digits(s[d + 1..]);
        assert t[d..] == s[d..][..u - d] && t[d + 1..] == s[d + 1..][..u - d - 1] && t[f..] == s[f..][..u - f];
        DigitsTaken(s[d + 1..], u - d - 1);
        ExponentTaken(s[f..]);
        assert Exponent(t[f..]) == Exponent(s[f..]);
      } else if Exponent(s[d..]) > 0 {
        assert t[d..] == s[d..][..u - d];
        ExponentTaken(s[d..]);
        StartsTaken(s[d..], u - d);
      } else {
        WholeTaken(s, signed);
      }
    }
  }

  lemma FirstDigit(s: string)
    ensures Digits(s) > 0 <==> s != "" && Digit(s[0])
  {
  }

  lemma StartsTaken(s: string, k: nat)
    requires 0 < k <= |s|
    ensures forall c :: Starts(s[..k], c) <==> Starts(s, c)
  {
  }

  lemma WholeTaken(s: string, signed: bool)
    requires Digits(s) > 0 && !Starts(s[Digits(s)..], '.') && Exponent(s[Digits(s)..]) == 0
    requires Unsigned(s, signed) > 0
    ensures Unsigned(s[..Unsigned(s, signed)], signed) == Unsigned(s, signed)
  {
    var u := Unsigned(s, signed);
    var t := s[..u];
    DigitsTaken(s, u);
    FirstDigit(s);
    assert t[u..] == "" && Exponent("") == 0;
    assert Digits(t) == u;
  }

  lemma NumTaken(s: string)
    ensures NumLength(s[..NumLength(s)]) == NumLength(s)
  {
    hide Unsigned;
    var n := NumLength(s);
    if n > 0 && Starts(s, '-') {
      assert s[..n][1..] == s[1..][..n - 1];
      UnsignedTaken(s[1..], true);
    } else if n > 0 {
      UnsignedTaken(s, false);
    } else {
      NoNumber();
    }
  }

  lemma NoNumber()
    ensures NumLength("") == 0
  {
  }

  lemma {:induction false} StringTailEnds(s: string)
    requires StringTail(s) > 0
    ensures s[StringTail(s) - 1] == QUOTE
    decreases |s|
  {
    if s[0] != QUOTE {
      StringTailEnds(s[1..]);
    } else if Starts(s[1..], QUOTE) && StringTail(s[2..]) > 0 {
      StringTailEnds(s[2..]);
    }
  }

  predicate SoundToken(t: Token) {
    match t
    case Num(text) => Lexeme(text)
    case Str(text) => |text| >= 2 && text[0] == QUOTE && text[|text| - 1] == QUOTE && Quotable(Unquoted(text))
    case _ => true
  }

  lemma FirstSound(s: string)
    requires s != ""
    ensures First(s).0.Some? ==> SoundToken(First(s).0.value)
  {
    hide NumLength, StringTail, Fits;
    var (t, n) := First(s);
    if t.Some? && t.value.Num? {
      NumTaken(s);
    }
    if t.Some? && t.value.Str? {
      var text := s[..n];
      StringTailEnds(s[1..]);
      assert [QUOTE] + Unquoted(text) + [QUOTE] == text;
      assert text + s[n..] == s;
      if Stamped(text) {
        FitsPrefix(text, s[n..], STAMP);
      }
    }
  }

  lemma {:induction false} TokensSound(s: string)
    ensures forall t | t in Tokens(s) :: SoundToken(t)
    decreases |s|
  {
    hide First, SoundToken;
    if s != "" {
      FirstSound(s);
      TokensSound(s[First(s).1..]);
    }
  }

  // What is read has lexemes for numbers and no time stamps.
  lemma {:induction false} ReadSound(t: seq<Token>)
    requires forall x | x in t :: SoundToken(x)
    ensures var r := ReadValue(t); r.Right? ==> Lexical(r.value) && forall x | x in r.rest :: SoundToken(x)
    decreases |t|, 0
  {
    hide SoundToken;
    if t != [] {
      assert forall x | x in t[1..] :: x in t;
      SoundHere(t[0]);
      if t[0] == Other('[') {
        ReadListSound(t[1..]);
      } else if t[0] == Other('{') {
        ReadEntriesSound(t[1..]);
      }
      if |t| > 1 {
        assert forall x | x in t[2..] :: x in t;
      }
    }
  }

  lemma SoundHere(t: Token)
    requires SoundToken(t)
    ensures t.Num? ==> Lexeme(t.text)
    ensures t.Str? ==> Quotable(Unquoted(t.text))
  {
  }

  lemma {:induction false} ReadListSound(t: seq<Token>)
    requires forall x | x in t :: SoundToken(x)
    ensures var r := ReadList(t);
            r.Right? ==> (forall v | v in r.value :: Lexical(v)) && forall x | x in r.rest :: SoundToken(x)
    decreases |t|, 1
  {
    hide SoundToken, ReadValue, Lexical;
    ReadSound(t);
    var r := ReadValue(t);
    if r.Right? && r.rest != [] {
      assert forall x | x in r.rest[1..] :: x in r.rest;
      if r.rest[0] == Other(',') {
        ReadListSound(r.rest[1..]);
      }
    }
  }

  lemma {:induction false} ReadEntriesSound(t: seq<Token>)
    requires forall x | x in t :: SoundToken(x)
    ensures var r := ReadEntries(t);
            r.Right? ==> (forall e | e in r.value :: LexicalEntry(e)) && forall x | x in r.rest :: SoundToken(x)
    decreases |t|, 1
  {
    hide SoundToken, ReadValue, Lexical;
    if |t| >= 2 && t[0].Str? && t[1] == Other(':') {
      assert t[0] in t && forall x | x in t[2..] :: x in t;
      SoundHere(t[0]);
      ReadSound(t[2..]);
      var r := ReadValue(t[2..]);
      if r.Right? && r.rest != [] {
        assert LexicalEntry((Unquoted(t[0].text), r.value));
        assert forall x | x in r.rest[1..] :: x in r.rest;
        if r.rest[0] == Other(',') {
          ReadEntriesSound(r.rest[1..]);
        }
      }
    }
  }

  // Only quotes are changed.
  lemma {:induction false} AsLexedSame(v: Value)
    ensures AsLexed(v) == v <==> QuoteFree(v)
    decreases v, 1
  {
    match v {
      case S(s) => DoubledPlain(s);
      case L(list) => ListAsLexedSame(list);
      case M(entries) => EntriesAsLexedSame(entries);
      case _ =>
    }
  }

  lemma {:induction false} ListAsLexedSame(list: seq<Value>)
    ensures ListAsLexed(list) == list <==> forall x | x in list :: QuoteFree(x)
    decreases list, 0
  {
    hide AsLexed, QuoteFree;
    if list != [] {
      AsLexedSame(list[0]);
      ListAsLexedSame(list[1..]);
      assert list == [list[0]] + list[1..];
      assert forall x :: x in list <==> x == list[0] || x in list[1..];
      Consed(AsLexed(list[0]), ListAsLexed(list[1..]), list[0], list[1..]);
    }
  }

  lemma Consed<T>(a: T, x: seq<T>, b: T, y: seq<T>)
    ensures [a] + x == [b] + y <==> a == b && x == y
  {
    if [a] + x == [b] + y {
      assert ([a] + x)[0] == a && ([b] + y)[0] == b;
      assert ([a] + x)[1..] == x && ([b] + y)[1..] == y;
    }
  }

  lemma {:induction false} EntriesAsLexedSame(entries: seq<(string, Value)>)
    ensures EntriesAsLexed(entries) == entries <==> forall x | x in entries :: QuoteFreeEntry(x)
    decreases entries, 0
  {
    hide AsLexed, QuoteFree, Doubled;
    if entries != [] {
      EntryAsLexedSame(entries[0]);
      EntriesAsLexedSame(entries[1..]);
      hide EntryAsLexed, QuoteFreeEntry;
      assert entries == [entries[0]] + entries[1..];
      assert forall x :: x in entries <==> x == entries[0] || x in entries[1..];
      Consed(EntryAsLexed(entries[0]), EntriesAsLexed(entries[1..]), entries[0], entries[1..]);
    }
  }

  lemma EntryAsLexedSame(entry: (string, Value))
    ensures EntryAsLexed(entry) == entry <==> QuoteFreeEntry(entry)
    decreases entry, 2
  {
    DoubledPlain(entry.0);
    AsLexedSame(entry.1);
  }

  // The literal of a value is read back as the value exactly when its numbers are
  // lexemes, no string or key of it holds a quote, and none is a time stamp.
  lemma ReadsBack(v: Value)
    requires Literal(v).Some?
    ensures ReadValue(Tokens(Literal(v).value)) == Right(v, []) <==> Lexical(v) && QuoteFree(v)
  {
    hide Tokens, Lexical, QuoteFree, Literal, ReadValue, SoundToken;
    var t := Tokens(Literal(v).value);
    if Lexical(v) {
      LiteralReads(v, []);
      AsLexedSame(v);
      assert t + [] == t;
    } else {
      TokensSound(Literal(v).value);
      ReadSound(t);
    }
  }

  // ---- the expansion of a statement -----------------------------------------

  // A placeholder's value, and the text of the statement up to the next placeholder.
  datatype Hole = Hole(value: Value, after: string)

  datatype Template = Template(first: string, holes: seq<Hole>)

  function TemplateOf(pieces: seq<Piece>, positional: seq<Value>, named: seq<(string, Value)>, next: nat): Template {
    if pieces == [] then Template("", [])
    else if pieces[0].Positional? then
      var rest := TemplateOf(pieces[1..], positional, named, next + 1);
      Template("", [Hole(if next < |positional| then positional[next] else Null, rest.first)] + rest.holes)
    else
      var rest := TemplateOf(pieces[1..], positional, named, next);
      if pieces[0].Named? && Bound(named, pieces[0].name).Some? then
        Template("", [Hole(Bound(named, pieces[0].name).value, rest.first)] + rest.holes)
      else Template(SourceOf(pieces[0]) + rest.first, rest.holes)
  }

  function LiteralText(v: Value): string {
    Literal(v).GetOr("")
  }

  function RestText(holes: seq<Hole>): string {
    if holes == [] then "" else LiteralText(holes[0].value) + (holes[0].after + RestText(holes[1..]))
  }

  // The expansion is the statement with literals in its holes.
  lemma {:induction false} TemplateFilled(pieces: seq<Piece>, positional: seq<Value>, named: seq<(string, Value)>,
                                          next: nat)
    requires Placeable(pieces, positional, named, next) && next <= |positional|
    ensures var t := TemplateOf(pieces, positional, named, next);
            Joined(Texts(pieces, positional, named, next)) == t.first + RestText(t.holes)
  {
    hide Literal, Bound, SourceOf;
    if pieces != [] {
      var p, rest := pieces[0], pieces[1..];
      var after := if p.Positional? then next + 1 else next;
      PlaceableFirst(pieces, positional, named, next);
      hide Placeable;
      TemplateFilled(rest, positional, named, after);
      var t, u := TemplateOf(pieces, positional, named, next), TemplateOf(rest, positional, named, after);
      var texts := Texts(pieces, positional, named, next);
      assert texts[1..] == Texts(rest, positional, named, after) && Joined(texts) == texts[0] + Joined(texts[1..]);
      if t.holes != u.holes {
        assert t.holes[1..] == u.holes && t.holes[0].after == u.first;
        assert "" + RestText(t.holes) == RestText(t.holes);
      } else {
        assert texts[0] + (u.first + RestText(u.holes)) == texts[0] + u.first + RestText(u.holes);
      }
    }
  }

  // Every hole stands where no token joins it to what is around it, and no string or
  // comment of the statement reaches over it.
  predicate StandsAlone(before: string, holes: seq<Hole>)
    decreases |holes|
  {
    Clean(before) &&
    (holes == [] ||
     var literal, rest := LiteralText(holes[0].value), holes[0].after + RestText(holes[1..]);
     && Boundary(before, literal + rest) && Boundary(literal, rest)
     && StandsAlone(holes[0].after, holes[1..]))
  }

  // The tokens of the statement's own text, and in each hole its value.
  predicate ReadsAs(t: seq<Token>, before: string, holes: seq<Hole>)
    decreases |holes|
  {
    Tokens(before) <= t &&
    var rest := t[|Tokens(before)|..];
    if holes == [] then rest == []
    else
      match ReadValue(rest)
      case Wrong => false
      case Right(v, after) => v == AsLexed(holes[0].value) && ReadsAs(after, holes[0].after, holes[1..])
  }

  lemma {:induction false} HolesRead(before: string, holes: seq<Hole>)
    requires StandsAlone(before, holes)
    requires forall h | h in holes :: Literal(h.value).Some? && Lexical(h.value)
    ensures ReadsAs(Tokens(before + RestText(holes)), before, holes)
    decreases |holes|
  {
    hide Tokens, Clean, Boundary, Literal, Lexical, ReadValue, AsLexed;
    if holes == [] {
      assert before + "" == before;
    } else {
      var h, tail := holes[0], holes[1..];
      var literal, rest := LiteralText(h.value), h.after + RestText(tail);
      HolesRead(h.after, tail);
      LiteralReads(h.value, Tokens(rest));
      TokensConcat(before, literal + rest);
      TokensConcat(literal, rest);
    }
  }

  lemma {:induction false} HolesHold(pieces: seq<Piece>, positional: seq<Value>, named: seq<(string, Value)>,
                                     next: nat)
    requires Placeable(pieces, positional, named, next) && next <= |positional|
    requires (forall v | v in positional :: Lexical(v)) && forall b | b in named :: Lexical(b.1)
    ensures forall h | h in TemplateOf(pieces, positional, named, next).holes ::
              Literal(h.value).Some? && Lexical(h.value)
  {
    hide Literal, Lexical, IndexOf, SourceOf;
    if pieces != [] {
      var p := pieces[0];
      PlaceableFirst(pieces, positional, named, next);
      hide Placeable;
      HolesHold(pieces[1..], positional, named, if p.Positional? then next + 1 else next);
      if p.Named? && Bound(named, p.name).Some? {
        var k := IndexOf(NamesIn(named), p.name);
        assert named[k] in named;
      }
    }
  }

  // In the tokens of an expanded statement each placeholder is read as the value bound to
  // it, its quotes doubled, and everything else is scanned as it is in the statement,
  // when the holes stand alone and the values are lexical.
  lemma ExpansionReads(sql: string, positional: seq<Value>, named: seq<(string, Value)>)
    requires Expansion(sql, positional, named, false).Ok?
    requires (forall v | v in positional :: Lexical(v)) && forall b | b in named :: Lexical(b.1)
    requires var t := TemplateOf(Pieces(sql, NamesIn(named)), positional, named, 0); StandsAlone(t.first, t.holes)
    ensures var t := TemplateOf(Pieces(sql, NamesIn(named)), positional, named, 0);
            ReadsAs(Tokens(Expansion(sql, positional, named, false).value), t.first, t.holes)
  {
    hide Tokens, Pieces, Texts, Joined, TemplateOf, Lexical, Literal, StandsAlone, ReadsAs, Placeable, Fill;
    var pieces := Pieces(sql, NamesIn(named));
    FillIs(pieces, positional, named, 0);
    TemplateFilled(pieces, positional, named, 0);
    HolesHold(pieces, positional, named, 0);
    var t := TemplateOf(pieces, positional, named, 0);
    HolesRead(t.first, t.holes);
  }

  // ---- what is read as something else ---------------------------------------

  // A bound string with a quote in it arrives with two.
  lemma QuoteDoubled(s: string)
    requires QUOTE in s && Quotable(s)
    ensures ReadValue(Tokens(Literal(S(s)).value)) == Right(S(Doubled(s)), []) && |Doubled(s)| > |s|
  {
    DoubledPlain(s);
    var t := Tokens(Literal(S(s)).value);
    hide Tokens, Doubled;
    LiteralReads(S(s), []);
    assert t + [] == t;
  }

  // A bound string that looks like a time stamp is no value at all.
  lemma StampRefused(s: string)
    requires !Quotable(s)
    ensures ReadValue(Tokens(Literal(S(s)).value)) == Wrong
  {
    var t := [QUOTE] + s + [QUOTE];
    StampPlain(s);
    DoubledPlain(s);
    assert Literal(S(s)) == Some(t);
    StampFirst(t);
    hide First, Fits;
    assert t[|t|..] == "";
  }

  lemma StampFirst(t: string)
    requires Stamped(t)
    ensures First(t) == (Some(Stamp(t)), |t|)
  {
    FitsAt(t, STAMP, 0);
    assert t[..|t|] == t;
    hide Fits, StringTail;
  }

  // A minus before a placeholder and a negative number make a comment of them.
  lemma MinusComments(digits: string)
    requires forall c | c in digits :: Digit(c)
    ensures Tokens("-" + ("-" + digits)) == []
  {
    var s := "-" + ("-" + digits);
    assert s[2..] == digits;
    OneLine(digits);
    assert First(s) == (None, |s|) && s[|s|..] == "";
  }

  lemma {:induction false} OneLine(s: string)
    requires forall c | c in s :: Digit(c)
    ensures LineLength(s) == |s|
  {
    if s != "" {
      assert s[0] in s && forall c | c in s[1..] :: c in s;
      OneLine(s[1..]);
    }
  }
}

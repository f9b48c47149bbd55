// The scanner: a text cut into tokens by the longest match, and what the grammar reads
// as a value.

module Lexers {
  import opened Values
  import opened PreparedStatements

  datatype Token =
    | Stamp(text: string)
    | Str(text: string)
    | Num(text: string)
    | Id(text: string)
    | Op(text: string)
    | Other(c: char)

  // ---- characters -----------------------------------------------------------

  predicate Space(c: char) {
    c == ' ' || c == '\t' || c == '\r' || c == '\n'
  }

  predicate Digit(c: char) {
    '0' <= c <= '9'
  }

  predicate IdStart(c: char) {
    'a' <= c <= 'z' || 'A' <= c <= 'Z' || Digit(c) || c == '_'
  }

  predicate IdChar(c: char) {
    IdStart(c) || c == '-'
  }

  // The characters of identifiers and numbers.
  predicate WordChar(c: char) {
    IdChar(c) || c == '.' || c == '+'
  }

  predicate Starts(s: string, c: char) {
    s != "" && s[0] == c
  }

  // ---- the rules: how far each matches, 0 for not at all --------------------

  function Digits(s: string): (n: nat)
    ensures n <= |s|
  {
    if s != "" && Digit(s[0]) then 1 + Digits(s[1..]) else 0
  }

  function IdTail(s: string): (n: nat)
    ensures n <= |s|
  {
    if s != "" && IdChar(s[0]) then 1 + IdTail(s[1..]) else 0
  }

  function IdLength(s: string): (n: nat)
    ensures n <= |s|
  {
    if s != "" && IdStart(s[0]) then 1 + IdTail(s[1..]) else 0
  }

  // An upper-case E, a sign or none, and digits.
  function Exponent(s: string): (n: nat)
    ensures n <= |s|
  {
    if !Starts(s, 'E') then 0
    else
      var sign := if Starts(s[1..], '+') || Starts(s[1..], '-') then 1 else 0;
      var d := Digits(s[1 + sign..]);
      if d == 0 then 0 else 1 + sign + d
  }

  function Unsigned(s: string, signed: bool): (n: nat)
    ensures n <= |s|
  {
    var d := Digits(s);
    if Starts(s[d..], '.') then
      var f := d + 1 + Digits(s[d + 1..]);
      if d == 0 && f == 1 then 0 else f + Exponent(s[f..])
    else if d == 0 then 0
    else if Exponent(s[d..]) > 0 then d + Exponent(s[d..])
    else if s[0] != '0' then d
    else if signed then 0 else 1
  }

  // Whole numbers without a leading zero, and numbers with a point or an exponent.
  function NumLength(s: string): (n: nat)
    ensures n <= |s|
  {
    if Starts(s, '-') then
      var n := Unsigned(s[1..], true);
      if n == 0 then 0 else 1 + n
    else Unsigned(s, false)
  }

  // After the opening quote: up to the last quote that can close the string.
  function StringTail(s: string): (n: nat)
    ensures n <= |s|
  {
    if s == "" then 0
    else if s[0] != QUOTE then (var n := StringTail(s[1..]); if n == 0 then 0 else 1 + n)
    else if Starts(s[1..], QUOTE) then (var n := StringTail(s[2..]); if n == 0 then 1 else 2 + n)
    else 1
  }

  function StringLength(s: string): (n: nat)
    ensures n <= |s|
  {
    if !Starts(s, QUOTE) then 0
    else
      var n := StringTail(s[1..]);
      if n == 0 then 0 else 1 + n
  }

  // 2026-01-31T23:59:59Z in quotes.
  const STAMP: string := "\"dddd-dd-ddTdd:dd:ddZ\""

  predicate Fits(s: string, pattern: string) {
    pattern == "" || (s != "" && (if pattern[0] == 'd' then Digit(s[0]) else s[0] == pattern[0])
                      && Fits(s[1..], pattern[1..]))
  }

  function StampLength(s: string): (n: nat)
    ensures n <= |s|
  {
    FitsLength(s, STAMP);
    if Fits(s, STAMP) then |STAMP| else 0
  }

  lemma {:induction false} FitsLength(s: string, pattern: string)
    ensures Fits(s, pattern) ==> |pattern| <= |s|
  {
    if pattern != "" && s != "" {
      FitsLength(s[1..], pattern[1..]);
    }
  }

  function LineLength(s: string): (n: nat)
    ensures n <= |s|
  {
    if s == "" || s[0] == '\n' then 0 else 1 + LineLength(s[1..])
  }

  predicate Comment(s: string) {
    |s| > 1 && ((s[0] == '-' && s[1] == '-') || (s[0] == '/' && s[1] == '/'))
  }

  function OpLength(s: string): (n: nat)
    ensures n <= |s|
  {
    if s == "" then 0
    else if (s[0] == '<' && (Starts(s[1..], '=') || Starts(s[1..], '>')))
         || ((s[0] == '>' || s[0] == '!') && Starts(s[1..], '=')) then 2
    else if s[0] == '<' || s[0] == '>' || s[0] == '=' || s[0] == ';' then 1
    else 0
  }

  // The first token and its length; white space and comments are none. Of matches of one
  // length the earlier rule counts: comments, time stamps, strings, numbers, identifiers.
  function First(s: string): (r: (Option<Token>, nat))
    requires s != ""
    ensures 0 < r.1 <= |s|
  {
    if Comment(s) then (None, 2 + LineLength(s[2..]))
    else if Space(s[0]) then (None, 1)
    else if StampLength(s) > 0 && StampLength(s) >= StringLength(s) then
      (Some(Stamp(s[..StampLength(s)])), StampLength(s))
    else if StringLength(s) > 0 then (Some(Str(s[..StringLength(s)])), StringLength(s))
    else if NumLength(s) > 0 && NumLength(s) >= IdLength(s) then (Some(Num(s[..NumLength(s)])), NumLength(s))
    else if IdLength(s) > 0 then (Some(Id(s[..IdLength(s)])), IdLength(s))
    else if OpLength(s) > 0 then (Some(Op(s[..OpLength(s)])), OpLength(s))
    else (Some(Other(s[0])), 1)
  }

  function OneToken(t: Option<Token>): seq<Token> {
    if t.Some? then [t.value] else []
  }

  function Tokens(s: string): seq<Token>
    decreases |s|
  {
    if s == "" then [] else OneToken(First(s).0) + Tokens(s[First(s).1..])
  }

  // ---- two texts, one after the other ---------------------------------------

  // No token reaches from the one to the other.
  predicate Boundary(a: string, b: string) {
    a == "" || b == "" ||
    var d, c := a[|a| - 1], b[0];
    && !(d == QUOTE && c == QUOTE) && !(WordChar(d) && WordChar(c)) && !(d == '/' && c == '/')
    && !((d == '<' || d == '>' || d == '!') && (c == '=' || c == '>'))
  }

  // Every string ends, and every comment with its line.
  predicate Clean(s: string)
    decreases |s|
  {
    s == "" ||
    (&& (Comment(s) ==> 2 + LineLength(s[2..]) < |s|)
     && (s[0] == QUOTE ==> Closes(s[1..]))
     && Clean(s[First(s).1..]))
  }

  // What follows ends a word.
  predicate Stops(y: string) {
    y == "" || !WordChar(y[0])
  }

  lemma {:induction false} DigitsStop(x: string, y: string)
    requires Stops(y)
    ensures Digits(x + y) == Digits(x)
  {
    if x == "" {
      assert x + y == y;
    } else {
      assert (x + y)[1..] == x[1..] + y;
      DigitsStop(x[1..], y);
    }
  }

  lemma {:induction false} IdTailStops(x: string, y: string)
    requires Stops(y)
    ensures IdTail(x + y) == IdTail(x)
  {
    if x == "" {
      assert x + y == y;
    } else {
      assert (x + y)[1..] == x[1..] + y;
      IdTailStops(x[1..], y);
    }
  }

  lemma IdStops(x: string, y: string)
    requires Stops(y)
    ensures IdLength(x + y) == IdLength(x)
  {
    if x == "" {
      assert x + y == y;
    } else {
      assert (x + y)[1..] == x[1..] + y;
      IdTailStops(x[1..], y);
    }
  }

  // A text that follows changes nothing about how this one starts.
  lemma StartsStop(x: string, y: string, c: char)
    requires Stops(y) && WordChar(c)
    ensures Starts(x + y, c) <==> Starts(x, c)
  {
    if x == "" {
      assert x + y == y;
    }
  }

  lemma Rest(x: string, y: string, n: nat)
    requires n <= |x|
    ensures (x + y)[n..] == x[n..] + y
  {
  }

  lemma ExponentStops(x: string, y: string)
    requires Stops(y)
    ensures Exponent(x + y) == Exponent(x)
  {
    StartsStop(x, y, 'E');
    if Starts(x, 'E') {
      Rest(x, y, 1);
      StartsStop(x[1..], y, '+');
      StartsStop(x[1..], y, '-');
      var sign := if Starts(x[1..], '+') || Starts(x[1..], '-') then 1 else 0;
      Rest(x, y, 1 + sign);
      DigitsStop(x[1 + sign..], y);
    }
  }

  lemma UnsignedStops(x: string, y: string, signed: bool)
    requires Stops(y)
    ensures Unsigned(x + y, signed) == Unsigned(x, signed)
  {
    var d := Digits(x);
    DigitsStop(x, y);
    Rest(x, y, d);
    StartsStop(x[d..], y, '.');
    hide Exponent, Digits;
    if Starts(x[d..], '.') {
      Rest(x, y, d + 1);
      DigitsStop(x[d + 1..], y);
      var f := d + 1 + Digits(x[d + 1..]);
      Rest(x, y, f);
      ExponentStops(x[f..], y);
    } else {
      ExponentStops(x[d..], y);
    }
  }

  lemma NumStops(x: string, y: string)
    requires Stops(y)
    ensures NumLength(x + y) == NumLength(x)
  {
    hide Unsigned;
    StartsStop(x, y, '-');
    if Starts(x, '-') {
      Rest(x, y, 1);
      UnsignedStops(x[1..], y, true);
    } else {
      UnsignedStops(x, y, false);
    }
  }

  lemma NoWord(s: string)
    requires s != "" && !WordChar(s[0])
    ensures NumLength(s) == 0 && IdLength(s) == 0
  {
  }

  // Numbers and identifiers end where words do.
  lemma WordsStable(a: string, b: string)
    requires a != "" && Boundary(a, b)
    ensures NumLength(a + b) == NumLength(a) && IdLength(a + b) == IdLength(a)
  {
    hide NumLength, IdLength, WordChar;
    if !WordChar(a[0]) {
      NoWord(a);
      NoWord(a + b);
    } else if p :| 0 < p < |a| && !WordChar(a[p]) {
      var x, y := a[..p], a[p..];
      assert a == x + y && a + b == x + (y + b);
      NumStops(x, y);
      NumStops(x, y + b);
      IdStops(x, y);
      IdStops(x, y + b);
    } else if b == "" {
      assert a + b == a;
    } else {
      assert WordChar(a[|a| - 1]);
      NumStops(a, b);
      IdStops(a, b);
    }
  }

  lemma {:induction false} StringTailIs(s: string)
    requires Closes(s)
    ensures StringTail(s) == Inside(s) > 0
    decreases |s|
  {
    if s[0] != QUOTE {
      StringTailIs(s[1..]);
    } else if Starts(s[1..], QUOTE) {
      StringTailIs(s[2..]);
    }
  }

  // A string that ends is as long as before, with a text after it.
  lemma StringStable(a: string, b: string)
    requires Starts(a, QUOTE) && Closes(a[1..]) && (1 + Inside(a[1..]) == |a| ==> !Starts(b, QUOTE))
    ensures StringLength(a + b) == StringLength(a) == 1 + Inside(a[1..])
  {
    assert (a + b)[1..] == a[1..] + b;
    InsideConcat(a[1..], b);
    StringTailIs(a[1..]);
    StringTailIs(a[1..] + b);
  }

  lemma {:induction false} FitsPrefix(a: string, b: string, pattern: string)
    requires |pattern| <= |a|
    ensures Fits(a + b, pattern) <==> Fits(a, pattern)
  {
    if pattern != "" {
      assert (a + b)[1..] == a[1..] + b;
      FitsPrefix(a[1..], b, pattern[1..]);
    }
  }

  lemma {:induction false} FitsAt(s: string, pattern: string, i: nat)
    requires Fits(s, pattern) && i < |pattern|
    ensures |pattern| <= |s| && if pattern[i] == 'd' then Digit(s[i]) else s[i] == pattern[i]
  {
    FitsLength(s, pattern);
    if i > 0 {
      FitsAt(s[1..], pattern[1..], i - 1);
    }
  }

  lemma {:induction false} ClosesHasQuote(s: string)
    requires Closes(s)
    ensures exists i :: 0 <= i < |s| && s[i] == QUOTE
    decreases |s|
  {
    if s[0] != QUOTE {
      ClosesHasQuote(s[1..]);
      var i :| 0 <= i < |s[1..]| && s[1..][i] == QUOTE;
      assert s[i + 1] == QUOTE;
    }
  }

  lemma StampStable(a: string, b: string)
    requires Starts(a, QUOTE) && Closes(a[1..])
    ensures StampLength(a + b) == StampLength(a)
  {
    if |a| >= |STAMP| {
      FitsPrefix(a, b, STAMP);
    } else {
      FitsLength(a, STAMP);
      if Fits(a + b, STAMP) {
        ClosesHasQuote(a[1..]);
        var i :| 0 <= i < |a[1..]| && a[1..][i] == QUOTE;
        FitsAt(a + b, STAMP, i + 1);
        StampInside(i + 1);
        assert false;
      }
    }
  }

  // Between its quotes a time stamp has none.
  lemma StampInside(i: nat)
    requires 0 < i < |STAMP| - 1
    ensures STAMP[i] != QUOTE
  {
  }

  lemma NoString(s: string)
    requires !Starts(s, QUOTE)
    ensures StringLength(s) == 0 && StampLength(s) == 0
  {
    if Fits(s, STAMP) {
      FitsAt(s, STAMP, 0);
    }
  }

  lemma {:induction false} LineStable(s: string, b: string)
    requires LineLength(s) < |s|
    ensures LineLength(s + b) == LineLength(s)
  {
    assert s != "";
    if s[0] != '\n' {
      assert (s + b)[1..] == s[1..] + b;
      LineStable(s[1..], b);
    }
  }

  lemma OpStable(a: string, b: string)
    requires a != "" && Boundary(a, b)
    ensures OpLength(a + b) == OpLength(a)
  {
    if |a| > 1 {
      assert (a + b)[1..] == a[1..] + b;
    } else {
      assert a[1..] == "" && (a + b)[1..] == b;
    }
  }

  // The first token is the same with a text after it.
  lemma FirstStable(a: string, b: string)
    requires a != "" && Boundary(a, b)
    requires Comment(a) ==> 2 + LineLength(a[2..]) < |a|
    requires a[0] == QUOTE ==> Closes(a[1..])
    ensures First(a + b) == First(a)
  {
    hide NumLength, IdLength, OpLength, StringLength, StampLength, Closes, Inside;
    if Comment(a) {
      LineStable(a[2..], b);
      Rest(a, b, 2);
    } else {
      assert !Comment(a + b);
      if a[0] == QUOTE {
        InsideEnds(a[1..]);
        StringStable(a, b);
        StampStable(a, b);
        NoWordQuote(a, b);
      } else {
        NoString(a);
        NoString(a + b);
        WordsStable(a, b);
        OpStable(a, b);
      }
      forall n: nat | n <= |a| ensures (a + b)[..n] == a[..n] {
      }
    }
  }

  lemma NoWordQuote(a: string, b: string)
    requires Starts(a, QUOTE)
    ensures NumLength(a) == NumLength(a + b) == 0 && IdLength(a) == IdLength(a + b) == 0
  {
  }

  // Tokens of two texts that no token joins are those of each.
  lemma {:induction false} TokensConcat(a: string, b: string)
    requires Clean(a) && Boundary(a, b)
    ensures Tokens(a + b) == Tokens(a) + Tokens(b) && (Clean(a + b) <==> Clean(b))
    decreases |a|
  {
    hide First, Boundary, Tokens, Clean, Comment, Closes, LineLength;
    NoTokens();
    if a == "" {
      assert a + b == b;
    } else {
      CleanParts(a);
      var n, head := First(a).1, OneToken(First(a).0);
      FirstStable(a, b);
      Rest(a, b, n);
      BoundaryTail(a, b, n);
      TokensConcat(a[n..], b);
      CleanFirst(a, b);
      TokensFirst(a);
      TokensFirst(a + b);
      assert head + (Tokens(a[n..]) + Tokens(b)) == head + Tokens(a[n..]) + Tokens(b);
    }
  }

  lemma CleanParts(s: string)
    requires s != "" && Clean(s)
    ensures Comment(s) ==> 2 + LineLength(s[2..]) < |s|
    ensures s[0] == QUOTE ==> Closes(s[1..])
    ensures Clean(s[First(s).1..])
  {
  }

  lemma NoTokens()
    ensures Tokens("") == [] && Clean("")
  {
  }

  lemma TokensFirst(s: string)
    requires s != ""
    ensures Tokens(s) == OneToken(First(s).0) + Tokens(s[First(s).1..])
  {
  }

  lemma BoundaryTail(a: string, b: string, n: nat)
    requires n <= |a| && Boundary(a, b)
    ensures Boundary(a[n..], b)
  {
  }

  lemma CleanFirst(a: string, b: string)
    requires a != "" && Clean(a) && Boundary(a, b) && First(a + b) == First(a)
    ensures Clean(a + b) <==> Clean(a[First(a).1..] + b)
  {
    hide First;
    Rest(a, b, First(a).1);
    CommentStable(a, b);
    if a[0] == QUOTE {
      InsideEnds(a[1..]);
      InsideConcat(a[1..], b);
      Rest(a, b, 1);
    }
  }

  lemma CommentStable(a: string, b: string)
    requires a != "" && Boundary(a, b) && (Comment(a) ==> 2 + LineLength(a[2..]) < |a|)
    ensures Comment(a + b) <==> Comment(a)
    ensures Comment(a) ==> 2 + LineLength((a + b)[2..]) < |a + b|
  {
    if Comment(a) {
      LineStable(a[2..], b);
      Rest(a, b, 2);
    }
  }
}

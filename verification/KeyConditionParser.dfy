// The in-memory client reads a key condition back from its text: split at spaces,
// then predicate by predicate. It undoes what the tree printed.

module KeyConditionParser {
  import opened Values
  import opened Expressions
  import opened Splitting
  import opened Access
  import opened SingleItem
  import opened Symbols
  import opened Updates
  import opened Requests

  // ---- fields of a text -----------------------------------------------------

  predicate Separator(c: char) {
    c == ' ' || c == '(' || c == ')' || c == ','
  }

  function Normalized(s: string): string {
    seq(|s|, i requires 0 <= i < |s| => if Separator(s[i]) then ' ' else s[i])
  }

  // The runs of characters between spaces.
  function Fields(s: string): seq<string>
    decreases |s|
  {
    if s == "" then []
    else if s[0] == ' ' then Fields(s[1..])
    else
      var n := Find(s, ' ');
      [s[..n]] + Fields(s[n..])
  }

  lemma SkipSpace(s: string, i: nat)
    requires i < |s| && s[i] == ' '
    ensures Fields(s[i..]) == Fields(s[i + 1..])
  {
    assert s[i..][1..] == s[i + 1..];
  }

  lemma TakeField(s: string, start: nat, i: nat)
    requires start < i <= |s| && ' ' !in s[start..i] && (i == |s| || s[i] == ' ')
    ensures Fields(s[start..]) == [s[start..i]] + Fields(s[i..])
  {
    assert s[start..] == s[start..i] + s[i..] && s[start..][0] == s[start..i][0];
    FindConcat(s[start..i], s[i..], ' ');
    assert s[start..][..i - start] == s[start..i] && s[start..][i - start..] == s[i..];
  }

  method SplitFields(expr: string) returns (toks: seq<string>)
    ensures toks == Fields(Normalized(expr))
  {
    hide Fields, Separator;
    var norm := "";
    for j := 0 to |expr|
      invariant norm == Normalized(expr[..j])
    {
      norm := norm + [if Separator(expr[j]) then ' ' else expr[j]];
    }
    assert expr[..|expr|] == expr;
    toks := [];
    var i := 0;
    assert norm[0..] == norm;
    while i < |norm|
      invariant i <= |norm| && toks + Fields(norm[i..]) == Fields(norm)
    {
      while i < |norm| && norm[i] == ' '
        invariant i <= |norm| && toks + Fields(norm[i..]) == Fields(norm)
      {
        SkipSpace(norm, i);
        i := i + 1;
      }
      var start := i;
      while i < |norm| && norm[i] != ' '
        invariant start <= i <= |norm| && ' ' !in norm[start..i]
      {
        i := i + 1;
      }
      if i > start {
        TakeField(norm, start, i);
        toks := toks + [norm[start..i]];
      }
    }
    assert norm[i..] == "" && Fields("") == [] by { NoFields(); }
  }

  lemma NoFields()
    ensures Fields("") == []
  {
  }

  // Two texts with a space between them, on either side, are split one by one.
  lemma {:induction false} FieldsConcat(a: string, b: string)
    requires a == "" || b == "" || a[|a| - 1] == ' ' || b[0] == ' '
    ensures Fields(a + b) == Fields(a) + Fields(b)
    decreases |a|
  {
    NoFields();
    hide Fields;
    if a == "" || b == "" {
      assert a + b == if a == "" then b else a;
    } else if a[0] == ' ' {
      SkipSpace(a + b, 0);
      SkipSpace(a, 0);
      assert (a + b)[0..] == a + b && a[0..] == a && (a + b)[1..] == a[1..] + b;
      FieldsConcat(a[1..], b);
    } else {
      var n := Find(a, ' ');
      FindFirst(a, ' ');
      assert (a + b)[0..n] == a[0..n] == a[..n] && (a + b)[n..] == a[n..] + b && (a + b)[0..] == a + b && a[0..] == a;
      TakeField(a + b, 0, n);
      TakeField(a, 0, n);
      FieldsConcat(a[n..], b);
    }
  }

  // ---- the spelling of an aliased text --------------------------------------

  function SpellTok(t: Tok<string>): string {
    match t
    case Word(text) => text
    case Attr(token) => token
    case Operand(token) => token
  }

  function Spell(text: Aliased): string {
    if text == [] then "" else SpellTok(text[0]) + Spell(text[1..])
  }

  predicate OpenRight<V>(t: Tok<V>) {
    t.Word? && t.text != "" && Separator(t.text[|t.text| - 1])
  }

  predicate OpenLeft<V>(t: Tok<V>) {
    t.Word? && t.text != "" && Separator(t.text[0])
  }

  // Neighbours are kept apart, and nothing is empty.
  predicate Spaced<V(!new)>(text: seq<Tok<V>>) {
    && (forall i | 0 <= i < |text| :: text[i].Word? ==> text[i].text != "")
    && (forall i | 1 <= i < |text| :: OpenRight(text[i - 1]) || OpenLeft(text[i]))
  }

  lemma SpacedConcat<V(!new)>(a: seq<Tok<V>>, b: seq<Tok<V>>)
    requires Spaced(a) && Spaced(b)
    requires a == [] || b == [] || OpenRight(a[|a| - 1]) || OpenLeft(b[0])
    ensures Spaced(a + b)
  {
    forall i | 1 <= i < |a + b| ensures OpenRight((a + b)[i - 1]) || OpenLeft((a + b)[i]) {
      if i > |a| {
        assert OpenRight(b[i - |a| - 1]) || OpenLeft(b[i - |a|]);
      }
    }
  }

  // Tokens: a mark, then no separator.
  predicate Token(t: string, mark: char) {
    t != "" && t[0] == mark && !Separator(mark) && forall i | 0 <= i < |t| :: !Separator(t[i])
  }

  predicate CleanTables(names: map<string, string>, values: map<string, Value>) {
    (forall t | t in names :: Token(t, '#')) && (forall t | t in values :: Token(t, ':'))
  }

  predicate Clean(t: Tok<string>) {
    match t
    case Word(_) => true
    case Attr(token) => Token(token, '#')
    case Operand(token) => Token(token, ':')
  }

  function TokFields(t: Tok<string>): seq<string> {
    if t.Word? then Fields(Normalized(t.text)) else [SpellTok(t)]
  }

  function TextFields(text: Aliased): seq<string> {
    if text == [] then [] else TokFields(text[0]) + TextFields(text[1..])
  }

  lemma {:induction false} TextFieldsConcat(a: Aliased, b: Aliased)
    ensures TextFields(a + b) == TextFields(a) + TextFields(b)
  {
    if a == [] {
      assert a + b == b;
    } else {
      assert (a + b)[0] == a[0] && (a + b)[1..] == a[1..] + b;
      TextFieldsConcat(a[1..], b);
    }
  }

  lemma {:induction false} NoSpaces(s: string)
    requires s != "" && forall i | 0 <= i < |s| :: !Separator(s[i])
    ensures Normalized(s) == s && Fields(s) == [s]
  {
    assert ' ' !in s;
    FindConcat(s, "", ' ');
    assert s + "" == s && s[..|s|] == s && s[|s|..] == "";
  }

  lemma SpellHead(text: Aliased)
    requires text != [] && Spaced(text) && forall t | t in text :: Clean(t)
    ensures SpellTok(text[0]) != "" && Spell(text) != "" && Spell(text)[0] == SpellTok(text[0])[0]
  {
    assert text[0] in text;
  }

  lemma NormalizedConcat(a: string, b: string)
    ensures Normalized(a + b) == Normalized(a) + Normalized(b)
  {
  }

  lemma KeptApart(x: Tok<string>, y: Tok<string>, rest: string)
    requires OpenRight(x) || OpenLeft(y)
    requires SpellTok(x) != "" && SpellTok(y) != "" && rest != "" && rest[0] == SpellTok(y)[0]
    ensures var a, b := Normalized(SpellTok(x)), Normalized(rest);
            a != "" && b != "" && (a[|a| - 1] == ' ' || b[0] == ' ')
  {
  }

  lemma RestKeptApart(text: Aliased)
    requires |text| > 1 && Spaced(text) && forall t | t in text :: Clean(t)
    ensures var a, b := Normalized(SpellTok(text[0])), Normalized(Spell(text[1..]));
            a != "" && b != "" && (a[|a| - 1] == ' ' || b[0] == ' ')
  {
    assert OpenRight(text[1 - 1]) || OpenLeft(text[1]);
    SpellHead(text);
    TailSpaced(text);
    SpellHead(text[1..]);
    hide Spaced, Clean, Spell, OpenRight, OpenLeft;
    KeptApart(text[0], text[1], Spell(text[1..]));
  }

  lemma SplitAfterFirst(text: Aliased)
    requires text != [] && Spaced(text) && forall t | t in text :: Clean(t)
    ensures Fields(Normalized(Spell(text))) ==
            Fields(Normalized(SpellTok(text[0]))) + Fields(Normalized(Spell(text[1..])))
  {
    hide Spaced, Clean, Fields, Normalized, Spell;
    if |text| > 1 {
      RestKeptApart(text);
    } else {
      NothingSpelled();
      assert text[1..] == [];
    }
    SpellFirst(text);
    NormalizedConcat(SpellTok(text[0]), Spell(text[1..]));
    FieldsConcat(Normalized(SpellTok(text[0])), Normalized(Spell(text[1..])));
  }

  lemma SpellFirst(text: Aliased)
    requires text != []
    ensures Spell(text) == SpellTok(text[0]) + Spell(text[1..])
  {
  }

  lemma NothingSpelled()
    ensures Spell([]) == Normalized("") == ""
  {
  }

  lemma TailSpaced(text: Aliased)
    requires text != [] && Spaced(text) && forall t | t in text :: Clean(t)
    ensures Spaced(text[1..]) && forall t | t in text[1..] :: Clean(t)
  {
    var rest := text[1..];
    assert forall i | 1 <= i < |rest| :: rest[i - 1] == text[i] && rest[i] == text[i + 1];
  }

  // A text whose pieces are kept apart is split into the fields of its pieces.
  lemma {:induction false} SpelledFields(text: Aliased)
    requires Spaced(text) && forall t | t in text :: Clean(t)
    ensures Fields(Normalized(Spell(text))) == TextFields(text)
  {
    if text != [] {
      TailSpaced(text);
      SpelledFields(text[1..]);
      SplitAfterFirst(text);
      if !text[0].Word? {
        assert text[0] in text;
        NoSpaces(SpellTok(text[0]));
      }
    }
  }

  // ---- the predicates of the fields -----------------------------------------

  datatype KeyPred = KeyPred(attr: string, op: string, v1: Value, v2: Value)

  function ResolveName(names: map<string, string>, tok: string): string {
    if tok in names then names[tok] else if tok == "" || tok[0] != '#' then tok else tok[1..]
  }

  function ResolveValue(values: map<string, Value>, tok: string): Value {
    if tok in values then values[tok] else Null
  }

  function Upper(s: string): string {
    seq(|s|, i requires 0 <= i < |s| =>
      if 'a' <= s[i] <= 'z' then ((s[i] as int - 'a' as int) + 'A' as int) as char else s[i])
  }

  // The predicate that starts here, if one does, and the number of fields it takes.
  function ParseOne(toks: seq<string>, names: map<string, string>, values: map<string, Value>): (r: (seq<KeyPred>, nat))
    requires toks != []
    ensures 0 < r.1 <= |toks|
  {
    if Upper(toks[0]) == "AND" then ([], 1)
    else if toks[0] == "begins_with" && |toks| > 2 then
      ([KeyPred(ResolveName(names, toks[1]), "begins_with", ResolveValue(values, toks[2]), Null)], 3)
    else if |toks| > 4 && Upper(toks[1]) == "BETWEEN" then
      var low, high := ResolveValue(values, toks[2]), ResolveValue(values, toks[4]);
      ([KeyPred(ResolveName(names, toks[0]), "between", low, high)], 5)
    else if |toks| > 2 then ([KeyPred(ResolveName(names, toks[0]), toks[1], ResolveValue(values, toks[2]), Null)], 3)
    else ([], 1)
  }

  function ParseFields(toks: seq<string>, names: map<string, string>, values: map<string, Value>): seq<KeyPred> {
    if toks == [] then []
    else
      var one := ParseOne(toks, names, values);
      one.0 + ParseFields(toks[one.1..], names, values)
  }

  lemma ParseStep(toks: seq<string>, t: nat, names: map<string, string>, values: map<string, Value>)
    requires t < |toks|
    ensures var one := ParseOne(toks[t..], names, values);
            && t + one.1 <= |toks|
            && ParseFields(toks[t..], names, values) == one.0 + ParseFields(toks[t + one.1..], names, values)
  {
    var one := ParseOne(toks[t..], names, values);
    assert toks[t..][one.1..] == toks[t + one.1..];
  }

  method ParseKeyCondition(expr: string, names: map<string, string>,
                           values: map<string, Value>) returns (preds: seq<KeyPred>)
    ensures preds == ParseFields(Fields(Normalized(expr)), names, values)
  {
    hide Fields, Normalized, Upper, ParseFields;
    var toks := SplitFields(expr);
    preds := [];
    var t := 0;
    assert toks[0..] == toks;
    while t < |toks|
      invariant t <= |toks|
      invariant preds + ParseFields(toks[t..], names, values) == ParseFields(toks, names, values)
    {
      ParseStep(toks, t, names, values);
      if Upper(toks[t]) == "AND" {
        t := t + 1;
        continue;
      }
      if toks[t] == "begins_with" && t + 2 < |toks| {
        preds := preds +
          [KeyPred(ResolveName(names, toks[t + 1]), "begins_with", ResolveValue(values, toks[t + 2]), Null)];
        t := t + 3;
        continue;
      }
      if t + 1 < |toks| {
        var attr, op := ResolveName(names, toks[t]), toks[t + 1];
        if Upper(op) == "BETWEEN" && t + 4 < |toks| {
          preds := preds +
            [KeyPred(attr, "between", ResolveValue(values, toks[t + 2]), ResolveValue(values, toks[t + 4]))];
          t := t + 5;
          continue;
        }
        if t + 2 < |toks| {
          preds := preds + [KeyPred(attr, op, ResolveValue(values, toks[t + 2]), Null)];
          t := t + 3;
          continue;
        }
      }
      t := t + 1;
    }
    assert toks[t..] == [] && ParseFields([], names, values) == [] by { NothingParsed(names, values); }
  }

  lemma NothingParsed(names: map<string, string>, values: map<string, Value>)
    ensures ParseFields([], names, values) == []
  {
  }

  // ---- the words of a key condition -----------------------------------------

  function OpLexeme(op: CompareOp): string {
    match op
    case Eq => "="
    case Ne => "<>"
    case Lt => "<"
    case Le => "<="
    case Gt => ">"
    case Ge => ">="
  }

  lemma OneField(before: string, word: string, after: string)
    requires word != "" && forall i | 0 <= i < |word| :: !Separator(word[i])
    requires (before == "" || before == " ") && (after == "" || after == " " || after == "(")
    ensures Fields(Normalized(before + word + after)) == [word]
  {
    NormalizedConcat(before + word, after);
    NormalizedConcat(before, word);
    NoSpaces(word);
    assert Normalized(after) == "" || Normalized(after) == " ";
    assert Normalized(before) == "" || Normalized(before) == " ";
    OnlySpace();
    FieldsConcat(Normalized(before), word);
    FieldsConcat(Normalized(before) + word, Normalized(after));
    assert [] + [word] + [] == [word];
  }

  lemma OnlySpace()
    ensures Fields("") == [] && Fields(" ") == []
    ensures Fields("  ") == []
  {
    assert " "[1..] == "" && "  "[1..] == " ";
  }

  lemma WordFields()
    ensures TokFields(Word(AND)) == ["AND"]
    ensures TokFields(Word(" BETWEEN ")) == ["BETWEEN"]
    ensures TokFields(Word("begins_with(")) == ["begins_with"]
    ensures TokFields(Word(", ")) == [] && TokFields(Word("(")) == [] && TokFields(Word(")")) == []
  {
    hide Fields, Normalized;
    OneField(" ", "AND", " ");
    OneField(" ", "BETWEEN", " ");
    OneField("", "begins_with", "(");
    assert " " + "AND" + " " == AND;
    assert " " + "BETWEEN" + " " == " BETWEEN ";
    assert "" + "begins_with" + "(" == "begins_with(";
    OnlySpace();
    PunctuationIsSpace();
  }

  lemma PunctuationIsSpace()
    ensures Normalized(", ") == "  " && Normalized("(") == " " && Normalized(")") == " "
  {
  }

  lemma OpFields(op: CompareOp)
    ensures TokFields(Word(OpText(op))) == [OpLexeme(op)]
    ensures Upper(OpLexeme(op)) != "BETWEEN"
  {
    OneField(" ", OpLexeme(op), " ");
    assert " " + OpLexeme(op) + " " == OpText(op);
    assert |Upper(OpLexeme(op))| == |OpLexeme(op)| <= 2;
  }

  // ---- aliased texts --------------------------------------------------------

  // A conjunction of comparisons, BETWEENs and begins_withs, none of it negated.
  predicate Conjunction(e: Expr) {
    match e
    case Leaf(negated, _, pred) => !negated && Rangeable(pred)
    case And(negated, _, kids) => !negated && forall k | k in kids :: Conjunction(k)
    case Or(_, _, _) => false
  }

  predicate SimpleName(path: string) {
    '.' !in path && '[' !in path
  }

  predicate SimpleTok(t: Tok<Value>) {
    t.Attr? ==> SimpleName(t.path)
  }

  // Token by token, with their meanings in the tables.
  predicate Aligned(enc: Aliased, raw: Text, names: map<string, string>, values: map<string, Value>) {
    |enc| == |raw| && forall i | 0 <= i < |enc| :: DecodeTok(enc[i], names, values) == Some(raw[i])
  }

  lemma {:induction false} DecodeAligned(enc: Aliased, raw: Text, names: map<string, string>,
                                         values: map<string, Value>)
    requires Decode(enc, names, values) == Some(raw)
    ensures Aligned(enc, raw, names, values)
  {
    if enc != [] {
      DecodeAligned(enc[1..], raw[1..], names, values);
      forall i | 0 <= i < |enc| ensures DecodeTok(enc[i], names, values) == Some(raw[i]) {
        if i > 0 {
          assert enc[i] == enc[1..][i - 1] && raw[i] == raw[1..][i - 1];
        }
      }
    }
  }

  // The dots and brackets of a token are those of its path.
  lemma DottedToken(names: map<string, string>, token: string)
    requires DecodePath(names, token).Some?
    ensures var path := DecodePath(names, token).value;
            '.' in path || '[' in path || (token in names && names[token] == path)
  {
    var path := DecodePath(names, token).value;
    var d, b := Find(token, '.'), Find(token, '[');
    FindFirst(token, '.');
    FindFirst(token, '[');
    if d < |token| {
      var head := DecodeSegment(names, token[..d]).value;
      assert path[|head|] == '.';
    } else {
      assert token[..d] == token;
      if b < |token| {
        assert path[|names[token[..b]]|] == '[';
      } else {
        assert token[..b] == token && token[b..] == "" && path == names[token] + "";
      }
    }
  }

  // A token in place of a simple name or a value: clean, and resolved to it.
  lemma TokResolves(t: Tok<string>, raw: Tok<Value>, names: map<string, string>, values: map<string, Value>)
    requires DecodeTok(t, names, values) == Some(raw) && SimpleTok(raw) && CleanTables(names, values)
    ensures Clean(t) && (t.Word? <==> raw.Word?) && (t.Word? ==> t.text == raw.text)
    ensures raw.Attr? ==> t.Attr? && TokFields(t) == [t.path] && ResolveName(names, t.path) == raw.path
    ensures raw.Operand? ==> t.Operand? && TokFields(t) == [t.operand] && ResolveValue(values, t.operand) == raw.operand
  {
    if t.Attr? {
      DottedToken(names, t.path);
    }
  }

  lemma AlignedSpaced(enc: Aliased, raw: Text, names: map<string, string>, values: map<string, Value>)
    requires Aligned(enc, raw, names, values) && CleanTables(names, values)
    requires Spaced(raw) && forall t | t in raw :: SimpleTok(t)
    ensures Spaced(enc) && forall t | t in enc :: Clean(t)
  {
    hide DecodeTok, CleanTables, SimpleTok, Clean;
    forall i | 0 <= i < |enc|
      ensures Clean(enc[i]) && (enc[i].Word? <==> raw[i].Word?) && (enc[i].Word? ==> enc[i].text == raw[i].text)
    {
      assert raw[i] in raw;
      TokResolves(enc[i], raw[i], names, values);
    }
    forall i | 1 <= i < |enc| ensures OpenRight(enc[i - 1]) || OpenLeft(enc[i]) {
      assert OpenRight(raw[i - 1]) || OpenLeft(raw[i]);
    }
  }

  // ---- what a tree prints is read back --------------------------------------

  function AsKeyPred(p: Pred): KeyPred {
    match p
    case Comparison(lhs, op, rhs) => KeyPred(lhs, OpLexeme(op), rhs, Null)
    case Between(lhs, lo, hi) => KeyPred(lhs, "between", lo, hi)
    case BeginsWith(lhs, prefix) => KeyPred(lhs, "begins_with", prefix, Null)
    case _ => KeyPred(p.lhs, "", Null, Null)
  }

  function KeyPreds(os: seq<Occ>): seq<KeyPred> {
    seq(|os|, i requires 0 <= i < |os| => AsKeyPred(os[i].pred))
  }

  lemma NotAKeyword(t: string)
    requires Token(t, '#')
    ensures Upper(t) != "AND" && t != "begins_with"
  {
    assert Upper(t)[0] == '#' && "AND"[0] == 'A' && "begins_with"[0] == 'b';
  }

  lemma Keywords()
    ensures Upper("AND") == "AND" && Upper("BETWEEN") == "BETWEEN" && Upper("begins_with") != "AND"
  {
    assert |Upper("begins_with")| == 11;
  }

  lemma ThreeFields(enc: Aliased)
    requires |enc| == 3
    ensures TextFields(enc) == TokFields(enc[0]) + TokFields(enc[1]) + TokFields(enc[2])
  {
    hide TokFields;
    assert enc[1..][1..] == enc[2..] && enc[2..][1..] == [] && TextFields(enc[2..]) == TokFields(enc[2]) + [];
  }

  lemma FiveFields(enc: Aliased)
    requires |enc| == 5
    ensures TextFields(enc) ==
            TokFields(enc[0]) + TokFields(enc[1]) + TokFields(enc[2]) + TokFields(enc[3]) + TokFields(enc[4])
  {
    hide TokFields;
    assert enc == enc[..2] + enc[2..] && enc[..2][1..] == [enc[1]] && TextFields([enc[1]]) == TokFields(enc[1]) + [];
    TextFieldsConcat(enc[..2], enc[2..]);
    ThreeFields(enc[2..]);
  }

  lemma ThreeParse(a: string, b: string, c: string, rest: seq<string>, names: map<string, string>,
                   values: map<string, Value>)
    requires (Token(a, '#') && Upper(b) != "BETWEEN") || a == "begins_with"
    ensures ParseFields([a, b, c] + rest, names, values) ==
            [if a == "begins_with" then KeyPred(ResolveName(names, b), "begins_with", ResolveValue(values, c), Null)
             else KeyPred(ResolveName(names, a), b, ResolveValue(values, c), Null)]
            + ParseFields(rest, names, values)
  {
    Keywords();
    if a != "begins_with" {
      NotAKeyword(a);
    }
    hide Upper, ParseFields;
    var toks := [a, b, c] + rest;
    ParseStep(toks, 0, names, values);
    assert toks[0..] == toks && toks[3..] == rest;
  }

  lemma FiveParse(a: string, b: string, c: string, rest: seq<string>, names: map<string, string>,
                  values: map<string, Value>)
    requires Token(a, '#')
    ensures ParseFields([a, "BETWEEN", b, "AND", c] + rest, names, values) ==
            [KeyPred(ResolveName(names, a), "between", ResolveValue(values, b), ResolveValue(values, c))]
            + ParseFields(rest, names, values)
  {
    Keywords();
    NotAKeyword(a);
    hide Upper, ParseFields;
    var toks := [a, "BETWEEN", b, "AND", c] + rest;
    ParseStep(toks, 0, names, values);
    assert toks[0..] == toks && toks[5..] == rest;
  }

  lemma LeafParses(p: Pred, enc: Aliased, rest: seq<string>, names: map<string, string>, values: map<string, Value>)
    requires Rangeable(p) && SimpleName(p.lhs) && Aligned(enc, PredText(p), names, values) && CleanTables(names, values)
    ensures ParseFields(TextFields(enc) + rest, names, values) == [AsKeyPred(p)] + ParseFields(rest, names, values)
  {
    hide DecodeTok, Fields, Normalized, Upper, CleanTables, TokFields, TextFields, ParseFields;
    var raw := PredText(p);
    WordFields();
    TokResolves(enc[0], raw[0], names, values);
    TokResolves(enc[1], raw[1], names, values);
    TokResolves(enc[2], raw[2], names, values);
    if p.Comparison? {
      OpFields(p.op);
      ThreeFields(enc);
      assert TextFields(enc) == [enc[0].path, OpLexeme(p.op), enc[2].operand];
      ThreeParse(enc[0].path, OpLexeme(p.op), enc[2].operand, rest, names, values);
    } else {
      TokResolves(enc[3], raw[3], names, values);
      TokResolves(enc[4], raw[4], names, values);
      FiveFields(enc);
      if p.Between? {
        assert TextFields(enc) == [enc[0].path, "BETWEEN", enc[2].operand, "AND", enc[4].operand];
        FiveParse(enc[0].path, enc[2].operand, enc[4].operand, rest, names, values);
      } else {
        assert TextFields(enc) == ["begins_with", enc[1].path, enc[3].operand];
        ThreeParse("begins_with", enc[1].path, enc[3].operand, rest, names, values);
      }
    }
  }

  predicate SimpleNames(e: Expr) {
    forall p | p in Preds(e) :: SimpleName(p.lhs)
  }

  lemma AlignedPart(enc: Aliased, raw: Text, names: map<string, string>, values: map<string, Value>, i: nat, j: nat)
    requires Aligned(enc, raw, names, values) && i <= j <= |raw|
    ensures Aligned(enc[i..j], raw[i..j], names, values)
  {
    hide DecodeTok;
    forall k | 0 <= k < j - i ensures DecodeTok(enc[i..j][k], names, values) == Some(raw[i..j][k]) {
      assert enc[i..j][k] == enc[i + k] && raw[i..j][k] == raw[i + k];
    }
  }

  lemma WordAligned(enc: Aliased, text: string, names: map<string, string>, values: map<string, Value>)
    requires Aligned(enc, [Word(text)], names, values)
    ensures TextFields(enc) == TokFields(Word(text))
  {
    assert DecodeTok(enc[0], names, values) == Some(Word(text));
    assert enc == [enc[0]] && enc[1..] == [] && TextFields(enc[1..]) == [];
  }

  lemma KeyPredsConcat(a: seq<Occ>, b: seq<Occ>)
    ensures KeyPreds(a + b) == KeyPreds(a) + KeyPreds(b)
  {
  }

  lemma AndParses(rest: seq<string>, names: map<string, string>, values: map<string, Value>)
    ensures ParseFields(["AND"] + rest, names, values) == ParseFields(rest, names, values)
  {
    Keywords();
    hide Upper;
    assert (["AND"] + rest)[1..] == rest;
    assert [] + ParseFields(rest, names, values) == ParseFields(rest, names, values);
  }

  lemma {:induction false} TreeParses(e: Expr, enc: Aliased, rest: seq<string>, names: map<string, string>,
                                      values: map<string, Value>)
    requires Conjunction(e) && Arity(e, 1) && SimpleNames(e) && Aligned(enc, Print(e), names, values)
             && CleanTables(names, values)
    ensures ParseFields(TextFields(enc) + rest, names, values) ==
            KeyPreds(Occs(e, true)) + ParseFields(rest, names, values)
    decreases e, 1
  {
    hide TextFields, ParseFields, Aligned, CleanTables, TokFields, SimpleName;
    if e.Leaf? {
      LeafParses(e.pred, enc, rest, names, values);
      assert KeyPreds(Occs(e, true)) == [AsKeyPred(e.pred)];
    } else {
      KidNames(e);
      var inner := PrintJoined(e.kids, AND);
      if e.parens {
        var raw := Print(e);
        var n := |raw|;
        assert raw[0..1] == [Word("(")] && raw[1..n - 1] == inner && raw[n - 1..n] == [Word(")")];
        AlignedParts(enc, raw, names, values, 1, n - 1);
        WordAligned(enc[0..1], "(", names, values);
        WordAligned(enc[n - 1..n], ")", names, values);
        WordFields();
        ThreeParts(enc, 1, n - 1);
        KidsParse(e.kids, enc[1..n - 1], rest, names, values);
        assert [] + TextFields(enc[1..n - 1]) + [] == TextFields(enc[1..n - 1]);
      } else {
        KidsParse(e.kids, enc, rest, names, values);
      }
    }
  }

  lemma AlignedParts(enc: Aliased, raw: Text, names: map<string, string>, values: map<string, Value>, i: nat, j: nat)
    requires Aligned(enc, raw, names, values) && i <= j <= |raw|
    ensures |enc| == |raw|
    ensures Aligned(enc[0..i], raw[0..i], names, values) && Aligned(enc[i..j], raw[i..j], names, values)
    ensures Aligned(enc[j..|raw|], raw[j..|raw|], names, values)
  {
    AlignedPart(enc, raw, names, values, 0, i);
    AlignedPart(enc, raw, names, values, i, j);
    AlignedPart(enc, raw, names, values, j, |raw|);
  }

  lemma {:induction false} TextFieldsSplit(enc: Aliased, i: nat)
    requires i <= |enc|
    ensures TextFields(enc) == TextFields(enc[..i]) + TextFields(enc[i..])
  {
    assert enc[..i] + enc[i..] == enc;
    TextFieldsConcat(enc[..i], enc[i..]);
  }

  lemma ThreeParts(enc: Aliased, i: nat, j: nat)
    requires i <= j <= |enc|
    ensures TextFields(enc) == TextFields(enc[0..i]) + TextFields(enc[i..j]) + TextFields(enc[j..|enc|])
  {
    hide TextFields;
    TextFieldsSplit(enc, j);
    assert enc[j..] == enc[j..|enc|];
    var front := enc[..j];
    TextFieldsSplit(front, i);
    assert front[..i] == enc[0..i] && front[i..] == enc[i..j];
  }

  lemma KidNames(e: Expr)
    requires !e.Leaf? && SimpleNames(e)
    ensures forall k | k in e.kids :: SimpleNames(k)
  {
  }

  lemma {:induction false} KidsParse(kids: seq<Expr>, enc: Aliased, rest: seq<string>, names: map<string, string>,
                                     values: map<string, Value>)
    requires kids != [] && forall k | k in kids :: Conjunction(k) && Arity(k, 1) && SimpleNames(k)
    requires Aligned(enc, PrintJoined(kids, AND), names, values) && CleanTables(names, values)
    ensures ParseFields(TextFields(enc) + rest, names, values) ==
            KeyPreds(OccsOf(kids, true)) + ParseFields(rest, names, values)
    decreases kids, 0
  {
    hide TextFields, ParseFields, Aligned, CleanTables, TokFields, SimpleNames, Conjunction, Arity, Print, Occs;
    var first, more := kids[0], kids[1..];
    KeyPredsConcat(Occs(first, true), OccsOf(more, true));
    if more == [] {
      TreeParses(first, enc, rest, names, values);
      assert Occs(first, true) + [] == Occs(first, true);
    } else {
      var raw := PrintJoined(kids, AND);
      var n := |Print(first)|;
      assert raw[0..n] == Print(first) && raw[n..n + 1] == [Word(AND)] && raw[n + 1..|raw|] == PrintJoined(more, AND);
      AlignedParts(enc, raw, names, values, n, n + 1);
      WordAligned(enc[n..n + 1], AND, names, values);
      WordFields();
      ThreeParts(enc, n, n + 1);
      var later := TextFields(enc[n + 1..|enc|]) + rest;
      assert TextFields(enc) + rest == TextFields(enc[0..n]) + (["AND"] + later);
      TreeParses(first, enc[0..n], ["AND"] + later, names, values);
      AndParses(later, names, values);
      KidsParse(more, enc[n + 1..|enc|], rest, names, values);
      assert KeyPreds(Occs(first, true)) + (KeyPreds(OccsOf(more, true)) + ParseFields(rest, names, values))
          == KeyPreds(Occs(first, true)) + KeyPreds(OccsOf(more, true)) + ParseFields(rest, names, values);
    }
  }

  lemma {:induction false} TreeSpaced(e: Expr)
    requires Conjunction(e) && Arity(e, 1) && SimpleNames(e)
    ensures Spaced(Print(e)) && forall t | t in Print(e) :: SimpleTok(t)
    decreases e, 1
  {
    if e.Leaf? {
      PredSpaced(e.pred);
    } else {
      KidNames(e);
      KidsSpaced(e.kids);
      hide SimpleTok, SimpleNames, Preds, Arity, Conjunction;
      var inner := PrintJoined(e.kids, AND);
      if e.parens {
        var open: Text, close: Text := [Word("(")], [Word(")")];
        hide Print, PrintJoined;
        SpacedConcat(open, inner);
        ParensOpen(open[0], close[0]);
        SpacedConcat(open + inner, close);
      }
    }
  }

  lemma {:induction false} KidsSpaced(kids: seq<Expr>)
    requires kids != [] && forall k | k in kids :: Conjunction(k) && Arity(k, 1) && SimpleNames(k)
    ensures Spaced(PrintJoined(kids, AND)) && forall t | t in PrintJoined(kids, AND) :: SimpleTok(t)
    decreases kids, 0
  {
    hide Conjunction, Arity, SimpleNames, Print, SimpleTok;
    TreeSpaced(kids[0]);
    if |kids| > 1 {
      var and: Text := [Word(AND)];
      KidsSpaced(kids[1..]);
      AndIsOpen(and[0]);
      SpacedConcat(Print(kids[0]), and);
      SpacedConcat(Print(kids[0]) + and, PrintJoined(kids[1..], AND));
    }
  }

  lemma PredSpaced(p: Pred)
    requires Rangeable(p) && SimpleName(p.lhs)
    ensures Spaced(PredText(p)) && forall t | t in PredText(p) :: SimpleTok(t)
  {
  }

  lemma ParensOpen(open: Tok<Value>, close: Tok<Value>)
    requires open == Word("(") && close == Word(")")
    ensures OpenRight(open) && OpenLeft(close) && SimpleTok(open) && SimpleTok(close)
  {
  }

  lemma AndIsOpen(t: Tok<Value>)
    requires t == Word(AND)
    ensures OpenLeft(t) && OpenRight(t) && SimpleTok(t)
  {
  }

  // ---- the key condition of a plan ------------------------------------------

  // What the client needs of a clause: key names it can resolve, no NOT around a key
  // predicate, something for the key in every group.
  predicate Parsable(e: Expr, pk: seq<string>, sk: seq<string>) {
    && (forall a | a in pk + sk :: SimpleName(a))
    && Touches(e, KeyCondition(pk, sk))
    && GroupsTouch(e, KeyCondition(pk, sk))
    && NegationsAvoid(e, KeyCondition(pk, sk))
    && (forall o | o in Occs(e, true) && (o.pred.lhs in pk || o.pred.lhs in sk) :: !o.negated)
  }

  lemma {:induction false} KeyPartIsConjunction(e: Expr, pk: seq<string>, sk: seq<string>)
    requires NegationsAvoid(e, KeyCondition(pk, sk)) && Solid(Prune(e, KeyCondition(pk, sk)))
    requires forall o | o in Occs(e, true) && (o.pred.lhs in pk || o.pred.lhs in sk) :: !o.negated
    requires Prune(e, KeyCondition(pk, sk)).Some?
    ensures Conjunction(Prune(e, KeyCondition(pk, sk)).value)
    ensures forall p | p in Preds(Prune(e, KeyCondition(pk, sk)).value) :: p.lhs in pk + sk
  {
    var key := KeyCondition(pk, sk);
    PrunedIffTouched(e, key);
    if e.Leaf? {
      assert Occs(e, true)[0] in Occs(e, true);
    } else if e.And? {
      forall x | x in PruneAll(e.kids, key) ensures Conjunction(x) && forall p | p in Preds(x) :: p.lhs in pk + sk {
        var k := PruneAllSource(e.kids, key, x);
        SolidKid(e, key, k);
        KidOccs(e.kids, k, true);
        KeyPartIsConjunction(k, pk, sk);
      }
    }
  }

  // Reading the text of a planned key condition gives the predicates on key
  // attributes, each once, in the order of the clause, with their real names and values.
  lemma KeyConditionParses(e: Expr, pk: seq<string>, rk: seq<string>, n: nat, enc: Aliased, names: map<string, string>,
                           values: map<string, Value>)
    requires Arity(e, 2) && QueryRule(Occs(e, true), pk, rk, n) && Parsable(e, pk, rk[..n])
    requires Decode(enc, names, values) == Some(PrintOption(Prune(e, KeyCondition(pk, rk[..n]))))
             && CleanTables(names, values)
    ensures ParseFields(Fields(Normalized(Spell(enc))), names, values)
            == KeyPreds(Mentioning(Occs(e, true), pk, rk[..n], true))
  {
    hide ParseFields, Fields, Normalized, Spell, TextFields, Spaced, Clean, CleanTables, Mentioning, Aligned;
    ArityWeaken(e);
    SolidExactly(e, KeyCondition(pk, rk[..n]));
    PrunedIffTouched(e, KeyCondition(pk, rk[..n]));
    var part := Prune(e, KeyCondition(pk, rk[..n])).value;
    KeyPartIsConjunction(e, pk, rk[..n]);
    DecodeAligned(enc, Print(part), names, values);
    TreeSpaced(part);
    AlignedSpaced(enc, Print(part), names, values);
    SpelledFields(enc);
    TreeParses(part, enc, [], names, values);
    assert TextFields(enc) + [] == TextFields(enc);
    NothingParsed(names, values);
    LeafConservation(e, pk, rk, n);
    var os := Occs(part, true);
    assert KeyPreds(os) + [] == KeyPreds(os);
  }

  // The tables of a request whose prefix is letters are clean.
  lemma {:induction false} NamesAreClean(prefix: string, names: seq<string>)
    requires forall c | c in prefix :: !Separator(c)
    ensures forall t | t in NamesTable(prefix, names) :: Token(t, '#')
  {
    if names != [] {
      NamesAreClean(prefix, names[..|names| - 1]);
      DecimalLength(|names|);
      TokenIsClean("#a", prefix, Decimal(|names|), '#');
    }
  }

  lemma {:induction false} ValuesAreClean(prefix: string, values: seq<Value>)
    requires forall c | c in prefix :: !Separator(c)
    ensures forall t | t in ValuesTable(prefix, values) :: Token(t, ':')
  {
    if values != [] {
      ValuesAreClean(prefix, values[..|values| - 1]);
      DecimalLength(|values|);
      TokenIsClean(":v", prefix, Decimal(|values|), ':');
    }
  }

  lemma TokenIsClean(mark: string, prefix: string, digits: string, c: char)
    requires |mark| == 2 && mark[0] == c && !Separator(c) && !Separator(mark[1])
    requires (forall x | x in prefix :: !Separator(x)) && (forall x | x in digits :: x in DIGITS)
    ensures Token(mark + prefix + digits, c)
  {
    var t := mark + prefix + digits;
    forall i | 0 <= i < |t| ensures !Separator(t[i]) {
      if i >= 2 + |prefix| {
        assert t[i] == digits[i - 2 - |prefix|] && t[i] in digits;
      } else if i >= 2 {
        assert t[i] == prefix[i - 2] && t[i] in prefix;
      }
    }
  }

  lemma RequestIsClean(table: string, index: Option<string>, consistent: bool, capacity: Capacity, paths: seq<string>,
                       where: Option<Expr>, plan: Option<QueryKeyPlan>, prefix: string)
    requires CleanPrefix(prefix) && forall c | c in prefix :: !Separator(c)
    ensures var r := ReadRequestOf(table, index, consistent, capacity, paths, where, plan, prefix);
            CleanTables(r.names, r.values)
  {
    var p := Encode(PathsText(paths), Fresh(prefix));
    var k := Encode(KeyText(where, plan), p.1);
    var f := Encode(FilterText(where, plan), k.1);
    hide Encode, Token;
    EncodeExtends(PathsText(paths), Fresh(prefix));
    EncodeExtends(KeyText(where, plan), p.1);
    EncodeExtends(FilterText(where, plan), k.1);
    NamesAreClean(f.1.prefix, f.1.names);
    ValuesAreClean(f.1.prefix, f.1.values);
  }
}

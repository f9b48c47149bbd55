// Aliasing: every attribute path and value of a request is replaced by a token
// minted from one stateful table per request.

module Symbols {
  import opened Values
  import opened Expressions

  // ---- tokens ---------------------------------------------------------------

  const DIGITS := "0123456789"

  function Decimal(n: nat): string {
    if n < 10 then [DIGITS[n]] else Decimal(n / 10) + [DIGITS[n % 10]]
  }

  function AttrToken(prefix: string, ix: nat): string {
    "#a" + prefix + Decimal(ix)
  }

  function ValueToken(prefix: string, ix: nat): string {
    ":v" + prefix + Decimal(ix)
  }

  lemma DigitInjective(i: nat, j: nat)
    requires i < 10 && j < 10
    ensures DIGITS[i] == DIGITS[j] ==> i == j
  {
  }

  lemma {:induction false} DecimalInjective(a: nat, b: nat)
    requires Decimal(a) == Decimal(b)
    ensures a == b
  {
    var s, t := Decimal(a), Decimal(b);
    DecimalLength(a);
    DecimalLength(b);
    DigitInjective(a % 10, b % 10);
    if a >= 10 && b >= 10 {
      assert s[|s| - 1] == DIGITS[a % 10] && t[|t| - 1] == DIGITS[b % 10];
      assert s[..|s| - 1] == Decimal(a / 10) && t[..|t| - 1] == Decimal(b / 10);
      DecimalInjective(a / 10, b / 10);
    }
  }

  lemma {:induction false} DecimalLength(n: nat)
    ensures if n < 10 then |Decimal(n)| == 1 else |Decimal(n)| > 1
    ensures forall c | c in Decimal(n) :: c in DIGITS
  {
    if n >= 10 {
      DecimalLength(n / 10);
    }
  }

  lemma TokenInjective(prefix: string, i: nat, j: nat)
    ensures AttrToken(prefix, i) == AttrToken(prefix, j) ==> i == j
    ensures ValueToken(prefix, i) == ValueToken(prefix, j) ==> i == j
  {
    var n := 2 + |prefix|;
    assert AttrToken(prefix, i)[n..] == Decimal(i) && AttrToken(prefix, j)[n..] == Decimal(j);
    assert ValueToken(prefix, i)[n..] == Decimal(i) && ValueToken(prefix, j)[n..] == Decimal(j);
    if Decimal(i) == Decimal(j) {
      DecimalInjective(i, j);
    }
  }

  // ---- the table as a value -------------------------------------------------

  // Names and values in the order they were minted.
  datatype Sym = Sym(prefix: string, names: seq<string>, values: seq<Value>)

  // The prefixes the session hands out are three letters.
  predicate CleanPrefix(prefix: string) {
    '.' !in prefix && '[' !in prefix
  }

  ghost predicate Sound(s: Sym) {
    CleanPrefix(s.prefix) && forall i, j | 0 <= i < j < |s.names| :: s.names[i] != s.names[j]
  }

  predicate Extends(s: Sym, t: Sym) {
    s.prefix == t.prefix && s.names <= t.names && s.values <= t.values
  }

  function NamesTable(prefix: string, names: seq<string>): map<string, string> {
    if names == [] then map[]
    else NamesTable(prefix, names[..|names| - 1])[AttrToken(prefix, |names|) := names[|names| - 1]]
  }

  function ValuesTable(prefix: string, values: seq<Value>): map<string, Value> {
    if values == [] then map[]
    else ValuesTable(prefix, values[..|values| - 1])[ValueToken(prefix, |values|) := values[|values| - 1]]
  }

  // ExpressionAttributeNames and ExpressionAttributeValues.
  function NamesOf(s: Sym): map<string, string> {
    NamesTable(s.prefix, s.names)
  }

  function ValuesOf(s: Sym): map<string, Value> {
    ValuesTable(s.prefix, s.values)
  }

  lemma {:induction false} NamesTableEntry(prefix: string, names: seq<string>, i: nat)
    requires 1 <= i <= |names|
    ensures AttrToken(prefix, i) in NamesTable(prefix, names)
    ensures NamesTable(prefix, names)[AttrToken(prefix, i)] == names[i - 1]
  {
    var n := |names|;
    if i < n {
      NamesTableEntry(prefix, names[..n - 1], i);
      TokenInjective(prefix, i, n);
    }
  }

  lemma {:induction false} NamesTableToken(prefix: string, names: seq<string>, t: string) returns (i: nat)
    requires t in NamesTable(prefix, names)
    ensures 1 <= i <= |names| && t == AttrToken(prefix, i)
  {
    if t == AttrToken(prefix, |names|) {
      i := |names|;
    } else {
      i := NamesTableToken(prefix, names[..|names| - 1], t);
    }
  }

  lemma {:induction false} ValuesTableToken(prefix: string, values: seq<Value>, t: string) returns (i: nat)
    requires t in ValuesTable(prefix, values)
    ensures 1 <= i <= |values| && t == ValueToken(prefix, i)
  {
    if t == ValueToken(prefix, |values|) {
      i := |values|;
    } else {
      i := ValuesTableToken(prefix, values[..|values| - 1], t);
    }
  }

  lemma {:induction false} ValuesTableEntry(prefix: string, values: seq<Value>, i: nat)
    requires 1 <= i <= |values|
    ensures ValueToken(prefix, i) in ValuesTable(prefix, values)
    ensures ValuesTable(prefix, values)[ValueToken(prefix, i)] == values[i - 1]
  {
    var n := |values|;
    if i < n {
      ValuesTableEntry(prefix, values[..n - 1], i);
      TokenInjective(prefix, i, n);
    }
  }

  // The first position of c, or the length.
  function Find(s: string, c: char): (i: nat)
    ensures i <= |s|
  {
    if s == [] || s[0] == c then 0 else 1 + Find(s[1..], c)
  }

  lemma {:induction false} FindFirst(s: string, c: char)
    ensures c !in s[..Find(s, c)]
    ensures Find(s, c) < |s| ==> s[Find(s, c)] == c
  {
    if s != [] && s[0] != c {
      FindFirst(s[1..], c);
      assert s[..Find(s, c)] == [s[0]] + s[1..][..Find(s[1..], c)];
    }
  }

  function IndexOf(names: seq<string>, name: string): (i: nat)
    ensures i <= |names|
    ensures i < |names| ==> names[i] == name
    ensures i == |names| ==> name !in names
  {
    if names == [] || names[0] == name then 0 else 1 + IndexOf(names[1..], name)
  }

  // A name keeps the token of its first mention.
  function MintName(s: Sym, name: string): (string, Sym) {
    var i := IndexOf(s.names, name);
    (AttrToken(s.prefix, i + 1), if i < |s.names| then s else s.(names := s.names + [name]))
  }

  // A segment keeps its subscript verbatim.
  function EncodeSegment(s: Sym, segment: string): (string, Sym) {
    var b := Find(segment, '[');
    var (token, t) := MintName(s, segment[..b]);
    (token + segment[b..], t)
  }

  // A path is aliased segment by segment.
  function EncodePath(s: Sym, path: string): (string, Sym)
    decreases |path|
  {
    var d := Find(path, '.');
    var (head, t) := EncodeSegment(s, path[..d]);
    if d == |path| then (head, t)
    else
      var (tail, u) := EncodePath(t, path[d + 1..]);
      (head + "." + tail, u)
  }

  function MintValue(s: Sym, v: Value): (string, Sym) {
    (ValueToken(s.prefix, |s.values| + 1), s.(values := s.values + [v]))
  }

  type Aliased = seq<Tok<string>>

  function EncodeTok(t: Tok<Value>, s: Sym): (Tok<string>, Sym) {
    match t
    case Word(text) => (Word(text), s)
    case Attr(path) => var (token, u) := EncodePath(s, path); (Attr(token), u)
    case Operand(v) => var (token, u) := MintValue(s, v); (Operand(token), u)
  }

  function Encode(text: Text, s: Sym): (Aliased, Sym) {
    if text == [] then ([], s)
    else
      var (t, u) := EncodeTok(text[0], s);
      var (rest, v) := Encode(text[1..], u);
      ([t] + rest, v)
  }

  lemma {:induction false} EncodeConcat(a: Text, b: Text, s: Sym)
    ensures var (ta, sa) := Encode(a, s);
            var (tb, sb) := Encode(b, sa);
            Encode(a + b, s) == (ta + tb, sb)
  {
    if a == [] {
      assert a + b == b && [] + Encode(b, s).0 == Encode(b, s).0;
    } else {
      var step := EncodeTok(a[0], s);
      EncodeConcat(a[1..], b, step.1);
      assert (a + b)[0] == a[0] && (a + b)[1..] == a[1..] + b;
      var ra := Encode(a[1..], step.1);
      SeqAssoc([step.0], ra.0, Encode(b, ra.1).0);
    }
  }

  lemma SeqAssoc(a: Aliased, b: Aliased, c: Aliased)
    ensures a + (b + c) == a + b + c
  {
  }

  lemma {:induction false} EncodeLength(text: Text, s: Sym)
    ensures |Encode(text, s).0| == |text|
  {
    if text != [] {
      EncodeLength(text[1..], EncodeTok(text[0], s).1);
    }
  }

  // ---- reading the tokens back ----------------------------------------------

  function DecodeSegment(names: map<string, string>, token: string): Option<string> {
    var b := Find(token, '[');
    if token[..b] in names then Some(names[token[..b]] + token[b..]) else None
  }

  function DecodePath(names: map<string, string>, token: string): Option<string>
    decreases |token|
  {
    var d := Find(token, '.');
    match DecodeSegment(names, token[..d])
    case None => None
    case Some(head) =>
      if d == |token| then Some(head)
      else match DecodePath(names, token[d + 1..])
        case None => None
        case Some(tail) => Some(head + "." + tail)
  }

  function DecodeTok(t: Tok<string>, names: map<string, string>, values: map<string, Value>): Option<Tok<Value>> {
    match t
    case Word(text) => Some(Word(text))
    case Attr(token) => (match DecodePath(names, token) case None => None case Some(path) => Some(Attr(path)))
    case Operand(token) => if token in values then Some(Operand(values[token])) else None
  }

  function Decode(text: Aliased, names: map<string, string>, values: map<string, Value>): Option<Text> {
    if text == [] then Some([])
    else match DecodeTok(text[0], names, values)
      case None => None
      case Some(t) =>
        match Decode(text[1..], names, values)
        case None => None
        case Some(rest) => Some([t] + rest)
  }

  lemma TokenClean(prefix: string, ix: nat)
    requires CleanPrefix(prefix)
    ensures '.' !in AttrToken(prefix, ix) && '[' !in AttrToken(prefix, ix)
  {
    DecimalLength(ix);
  }

  lemma {:induction false} FindConcat(a: string, b: string, c: char)
    requires c !in a
    ensures Find(a + b, c) == |a| + Find(b, c)
  {
    if a == [] {
      assert a + b == b;
    } else {
      assert (a + b)[1..] == a[1..] + b;
      FindConcat(a[1..], b, c);
    }
  }

  lemma FindRest(s: string, c: char)
    ensures Find(s[Find(s, c)..], c) == 0
  {
    FindFirst(s, c);
  }

  lemma MintNameSound(s: Sym, name: string)
    requires Sound(s)
    ensures var (token, t) := MintName(s, name);
            Sound(t) && Extends(s, t) && name in t.names &&
            forall u | Extends(t, u) && Sound(u) :: token in NamesOf(u) && NamesOf(u)[token] == name
  {
    var (token, t) := MintName(s, name);
    var i := IndexOf(s.names, name);
    forall u | Extends(t, u) && Sound(u) ensures token in NamesOf(u) && NamesOf(u)[token] == name {
      assert u.names[i] == t.names[i];
      NamesTableEntry(u.prefix, u.names, i + 1);
    }
  }

  lemma SegmentDecodes(s: Sym, segment: string, u: Sym)
    requires Sound(s) && Sound(u) && Extends(EncodeSegment(s, segment).1, u)
    ensures DecodeSegment(NamesOf(u), EncodeSegment(s, segment).0) == Some(segment)
    ensures Sound(EncodeSegment(s, segment).1) && Extends(s, EncodeSegment(s, segment).1)
    ensures '.' !in segment ==> '.' !in EncodeSegment(s, segment).0
  {
    var b := Find(segment, '[');
    var (token, t) := MintName(s, segment[..b]);
    MintNameSound(s, segment[..b]);
    TokenClean(s.prefix, IndexOf(s.names, segment[..b]) + 1);
    FindRest(segment, '[');
    FindConcat(token, segment[b..], '[');
    hide Sound, Extends, Find, MintName;
    var whole := token + segment[b..];
    assert whole[..|token|] == token && whole[|token|..] == segment[b..];
    assert segment == segment[..b] + segment[b..];
  }

  lemma {:induction false} EncodePathExtends(s: Sym, path: string)
    requires Sound(s)
    ensures Sound(EncodePath(s, path).1) && Extends(s, EncodePath(s, path).1)
    decreases |path|
  {
    var d := Find(path, '.');
    MintNameSound(s, path[..d][..Find(path[..d], '[')]);
    if d < |path| {
      EncodePathExtends(EncodeSegment(s, path[..d]).1, path[d + 1..]);
    }
  }

  lemma ExtendsTransitive(s: Sym, t: Sym, u: Sym)
    requires Extends(s, t) && Extends(t, u)
    ensures Extends(s, u)
  {
  }

  lemma {:induction false} PathDecodes(s: Sym, path: string, u: Sym)
    requires Sound(s) && Sound(u) && Extends(EncodePath(s, path).1, u)
    ensures DecodePath(NamesOf(u), EncodePath(s, path).0) == Some(path)
    decreases |path|
  {
    var d := Find(path, '.');
    FindFirst(path, '.');
    var (head, t) := EncodeSegment(s, path[..d]);
    if d == |path| {
      assert path[..d] == path;
      SegmentDecodes(s, path, u);
      UndottedPath(NamesOf(u), head);
    } else {
      var segment, more := path[..d], path[d + 1..];
      EncodeSegmentExtends(s, segment);
      var (tail, v) := EncodePath(t, more);
      assert Extends(t, u) by {
        EncodePathExtends(t, more);
        ExtendsTransitive(t, v, u);
      }
      PathDecodes(t, more, u);
      SegmentDecodes(s, segment, u);
      DottedPath(NamesOf(u), head, tail, segment, more);
      RejoinAt(path, d);
    }
  }

  lemma EncodeSegmentExtends(s: Sym, segment: string)
    requires Sound(s)
    ensures Sound(EncodeSegment(s, segment).1) && Extends(s, EncodeSegment(s, segment).1)
  {
    MintNameSound(s, segment[..Find(segment, '[')]);
  }

  lemma RejoinAt(path: string, d: nat)
    requires d < |path| && path[d] == '.'
    ensures path[..d] + "." + path[d + 1..] == path
  {
  }

  lemma SplitsAtDot(head: string, tail: string)
    requires '.' !in head
    ensures var token := head + "." + tail;
            Find(token, '.') == |head| && token[..|head|] == head && token[|head| + 1..] == tail
  {
    assert head + "." + tail == head + ("." + tail);
    FindConcat(head, "." + tail, '.');
  }

  lemma UndottedPath(names: map<string, string>, token: string)
    requires '.' !in token
    ensures DecodePath(names, token) == DecodeSegment(names, token)
    ensures BareTokens(token) == {token[..Find(token, '[')]}
  {
    FindConcat(token, "", '.');
    assert token + "" == token && token[..|token|] == token;
  }

  lemma DottedPath(names: map<string, string>, head: string, tail: string, a: string, b: string)
    requires '.' !in head && DecodeSegment(names, head) == Some(a) && DecodePath(names, tail) == Some(b)
    ensures DecodePath(names, head + "." + tail) == Some(a + "." + b)
  {
    SplitsAtDot(head, tail);
  }

  lemma {:induction false} EncodeExtends(text: Text, s: Sym)
    requires Sound(s)
    ensures Sound(Encode(text, s).1) && Extends(s, Encode(text, s).1)
  {
    if text != [] {
      if text[0].Attr? {
        EncodePathExtends(s, text[0].path);
      }
      EncodeExtends(text[1..], EncodeTok(text[0], s).1);
    }
  }

  // A text aliased while the table was still growing is read back whole with any
  // later state of the table.
  lemma {:induction false} EncodeDecodes(text: Text, s: Sym, u: Sym)
    requires Sound(s) && Sound(u) && Extends(Encode(text, s).1, u)
    ensures Decode(Encode(text, s).0, NamesOf(u), ValuesOf(u)) == Some(text)
  {
    if text != [] {
      var (t, v) := EncodeTok(text[0], s);
      EncodeTokExtends(text[0], s);
      EncodeExtends(text[1..], v);
      EncodeDecodes(text[1..], v, u);
      TokDecodes(text[0], s, u);
      assert text == [text[0]] + text[1..];
    }
  }

  lemma EncodeTokExtends(t: Tok<Value>, s: Sym)
    requires Sound(s)
    ensures Sound(EncodeTok(t, s).1) && Extends(s, EncodeTok(t, s).1)
  {
    if t.Attr? {
      EncodePathExtends(s, t.path);
    }
  }

  lemma TokDecodes(t: Tok<Value>, s: Sym, u: Sym)
    requires Sound(s) && Sound(u) && Extends(EncodeTok(t, s).1, u)
    ensures DecodeTok(EncodeTok(t, s).0, NamesOf(u), ValuesOf(u)) == Some(t)
  {
    match t {
      case Word(_) =>
      case Attr(path) => PathDecodes(s, path, u);
      case Operand(value) =>
        assert u.values[|s.values|] == value;
        ValuesTableEntry(u.prefix, u.values, |s.values| + 1);
    }
  }

  // ---- nothing defined goes unused ------------------------------------------

  function BareTokens(token: string): set<string>
    decreases |token|
  {
    var d := Find(token, '.');
    var segment := token[..d];
    {segment[..Find(segment, '[')]} + if d == |token| then {} else BareTokens(token[d + 1..])
  }

  function NamesUsed(text: Aliased): set<string> {
    if text == [] then {}
    else (if text[0].Attr? then BareTokens(text[0].path) else {}) + NamesUsed(text[1..])
  }

  function ValuesUsed(text: Aliased): set<string> {
    if text == [] then {}
    else (if text[0].Operand? then {text[0].operand} else {}) + ValuesUsed(text[1..])
  }

  lemma MintNameKeys(s: Sym, name: string)
    requires Sound(s)
    ensures NamesOf(MintName(s, name).1).Keys == NamesOf(s).Keys + {MintName(s, name).0}
  {
    hide AttrToken, NamesTable;
    var i := IndexOf(s.names, name);
    if i < |s.names| {
      NamesTableEntry(s.prefix, s.names, i + 1);
    } else {
      NamesTableSnoc(s.prefix, s.names, name);
    }
  }

  lemma NamesTableSnoc(prefix: string, names: seq<string>, name: string)
    ensures NamesTable(prefix, names + [name]) == NamesTable(prefix, names)[AttrToken(prefix, |names| + 1) := name]
  {
    hide AttrToken;
    assert (names + [name])[..|names|] == names;
  }

  lemma EncodePathStep(s: Sym, path: string, head: string, t: Sym)
    requires Find(path, '.') < |path| && EncodeSegment(s, path[..Find(path, '.')]) == (head, t)
    ensures EncodePath(s, path).0 == head + "." + EncodePath(t, path[Find(path, '.') + 1..]).0
    ensures EncodePath(s, path).1 == EncodePath(t, path[Find(path, '.') + 1..]).1
  {
  }

  lemma DottedKeys(head: string, tail: string)
    requires '.' !in head
    ensures BareTokens(head + "." + tail) == {head[..Find(head, '[')]} + BareTokens(tail)
  {
    SplitsAtDot(head, tail);
  }

  lemma EncodePathLast(s: Sym, path: string)
    requires Find(path, '.') == |path|
    ensures EncodePath(s, path) == EncodeSegment(s, path[..|path|])
  {
  }

  lemma KeysJoin(before: set<string>, after: set<string>, head: string, tail: string)
    requires '.' !in head && after == before + {head[..Find(head, '[')]}
    ensures after + BareTokens(tail) == before + BareTokens(head + "." + tail)
  {
    DottedKeys(head, tail);
  }

  lemma SegmentKeys(s: Sym, segment: string)
    requires Sound(s) && '.' !in segment
    ensures var (head, t) := EncodeSegment(s, segment);
            '.' !in head && NamesOf(t).Keys == NamesOf(s).Keys + {head[..Find(head, '[')]}
  {
    var b := Find(segment, '[');
    var bare := MintName(s, segment[..b]).0;
    MintNameKeys(s, segment[..b]);
    SegmentDecodes(s, segment, EncodeSegment(s, segment).1);
    TokenClean(s.prefix, IndexOf(s.names, segment[..b]) + 1);
    FindRest(segment, '[');
    FindConcat(bare, segment[b..], '[');
    assert (bare + segment[b..])[..|bare|] == bare;
  }

  lemma {:induction false} PathKeys(s: Sym, path: string)
    requires Sound(s)
    ensures NamesOf(EncodePath(s, path).1).Keys == NamesOf(s).Keys + BareTokens(EncodePath(s, path).0)
    decreases |path|
  {
    var d := Find(path, '.');
    FindFirst(path, '.');
    var (head, t) := EncodeSegment(s, path[..d]);
    SegmentKeys(s, path[..d]);
    EncodeSegmentExtends(s, path[..d]);
    if d == |path| {
      UndottedPath(map[], head);
    } else {
      var more := path[d + 1..];
      PathKeys(t, more);
      EncodePathStep(s, path, head, t);
      KeysJoin(NamesOf(s).Keys, NamesOf(t).Keys, head, EncodePath(t, more).0);
    }
  }

  // The tables of a request define exactly the tokens its texts use.
  lemma {:induction false} EncodeKeys(text: Text, s: Sym)
    requires Sound(s)
    ensures NamesOf(Encode(text, s).1).Keys == NamesOf(s).Keys + NamesUsed(Encode(text, s).0)
    ensures ValuesOf(Encode(text, s).1).Keys == ValuesOf(s).Keys + ValuesUsed(Encode(text, s).0)
  {
    hide EncodeTok, NamesOf, ValuesOf, BareTokens, Sound;
    if text != [] {
      EncodeTokKeys(text[0], s);
      EncodeKeys(text[1..], EncodeTok(text[0], s).1);
    }
  }

  lemma EncodeTokKeys(t: Tok<Value>, s: Sym)
    requires Sound(s)
    ensures var (u, v) := EncodeTok(t, s);
            && Sound(v)
            && NamesOf(v).Keys == NamesOf(s).Keys + (if u.Attr? then BareTokens(u.path) else {})
            && ValuesOf(v).Keys == ValuesOf(s).Keys + (if u.Operand? then {u.operand} else {})
  {
    match t {
      case Word(_) =>
      case Attr(path) =>
        EncodePathExtends(s, path);
        EncodePathValues(s, path);
        PathKeys(s, path);
      case Operand(value) =>
        assert EncodeTok(t, s).1.values[..|s.values|] == s.values;
    }
  }

  lemma {:induction false} EncodePathValues(s: Sym, path: string)
    ensures EncodePath(s, path).1.values == s.values
    decreases |path|
  {
    var d := Find(path, '.');
    if d < |path| {
      EncodePathValues(EncodeSegment(s, path[..d]).1, path[d + 1..]);
    }
  }

  // ---- the table as the object the serializers share ------------------------

  // What is still to come, after the segments already joined in token.
  function Continued(token: string, rest: string): string {
    if |token| == 0 then rest else token + "." + rest
  }

  lemma SuffixOfSuffix(s: string, i: nat, j: nat)
    requires i + j <= |s|
    ensures s[i..][j..] == s[i + j..]
  {
  }

  lemma ContinueStep(s: Sym, rest: string, token: string)
    ensures var d := Find(rest, '.');
            var segment, t := EncodeSegment(s, rest[..d]).0, EncodeSegment(s, rest[..d]).1;
            var next := Continued(token, segment);
            && |segment| > 0
            && (d == |rest| ==> Continued(token, EncodePath(s, rest).0) == next && EncodePath(s, rest).1 == t)
            && (d < |rest| ==>
                  && Continued(token, EncodePath(s, rest).0) == Continued(next, EncodePath(t, rest[d + 1..]).0)
                  && EncodePath(s, rest).1 == EncodePath(t, rest[d + 1..]).1)
  {
    hide EncodePath;
    var d := Find(rest, '.');
    var segment, t := EncodeSegment(s, rest[..d]).0, EncodeSegment(s, rest[..d]).1;
    if d == |rest| {
      EncodePathLast(s, rest);
    } else {
      EncodePathStep(s, rest, segment, t);
      var tail := EncodePath(t, rest[d + 1..]).0;
      assert token + "." + (segment + "." + tail) == token + "." + segment + "." + tail;
    }
  }

  class SymbolTable {
    const prefix: string
    var attrIx: nat
    var valueIx: nat
    var names: map<string, string>  // real name to token
    var values: map<string, Value>  // token to value
    ghost var sym: Sym

    ghost predicate Valid()
      reads this
    {
      && sym.prefix == prefix && Sound(sym)
      && attrIx == |sym.names| + 1 && valueIx == |sym.values| + 1
      && (forall n :: n in names <==> n in sym.names)
      && (forall i | 0 <= i < |sym.names| :: names[sym.names[i]] == AttrToken(prefix, i + 1))
      && values == ValuesOf(sym)
    }

    constructor (prefix: string)
      requires CleanPrefix(prefix)
      ensures Valid() && sym == Sym(prefix, [], [])
    {
      this.prefix := prefix;
      attrIx, valueIx, names, values := 1, 1, map[], map[];
      sym := Sym(prefix, [], []);
    }

    method NewBare(name: string) returns (token: string)
      requires Valid()
      modifies this
      ensures Valid() && (token, sym) == MintName(old(sym), name)
    {
      hide AttrToken, ValuesTable, CleanPrefix;
      token := AttrToken(prefix, attrIx);
      if name in names {
        token := names[name];
      } else {
        names := names[name := token];
        attrIx := attrIx + 1;
        sym := sym.(names := sym.names + [name]);
      }
    }

    method NewSegment(name: string) returns (token: string)
      requires Valid()
      modifies this
      ensures Valid() && (token, sym) == EncodeSegment(old(sym), name)
    {
      var bracket := Find(name, '[');
      if bracket < |name| {
        var bare := NewBare(name[..bracket]);
        return bare + name[bracket..];
      }
      token := NewBare(name);
      assert name[..bracket] == name && token + name[bracket..] == token;
    }

    method NewAttribute(name: string) returns (token: string)
      requires Valid()
      modifies this
      ensures Valid() && token == EncodePath(old(sym), name).0 && sym == EncodePath(old(sym), name).1
    {
      hide EncodePath, EncodeSegment, Find, SymbolTable.Valid;
      token := "";
      var start, ended := 0, false;
      ghost var goal := EncodePath(sym, name);
      assert name[0..] == name;
      while !ended
        invariant Valid() && start <= |name|
        invariant !ended ==> goal.0 == Continued(token, EncodePath(sym, name[start..]).0)
        invariant !ended ==> goal.1 == EncodePath(sym, name[start..]).1
        invariant ended ==> goal.0 == token && goal.1 == sym
        decreases !ended, |name| - start
      {
        var rest := name[start..];
        var d := Find(rest, '.');
        ContinueStep(sym, rest, token);
        var segment := NewSegment(rest[..d]);
        token := Continued(token, segment);
        ended := d == |rest|;
        if !ended {
          SuffixOfSuffix(name, start, d + 1);
          start := start + d + 1;
        }
      }
    }

    method NewValue(value: Value) returns (token: string)
      requires Valid()
      modifies this
      ensures Valid() && (token, sym) == MintValue(old(sym), value)
    {
      token := ValueToken(prefix, valueIx);
      valueIx := valueIx + 1;
      values := values[token := value];
      sym := sym.(values := sym.values + [value]);
      assert sym.values[..|sym.values| - 1] == old(sym).values;
    }

    // Inverts the map kept here.
    method GetNames() returns (inverted: map<string, string>)
      requires Valid()
      ensures inverted == NamesOf(sym)
    {
      inverted := map[];
      var todo := names.Keys;
      while todo != {}
        invariant todo <= names.Keys
        invariant forall n | n in names.Keys - todo :: names[n] in inverted && inverted[names[n]] == n
        invariant forall t | t in inverted :: inverted[t] in names.Keys - todo && names[inverted[t]] == t
      {
        var n :| n in todo;
        inverted := inverted[names[n] := n];
        todo := todo - {n};
        NamesDistinct(n);
      }
      forall t | t in NamesOf(sym) ensures t in inverted && inverted[t] == NamesOf(sym)[t] {
        var i := NamesTableToken(prefix, sym.names, t);
        NamesTableEntry(prefix, sym.names, i);
        assert sym.names[i - 1] in names.Keys - todo;
      }
      forall t | t in inverted ensures t in NamesOf(sym) {
        NamesTableEntry(prefix, sym.names, IndexOf(sym.names, inverted[t]) + 1);
      }
    }

    lemma NamesDistinct(n: string)
      requires Valid() && n in names
      ensures forall n' | n' in names && names[n'] == names[n] :: n' == n
    {
      hide AttrToken, ValuesTable, ValueToken, CleanPrefix;
      forall n' | n' in names && names[n'] == names[n] ensures n' == n {
        TokenInjective(prefix, IndexOf(sym.names, n) + 1, IndexOf(sym.names, n') + 1);
      }
    }
  }
}

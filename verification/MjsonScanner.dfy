/**
 The JSON scanner (libs/mjson.c, mjson): a state machine with an explicit stack of open brackets
 that reports tokens as events. Printed JSON trees, with any whitespace between the tokens, are scanned
 to exactly the events of the tree.
 */
module MjsonScanner {
  import opened MjsonText

  const TOO_DEEP: int := -2
  const MAX_DEPTH: nat := 20

  // enum mjson_tok; brackets, commas and colons stand for themselves
  const TOK_INVALID: int := 0
  const TOK_KEY: int := 1
  const TOK_STRING: int := 11
  const TOK_NUMBER: int := 12
  const TOK_TRUE: int := 13
  const TOK_FALSE: int := 14
  const TOK_NULL: int := 15
  const TOK_ARRAY: int := 91
  const TOK_OBJECT: int := 123

  predicate IsValueToken(tok: int) {
    10 < tok < 20
  }

  /** A call of the callback: the token, where it starts, and its length. */
  datatype Event = Event(tok: int, off: nat, len: nat)

  /** The events up to the end of the scan, and what mjson returns. */
  datatype Scanned = Scanned(events: seq<Event>, end: int)

  datatype Expecting = Value | Key | Colon | CommaOrEoo

  function Emit(e: Event, r: Scanned): Scanned {
    Scanned([e] + r.events, r.end)
  }

  function Prepend(es: seq<Event>, r: Scanned): Scanned {
    Scanned(es + r.events, r.end)
  }

  function Stop(end: int): Scanned {
    Scanned([], end)
  }

  predicate Blank(c: char) {
    c == ' ' || c == '\t' || c == '\n' || c == '\r'
  }

  predicate At(s: string, i: nat, t: string) {
    i + |t| <= |s| && s[i..i + |t|] == t
  }

  /** A scalar: its token and length, or an error. */
  datatype Scalar = Scalar(tok: int, len: nat) | NoScalar(error: int)

  function ScalarAt(s: string, i: nat): (r: Scalar)
    requires i < |s|
    ensures r.Scalar? ==> i + r.len <= |s| && (r.len == 0 ==> s[i] == '-') && IsValueToken(r.tok)
    ensures r.Scalar? && r.tok == TOK_STRING ==> r.len >= 2
    ensures r.NoScalar? ==> r.error < 0
  {
    if At(s, i, "true") then Scalar(TOK_TRUE, 4)
    else if At(s, i, "null") then Scalar(TOK_NULL, 4)
    else if At(s, i, "false") then Scalar(TOK_FALSE, 5)
    else if s[i] == '-' || Digit(s[i]) then Scalar(TOK_NUMBER, NumberSpan(s[i..]))
    else if s[i] == QUOTE then
      var n := PassString(s[i + 1..]);
      if n < 0 then NoScalar(n) else Scalar(TOK_STRING, n + 2)
    else NoScalar(INVALID_INPUT)
  }

  /** The scan from position `i` on, with the open brackets `nest`, innermost last. */
  function Scan(s: string, i: nat, nest: string, e: Expecting): (r: Scanned)
    requires i <= |s| && (nest != [] || e == Value)
    decreases |s| - i, if e == CommaOrEoo then 1 else 3
  {
    if i == |s| then Stop(INVALID_INPUT)
    else
      var c := s[i];
      if Blank(c) then Scan(s, i + 1, nest, e)
      else match e
        case Value =>
          if c == '{' || c == '[' then
            if |nest| >= MAX_DEPTH then Stop(TOO_DEEP)
            else Emit(Event(c as int, i, 1), Scan(s, i + 1, nest + [c], if c == '{' then Key else Value))
          else if c == ']' && nest != [] then Close(s, i, nest)
          else (match ScalarAt(s, i)
            case NoScalar(error) => Stop(error)
            case Scalar(tok, len) => Emit(Event(tok, i, len), After(s, i + len, nest)))
        case Key =>
          if c == QUOTE then
            var n := PassString(s[i + 1..]);
            if n < 0 then Stop(n) else Emit(Event(TOK_KEY, i, n + 2), Scan(s, i + n + 2, nest, Colon))
          else if c == '}' then Close(s, i, nest)
          else Stop(INVALID_INPUT)
        case Colon =>
          if c == ':' then Emit(Event(c as int, i, 1), Scan(s, i + 1, nest, Value)) else Stop(INVALID_INPUT)
        case CommaOrEoo =>
          if c == ',' then Emit(Event(c as int, i, 1), Scan(s, i + 1, nest, if nest[|nest| - 1] == '{' then Key
              else Value))
          else if c == ']' || c == '}' then Close(s, i, nest)
          else Stop(INVALID_INPUT)
  }

  /** MJSONEOO: the bracket at `i` closes the innermost open one. */
  function Close(s: string, i: nat, nest: string): Scanned
    requires i < |s| && nest != []
    decreases |s| - i, 0
  {
    if s[i] as int != nest[|nest| - 1] as int + 2 then Stop(INVALID_INPUT)
    else Emit(Event(s[i] as int, i, 1), After(s, i + 1, nest[..|nest| - 1]))
  }

  /** Behind a value: the end at the top level, a comma or closing bracket inside. */
  function After(s: string, i: nat, nest: string): Scanned
    requires i <= |s|
    decreases |s| - i, 2
  {
    if nest == [] then Stop(i) else Scan(s, i, nest, CommaOrEoo)
  }

  // ----- Trees --------------------------------------------------------------------------------------------

  /**
   A JSON text as a tree that keeps all of its characters: `space` is the whitespace in front of a closing
   bracket, and each entry of an array or object has the whitespace around its comma, key and colon.
   */
  datatype Json =
    | Lit(tok: int, text: string)
    | Node(isObject: bool, entries: Entries, space: string)

  datatype Entries =
    | Nil
    | Cons(beforeComma: string, beforeKey: string, key: string, beforeColon: string, beforeValue: string, value: Json,
        rest: Entries)

  predicate AllBlank(t: string) {
    forall k :: 0 <= k < |t| ==> Blank(t[k])
  }

  /** The texts of the scalars. */
  predicate ValidLit(tok: int, text: string) {
    || (tok == TOK_TRUE && text == "true")
    || (tok == TOK_FALSE && text == "false")
    || (tok == TOK_NULL && text == "null")
    || (tok == TOK_NUMBER && Number(text))
    || (tok == TOK_STRING && |text| >= 2 && text[0] == QUOTE && text == [QUOTE] + text[1..|text| - 1] + [QUOTE]
        && Body(text[1..|text| - 1]))
  }

  predicate Valid(v: Json)
    decreases v
  {
    match v
    case Lit(tok, text) => ValidLit(tok, text)
    case Node(isObject, entries, space) => ValidEntries(isObject, entries) && AllBlank(space)
  }

  predicate ValidEntries(isObject: bool, es: Entries)
    decreases es
  {
    match es
    case Nil => true
    case Cons(beforeComma, beforeKey, key, beforeColon, beforeValue, value, rest) =>
      && AllBlank(beforeComma) && AllBlank(beforeKey) && AllBlank(beforeColon) && AllBlank(beforeValue)
      && (isObject ==> Body(key)) && Valid(value) && ValidEntries(isObject, rest)
  }

  function Open(isObject: bool): char {
    if isObject then '{' else '['
  }

  function Closing(isObject: bool): char {
    if isObject then '}' else ']'
  }

  function Text(v: Json): string
    decreases v
  {
    match v
    case Lit(_, text) => text
    case Node(isObject, entries, space) => [Open(isObject)] + Inner(isObject, entries, true, space)
  }

  function CommaText(first: bool, space: string): string {
    if first then [] else space + [',']
  }

  function Quoted(key: string): string {
    [QUOTE] + key + [QUOTE]
  }

  function KeyText(isObject: bool, key: string, space: string): string {
    if isObject then Quoted(key) + (space + [':']) else []
  }

  /** What stands in front of the value of an entry. */
  function Lead(isObject: bool, first: bool, es: Entries): string
    requires es.Cons?
  {
    CommaText(first, es.beforeComma) + (es.beforeKey + (KeyText(isObject, es.key, es.beforeColon) + es.beforeValue))
  }

  /** Entries up to and including the closing bracket; all but the `first` one have a comma in front. */
  function Inner(isObject: bool, es: Entries, first: bool, space: string): string
    decreases es
  {
    if es == Nil then space + [Closing(isObject)]
    else Lead(isObject, first, es) + (Text(es.value) + Inner(isObject, es.rest, false, space))
  }

  function Max(a: nat, b: nat): nat {
    if a < b then b else a
  }

  function Depth(v: Json): nat {
    match v
    case Lit(_, _) => 0
    case Node(_, entries, _) => 1 + EntriesDepth(entries)
  }

  function EntriesDepth(es: Entries): nat {
    if es == Nil then 0 else Max(Depth(es.value), EntriesDepth(es.rest))
  }

  // ----- The events of a tree -----------------------------------------------------------------------------

  /** The events of a value printed at `at`. */
  function Events(v: Json, at: nat): seq<Event>
    decreases v
  {
    match v
    case Lit(tok, text) => [Event(tok, at, |text|)]
    case Node(isObject, entries, space) =>
      [Event(Open(isObject) as int, at, 1)] + InnerEvents(isObject, entries, true, space, at + 1)
  }

  function CommaEvents(first: bool, space: string, at: nat): seq<Event> {
    if first then [] else [Event(',' as int, at + |space|, 1)]
  }

  function KeyEvents(isObject: bool, key: string, space: string, at: nat): seq<Event> {
    if isObject then [Event(TOK_KEY, at, |key| + 2)] + [Event(':' as int, at + |key| + 2 + |space|, 1)] else []
  }

  function LeadEvents(isObject: bool, first: bool, es: Entries, at: nat): seq<Event>
    requires es.Cons?
  {
    CommaEvents(first, es.beforeComma, at)
    + KeyEvents(isObject, es.key, es.beforeColon, at + |CommaText(first, es.beforeComma)| + |es.beforeKey|)
  }

  function InnerEvents(isObject: bool, es: Entries, first: bool, space: string, at: nat): seq<Event>
    decreases es
  {
    if es == Nil then [Event(Closing(isObject) as int, at + |space|, 1)]
    else
      var value := at + |Lead(isObject, first, es)|;
      LeadEvents(isObject, first, es, at)
      + (Events(es.value, value) + InnerEvents(isObject, es.rest, false, space, value + |Text(es.value)|))
  }

  // ----- Where texts stand --------------------------------------------------------------------------------

  lemma AtParts(s: string, i: nat, t: string, u: string)
    requires At(s, i, t + u)
    ensures i + |t| + |u| <= |s| && At(s, i, t) && At(s, i + |t|, u)
  {
    assert s[i..i + |t|] == s[i..i + |t + u|][..|t|];
    assert s[i + |t|..i + |t| + |u|] == s[i..i + |t + u|][|t|..];
  }

  lemma AtMiddle(before: string, t: string, after: string)
    ensures At(before + t + after, 0, before) && At(before + t + after, |before|, t)
    ensures (before + t + after)[|before| + |t|..] == after
  {}

  lemma AtWithin(s: string, i: nat, t: string)
    requires At(s, i, t)
    ensures i + |t| <= |s|
  {}

  lemma AtSplits(s: string, i: nat, t: string)
    requires At(s, i, t)
    ensures i + |t| <= |s| && s[i..] == t + s[i + |t|..]
  {}

  lemma AtChar(s: string, i: nat, t: string)
    requires At(s, i, t) && t != []
    ensures i < |s| && s[i] == t[0]
  {
    assert s[i] == s[i..i + |t|][0];
  }

  lemma {:induction false} SkipBlanks(s: string, i: nat, t: string, nest: string, e: Expecting)
    requires At(s, i, t) && AllBlank(t) && (nest != [] || e == Value)
    ensures Scan(s, i, nest, e) == Scan(s, i + |t|, nest, e)
    decreases |t|
  {
    if t != [] {
      AtChar(s, i, t);
      assert t == t[..1] + t[1..];
      AtParts(s, i, t[..1], t[1..]);
      SkipBlanks(s, i + 1, t[1..], nest, e);
    }
  }

  /** What may follow a value: nothing that could continue a number. */
  predicate EndsValue(s: string, i: nat)
    requires i <= |s|
  {
    Delimits(s[i..])
  }

  lemma NumberIsScalar(s: string, i: nat, text: string)
    requires Number(text) && At(s, i, text) && EndsValue(s, i + |text|)
    ensures i < |s| && !Blank(s[i]) && s[i] != '{' && s[i] != '[' && s[i] != ']'
            && ScalarAt(s, i) == Scalar(TOK_NUMBER, |text|)
  {
    hide NumberSpan, PassString, At, Delimits;
    AtChar(s, i, text);
    AtSplits(s, i, text);
    NumberStops(text, s[i + |text|..]);
    NotKeyword(s, i);
  }

  lemma StringIsScalar(s: string, i: nat, b: string)
    requires Body(b) && At(s, i, Quoted(b))
    ensures i < |s| && !Blank(s[i]) && s[i] != '{' && s[i] != '[' && s[i] != ']'
            && ScalarAt(s, i) == Scalar(TOK_STRING, |b| + 2)
  {
    hide NumberSpan, PassString, At, Body;
    AtChar(s, i, Quoted(b));
    AtSplits(s, i, Quoted(b));
    var rest := s[i + |Quoted(b)|..];
    assert s[i + 1..] == s[i..][1..] && (Quoted(b) + rest)[1..] == b + [QUOTE] + rest;
    NotKeyword(s, i);
    BodyIsPassed(b, rest);
  }

  lemma KeywordIsScalar(s: string, i: nat, tok: int, text: string)
    requires (tok == TOK_TRUE && text == "true") || (tok == TOK_FALSE && text == "false")
             || (tok == TOK_NULL && text == "null")
    requires At(s, i, text)
    ensures i < |s| && !Blank(s[i]) && s[i] != '{' && s[i] != '[' && s[i] != ']'
            && ScalarAt(s, i) == Scalar(tok, |text|)
  {
    hide NumberSpan, PassString, At;
    AtChar(s, i, text);
    Keywords(s, i, text);
  }

  lemma LiteralIsScalar(s: string, i: nat, tok: int, text: string)
    requires ValidLit(tok, text) && At(s, i, text) && EndsValue(s, i + |text|)
    ensures i < |s| && !Blank(s[i]) && s[i] != '{' && s[i] != '[' && s[i] != ']'
            && ScalarAt(s, i) == Scalar(tok, |text|)
  {
    hide ScalarAt, At, Number, Body, EndsValue, Blank;
    if tok == TOK_NUMBER {
      NumberIsScalar(s, i, text);
    } else if tok == TOK_STRING {
      StringIsScalar(s, i, text[1..|text| - 1]);
    } else {
      KeywordIsScalar(s, i, tok, text);
    }
  }

  lemma NotKeyword(s: string, i: nat)
    requires i < |s| && s[i] != 't' && s[i] != 'n' && s[i] != 'f'
    ensures !At(s, i, "true") && !At(s, i, "null") && !At(s, i, "false")
  {
    if At(s, i, "true") { AtChar(s, i, "true"); }
    if At(s, i, "null") { AtChar(s, i, "null"); }
    if At(s, i, "false") { AtChar(s, i, "false"); }
  }

  lemma Keywords(s: string, i: nat, text: string)
    requires At(s, i, text) && text in ["true", "null", "false"]
    ensures At(s, i, "true") == (text == "true") && At(s, i, "null") == (text == "null")
            && At(s, i, "false") == (text == "false")
  {
    AtChar(s, i, text);
    if At(s, i, "true") { AtChar(s, i, "true"); }
    if At(s, i, "null") { AtChar(s, i, "null"); }
    if At(s, i, "false") { AtChar(s, i, "false"); }
  }

  // ----- Completeness -------------------------------------------------------------------------------------

  lemma PrependNothing(r: Scanned)
    ensures Prepend([], r) == r
  {}

  lemma PrependTwice(a: seq<Event>, b: seq<Event>, r: Scanned)
    ensures Prepend(a, Prepend(b, r)) == Prepend(a + b, r)
  {
    assert a + (b + r.events) == (a + b) + r.events;
  }

  lemma ScanOpen(s: string, i: nat, nest: string, isObject: bool)
    requires i < |s| && s[i] == Open(isObject)
    ensures Scan(s, i, nest, Value)
         == if |nest| >= MAX_DEPTH then Stop(TOO_DEEP)
            else Prepend([Event(Open(isObject) as int, i, 1)],
                Scan(s, i + 1, nest + [Open(isObject)], Inside(isObject, true)))
  {}

  lemma ScanScalar(s: string, i: nat, nest: string, tok: int, len: nat)
    requires i < |s| && !Blank(s[i]) && s[i] != '{' && s[i] != '[' && s[i] != ']' && ScalarAt(s, i) == Scalar(tok, len)
    ensures Scan(s, i, nest, Value) == Prepend([Event(tok, i, len)], After(s, i + len, nest))
  {}

  lemma ScanKey(s: string, i: nat, nest: string, n: nat)
    requires i < |s| && nest != [] && s[i] == QUOTE && PassString(s[i + 1..]) == n
    ensures Scan(s, i, nest, Key) == Prepend([Event(TOK_KEY, i, n + 2)], Scan(s, i + n + 2, nest, Colon))
  {}

  lemma ScanColon(s: string, i: nat, nest: string)
    requires i < |s| && nest != [] && s[i] == ':'
    ensures Scan(s, i, nest, Colon) == Prepend([Event(':' as int, i, 1)], Scan(s, i + 1, nest, Value))
  {}

  lemma ScanComma(s: string, i: nat, nest: string, isObject: bool)
    requires i < |s| && nest != [] && nest[|nest| - 1] == Open(isObject) && s[i] == ','
    ensures Scan(s, i, nest, CommaOrEoo) == Prepend([Event(',' as int, i, 1)],
            Scan(s, i + 1, nest, if isObject then Key else Value))
  {}

  lemma ScanClose(s: string, i: nat, nest: string, isObject: bool, first: bool)
    requires i < |s| && s[i] == Closing(isObject)
    ensures Scan(s, i, nest + [Open(isObject)], Inside(isObject, first))
         == Prepend([Event(Closing(isObject) as int, i, 1)], After(s, i + 1, nest))
  {
    assert (nest + [Open(isObject)])[..|nest|] == nest;
  }

  function Inside(isObject: bool, first: bool): Expecting {
    if !first then CommaOrEoo else if isObject then Key else Value
  }

  lemma CommaIsScanned(s: string, i: nat, nest: string, isObject: bool, first: bool, space: string)
    requires AllBlank(space) && nest != [] && nest[|nest| - 1] == Open(isObject) && At(s, i, CommaText(first, space))
    ensures Scan(s, i, nest, Inside(isObject, first))
         == Prepend(CommaEvents(first, space, i), Scan(s, i + |CommaText(first, space)|, nest, Inside(isObject, true)))
  {
    hide Scan, At, AllBlank;
    if !first {
      AtParts(s, i, space, [',']);
      SkipBlanks(s, i, space, nest, CommaOrEoo);
      AtChar(s, i + |space|, [',']);
      ScanComma(s, i + |space|, nest, isObject);
    }
  }

  lemma KeyIsPassed(s: string, i: nat, key: string)
    requires Body(key) && At(s, i, Quoted(key))
    ensures i + |key| + 2 <= |s| && s[i] == QUOTE && PassString(s[i + 1..]) == |key|
  {
    hide PassString, Body, At;
    AtSplits(s, i, Quoted(key));
    var rest := s[i + |Quoted(key)|..];
    assert (Quoted(key) + rest)[0] == QUOTE && (Quoted(key) + rest)[1..] == key + [QUOTE] + rest;
    assert s[i + 1..] == s[i..][1..];
    BodyIsPassed(key, rest);
  }

  lemma KeyIsScanned(s: string, i: nat, nest: string, isObject: bool, key: string, space: string)
    requires (isObject ==> Body(key)) && AllBlank(space) && nest != [] && At(s, i, KeyText(isObject, key, space))
    ensures i + |KeyText(isObject, key, space)| <= |s|
    ensures Scan(s, i, nest, Inside(isObject, true))
         == Prepend(KeyEvents(isObject, key, space, i), Scan(s, i + |KeyText(isObject, key, space)|, nest, Value))
  {
    hide Scan, PassString, Body, AllBlank, At, Prepend;
    if isObject {
      var j := i + |key| + 2;
      AtParts(s, i, Quoted(key), space + [':']);
      AtParts(s, j, space, [':']);
      KeyIsPassed(s, i, key);
      ScanKey(s, i, nest, |key|);
      SkipBlanks(s, j, space, nest, Colon);
      AtChar(s, j + |space|, [':']);
      ScanColon(s, j + |space|, nest);
      PrependTwice([Event(TOK_KEY, i, |key| + 2)], [Event(':' as int, j + |space|, 1)],
          Scan(s, j + |space| + 1, nest, Value));
    } else {
      AtWithin(s, i, []);
      PrependNothing(Scan(s, i, nest, Value));
    }
  }

  /** From behind the previous entry (or the opening bracket) to the value of the next one. */
  lemma LeadIsScanned(s: string, i: nat, nest: string, isObject: bool, first: bool, es: Entries)
    requires es.Cons? && ValidEntries(isObject, es) && nest != [] && nest[|nest| - 1] == Open(isObject)
    requires At(s, i, Lead(isObject, first, es))
    ensures i + |Lead(isObject, first, es)| <= |s|
    ensures Scan(s, i, nest, Inside(isObject, first))
         == Prepend(LeadEvents(isObject, first, es, i), Scan(s, i + |Lead(isObject, first, es)|, nest, Value))
  {
    hide Scan, Valid, Body, At, AllBlank, CommaText, KeyText, CommaEvents, KeyEvents, Prepend;
    var comma, key := CommaText(first, es.beforeComma), KeyText(isObject, es.key, es.beforeColon);
    var j, k := i + |comma|, i + |comma| + |es.beforeKey|;
    AtParts(s, i, comma, es.beforeKey + (key + es.beforeValue));
    AtParts(s, j, es.beforeKey, key + es.beforeValue);
    AtParts(s, k, key, es.beforeValue);
    CommaIsScanned(s, i, nest, isObject, first, es.beforeComma);
    SkipBlanks(s, j, es.beforeKey, nest, Inside(isObject, true));
    KeyIsScanned(s, k, nest, isObject, es.key, es.beforeColon);
    SkipBlanks(s, k + |key|, es.beforeValue, nest, Value);
    PrependTwice(CommaEvents(first, es.beforeComma, i), KeyEvents(isObject, es.key, es.beforeColon, k),
                 Scan(s, i + |Lead(isObject, first, es)|, nest, Value));
  }

  /** Whitespace, commas and brackets end a value. */
  lemma CharEndsValue(s: string, i: nat, t: string)
    requires At(s, i, t) && t != [] && (Blank(t[0]) || t[0] == ',' || t[0] == ']' || t[0] == '}')
    ensures EndsValue(s, i)
  {
    AtChar(s, i, t);
  }

  /** Inside an array or object a value is followed by whitespace, a comma or the closing bracket. */
  lemma InnerEndsValue(s: string, i: nat, isObject: bool, rest: Entries, space: string)
    requires ValidEntries(isObject, rest) && AllBlank(space) && At(s, i, Inner(isObject, rest, false, space))
    ensures i <= |s| && EndsValue(s, i)
  {
    CharEndsValue(s, i, Inner(isObject, rest, false, space));
  }

  /** A value whose depth fits is scanned to its events. */
  lemma {:induction false} ValueIsScanned(s: string, i: nat, nest: string, v: Json)
    requires Valid(v) && At(s, i, Text(v)) && EndsValue(s, i + |Text(v)|) && |nest| + Depth(v) <= MAX_DEPTH
    ensures Scan(s, i, nest, Value) == Prepend(Events(v, i), After(s, i + |Text(v)|, nest))
    decreases v
  {
    hide Scan, At, After, ScalarAt, EndsValue, Prepend, Inner, InnerEvents, AllBlank;
    match v
    case Lit(tok, text) =>
      LiteralIsScalar(s, i, tok, text);
      ScanScalar(s, i, nest, tok, |text|);
    case Node(isObject, entries, space) =>
      var inner := Inner(isObject, entries, true, space);
      AtParts(s, i, [Open(isObject)], inner);
      AtChar(s, i, [Open(isObject)]);
      ScanOpen(s, i, nest, isObject);
      InnerIsScanned(s, i + 1, nest, isObject, entries, true, space);
      PrependTwice([Event(Open(isObject) as int, i, 1)], InnerEvents(isObject, entries, true, space, i + 1),
          After(s, i + |Text(v)|, nest));
  }

  lemma {:induction false} InnerIsScanned(s: string, i: nat, nest: string, isObject: bool, es: Entries, first: bool,
                                          space: string)
    requires ValidEntries(isObject, es) && AllBlank(space) && |nest| + 1 + EntriesDepth(es) <= MAX_DEPTH
    requires At(s, i, Inner(isObject, es, first, space))
    ensures var inner := Inner(isObject, es, first, space);
            && i + |inner| <= |s|
            && Scan(s, i, nest + [Open(isObject)], Inside(isObject, first))
               == Prepend(InnerEvents(isObject, es, first, space, i), After(s, i + |inner|, nest))
    decreases es
  {
    hide Scan, After, LeadEvents, Lead, Valid, EndsValue, At, AllBlank, Prepend, Text, Events;
    var nest' := nest + [Open(isObject)];
    if es == Nil {
      AtParts(s, i, space, [Closing(isObject)]);
      SkipBlanks(s, i, space, nest', Inside(isObject, first));
      AtChar(s, i + |space|, [Closing(isObject)]);
      ScanClose(s, i + |space|, nest, isObject, first);
    } else {
      var lead, text, behind := Lead(isObject, first, es), Text(es.value), Inner(isObject, es.rest, false, space);
      AtParts(s, i, lead, text + behind);
      var j := i + |lead|;
      AtParts(s, j, text, behind);
      LeadIsScanned(s, i, nest', isObject, first, es);
      InnerEndsValue(s, j + |text|, isObject, es.rest, space);
      ValueIsScanned(s, j, nest', es.value);
      AfterInside(s, j + |text|, nest, isObject);
      InnerIsScanned(s, j + |text|, nest, isObject, es.rest, false, space);
      var rest := InnerEvents(isObject, es.rest, false, space, j + |text|);
      PrependTwice(Events(es.value, j), rest, After(s, j + |text| + |behind|, nest));
      PrependTwice(LeadEvents(isObject, first, es, i), Events(es.value, j) + rest,
          After(s, j + |text| + |behind|, nest));
    }
  }

  lemma AfterInside(s: string, i: nat, nest: string, isObject: bool)
    requires i <= |s|
    ensures After(s, i, nest + [Open(isObject)]) == Scan(s, i, nest + [Open(isObject)], Inside(isObject, false))
  {}

  // ----- Depth --------------------------------------------------------------------------------------------

  /** A value that is nested too deep ends the scan, whatever came before. */
  lemma {:induction false} ValueTooDeep(s: string, i: nat, nest: string, v: Json)
    requires Valid(v) && At(s, i, Text(v)) && |nest| <= MAX_DEPTH < |nest| + Depth(v)
    ensures Scan(s, i, nest, Value).end == TOO_DEEP
    decreases v
  {
    hide Scan, At, Inner, AllBlank;
    match v
    case Node(isObject, entries, space) =>
      AtParts(s, i, [Open(isObject)], Inner(isObject, entries, true, space));
      AtChar(s, i, [Open(isObject)]);
      ScanOpen(s, i, nest, isObject);
      if |nest| < MAX_DEPTH { InnerTooDeep(s, i + 1, nest, isObject, entries, true, space); }
  }

  lemma {:induction false} InnerTooDeep(s: string, i: nat, nest: string, isObject: bool, es: Entries, first: bool,
                                        space: string)
    requires ValidEntries(isObject, es) && AllBlank(space) && |nest| < MAX_DEPTH < |nest| + 1 + EntriesDepth(es)
    requires At(s, i, Inner(isObject, es, first, space))
    ensures i <= |s| && Scan(s, i, nest + [Open(isObject)], Inside(isObject, first)).end == TOO_DEEP
    decreases es
  {
    hide Scan, After, LeadEvents, Lead, Valid, EndsValue, At, AllBlank, Text, Events, InnerEvents;
    var nest' := nest + [Open(isObject)];
    var lead, text, behind := Lead(isObject, first, es), Text(es.value), Inner(isObject, es.rest, false, space);
    AtParts(s, i, lead, text + behind);
    var j := i + |lead|;
    AtParts(s, j, text, behind);
    LeadIsScanned(s, i, nest', isObject, first, es);
    if |nest'| + Depth(es.value) > MAX_DEPTH {
      ValueTooDeep(s, j, nest', es.value);
    } else {
      InnerEndsValue(s, j + |text|, isObject, es.rest, space);
      ValueIsScanned(s, j, nest', es.value);
      AfterInside(s, j + |text|, nest, isObject);
      InnerTooDeep(s, j + |text|, nest, isObject, es.rest, false, space);
    }
  }

  // ----- Whole texts --------------------------------------------------------------------------------------

  /** mjson on a whole text. */
  function ScanAll(s: string): Scanned {
    Scan(s, 0, [], Value)
  }

  /** A printed tree is scanned to its events, and the scan ends right behind it, exactly if it is not too deep. */
  lemma DocumentIsScanned(before: string, v: Json, after: string)
    requires AllBlank(before) && Valid(v) && Delimits(after)
    ensures var r := ScanAll(before + Text(v) + after);
            if Depth(v) <= 20 then r == Scanned(Events(v, |before|), |before| + |Text(v)|) else r.end == -2
  {
    hide Scan, Text, Events, Delimits;
    var s := before + Text(v) + after;
    AtMiddle(before, Text(v), after);
    SkipBlanks(s, 0, before, [], Value);
    if Depth(v) <= 20 {
      ValueIsScanned(s, |before|, [], v);
    } else {
      ValueTooDeep(s, |before|, [], v);
    }
  }
}

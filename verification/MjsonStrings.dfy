/** Strings read by their path (libs/mjson.c, mjson_get_string). */
module MjsonStrings {
  import opened MjsonText
  import opened MjsonScanner
  import opened MjsonFind
  import opened MjsonPath
  import opened MjsonMarks
  import opened MjsonKeys
  import opened MjsonLookup

  predicate InText(s: string, e: Event) {
    e.off + e.len <= |s| && (e.tok == TOK_STRING ==> e.len >= 2)
  }

  predicate AllInText(s: string, es: seq<Event>) {
    forall k :: 0 <= k < |es| ==> InText(s, es[k])
  }

  lemma AllInTextEmit(s: string, e: Event, r: Scanned)
    requires InText(s, e) && AllInText(s, r.events)
    ensures AllInText(s, Emit(e, r).events)
  {}

  lemma {:induction false} ScanInText(s: string, i: nat, nest: string, e: Expecting)
    requires i <= |s| && (nest != [] || e == Value)
    ensures AllInText(s, Scan(s, i, nest, e).events)
    decreases |s| - i, if e == CommaOrEoo then 1 else 3
  {
    hide AllInText, PassString, ScalarAt, Close, After;
    NoneInText(s);
    if i < |s| {
      var c := s[i];
      if Blank(c) {
        ScanInText(s, i + 1, nest, e);
      } else {
        match e
        case Value =>
          if c == '{' || c == '[' {
            if |nest| < MAX_DEPTH {
              ScanInText(s, i + 1, nest + [c], if c == '{' then Key else Value);
              AllInTextEmit(s, Event(c as int, i, 1), Scan(s, i + 1, nest + [c], if c == '{' then Key else Value));
            }
          } else if c == ']' && nest != [] {
            CloseInText(s, i, nest);
          } else if ScalarAt(s, i).Scalar? {
            var r := ScalarAt(s, i);
            AfterInText(s, i + r.len, nest);
            AllInTextEmit(s, Event(r.tok, i, r.len), After(s, i + r.len, nest));
          }
        case Key =>
          var n := PassString(s[i + 1..]);
          if c == QUOTE && n >= 0 {
            ScanInText(s, i + n + 2, nest, Colon);
            AllInTextEmit(s, Event(TOK_KEY, i, n + 2), Scan(s, i + n + 2, nest, Colon));
          } else if c == '}' {
            CloseInText(s, i, nest);
          }
        case Colon =>
          if c == ':' {
            ScanInText(s, i + 1, nest, Value);
            AllInTextEmit(s, Event(c as int, i, 1), Scan(s, i + 1, nest, Value));
          }
        case CommaOrEoo =>
          if c == ',' {
            var next := if nest[|nest| - 1] == '{' then Key else Value;
            ScanInText(s, i + 1, nest, next);
            AllInTextEmit(s, Event(c as int, i, 1), Scan(s, i + 1, nest, next));
          } else if c == ']' || c == '}' {
            CloseInText(s, i, nest);
          }
      }
    }
  }

  lemma NoneInText(s: string)
    ensures AllInText(s, [])
  {}

  lemma {:induction false} CloseInText(s: string, i: nat, nest: string)
    requires i < |s| && nest != [] && (s[i] == ']' || s[i] == '}')
    ensures AllInText(s, Close(s, i, nest).events)
    decreases |s| - i, 0
  {
    NoneInText(s);
    AfterInText(s, i + 1, nest[..|nest| - 1]);
    AllInTextEmit(s, Event(s[i] as int, i, 1), After(s, i + 1, nest[..|nest| - 1]));
  }

  lemma {:induction false} AfterInText(s: string, i: nat, nest: string)
    requires i <= |s|
    ensures AllInText(s, After(s, i, nest).events)
    decreases |s| - i, 2
  {
    NoneInText(s);
    if nest != [] { ScanInText(s, i, nest, CommaOrEoo); }
  }

  predicate StringInText(s: string, g: Get) {
    g.tok == TOK_STRING ==> g.off >= 0 && g.len >= 2 && g.off + g.len <= |s|
  }

  lemma {:induction false} DriveInText(s: string, path: string, d: Data, r: Scanned)
    requires AllInText(s, r.events) && StringInText(s, d.get)
    ensures StringInText(s, Drive(s, path, d, r).0.get)
    decreases |r.events|
  {
    if r.events != [] {
      var e := r.events[0];
      assert InText(s, e);
      CallbackInText(s, path, d, e);
      hide Callback;
      var (d', stop) := Callback(s, path, d, e);
      if !stop { DriveInText(s, path, d', Scanned(r.events[1..], r.end)); }
    }
  }

  lemma KeyCallbackInText(s: string, path: string, g: Get, e: Event)
    requires InText(s, e) && StringInText(s, g)
    ensures StringInText(s, KeyCallback(s, path, g, e).0)
  {}

  lemma CallbackInText(s: string, path: string, d: Data, e: Event)
    requires InText(s, e) && StringInText(s, d.get)
    ensures StringInText(s, Callback(s, path, d, e).0.get)
  {
    hide KeyCallback, PathChar, IndexAt, IndexEnd;
    KeyCallbackInText(s, path, d.get, e);
    KeyCallbackInText(s, path, Enter(path, d).get, e);
  }

  lemma FoundStringInText(s: string, path: string)
    ensures var r := Find(s, path);
            r.Found? && r.tok == TOK_STRING ==> r.off >= 0 && r.len >= 2 && r.off + r.len <= |s|
  {
    hide Drive;
    ScanInText(s, 0, [], Value);
    DriveInText(s, path, FRESH, ScanAll(s));
  }

  /** mjson_get_string into a buffer of `n` bytes. */
  function GetString(s: string, path: string, n: nat): Unescaped {
    var r := Find(s, path);
    FoundStringInText(s, path);
    if r.Found? && r.tok == TOK_STRING then Unescape(s[r.off + 1..r.off + r.len - 1], n) else Refused
  }

  datatype Selection = Selected(value: Json) | Nothing

  /** The value at a path. */
  function Select(v: Json, keys: seq<string>): Selection
    decreases v
  {
    if keys == [] then Selected(v)
    else if v.Node? && v.isObject then SelectIn(v.entries, keys) else Nothing
  }

  function SelectIn(es: Entries, keys: seq<string>): Selection
    requires keys != []
    decreases es
  {
    if es == Nil then Nothing else if es.key == keys[0] then Select(es.value, keys[1..]) else SelectIn(es.rest, keys)
  }

  /** A lookup returns where the selected value is printed. */
  predicate Locates(s: string, f: Found, w: Selection) {
    match w
    case Nothing => f == NotFound
    case Selected(value) =>
      f.Found? && f.off >= 0 && f == Found(TokOf(value), f.off, |Text(value)|) && At(s, f.off, Text(value))
  }

  lemma {:induction false} LookupLocates(s: string, v: Json, at: nat, keys: seq<string>)
    requires At(s, at, Text(v))
    ensures Locates(s, Lookup(v, at, keys), Select(v, keys))
    decreases v
  {
    hide At, Inner;
    if keys != [] && v.Node? && v.isObject {
      AtParts(s, at, [Open(true)], Inner(true, v.entries, true, v.space));
      InnerLocates(s, v.entries, true, v.space, at + 1, keys);
    }
  }

  lemma {:induction false} InnerLocates(s: string, es: Entries, first: bool, space: string, at: nat, keys: seq<string>)
    requires keys != [] && At(s, at, Inner(true, es, first, space))
    ensures Locates(s, LookupIn(es, first, at, keys), SelectIn(es, keys))
    decreases es
  {
    hide At, Text, Lead, Lookup, Select, Locates;
    if es != Nil {
      var lead, text, behind := Lead(true, first, es), Text(es.value), Inner(true, es.rest, false, space);
      AtParts(s, at, lead, text + behind);
      AtParts(s, at + |lead|, text, behind);
      LookupLocates(s, es.value, at + |lead|, keys[1..]);
      InnerLocates(s, es.rest, false, space, at + |lead| + |text|, keys);
    } else {
      NothingLocated(s);
    }
  }

  lemma NothingLocated(s: string)
    ensures Locates(s, NotFound, Nothing)
  {}

  /** mjson_get_string unescapes what is printed between the quotes of the string at the path. */
  lemma GetStringUnescapes(before: string, v: Json, after: string, keys: seq<string>, b: string, n: nat)
    requires AllBlank(before) && Valid(v) && Delimits(after) && Depth(v) <= MAX_DEPTH && AreParts(keys)
    requires Select(v, keys) == Selected(Lit(TOK_STRING, Quoted(b)))
    ensures GetString(before + Text(v) + after, PathOf(keys), n) == Unescape(b, n)
  {
    hide Find, Lookup, Stray, Select, PathOf, Text, At, Depth, Unescape, Valid, AreParts, Delimits, AllBlank;
    var s := before + Text(v) + after;
    FindAgreesIff(before, v, after, keys);
    AtMiddle(before, Text(v), after);
    LookupLocates(s, v, |before|, keys);
    LitText(TOK_STRING, Quoted(b));
    InsideQuotes(s, Lookup(v, |before|, keys).off, b);
  }

  /** A string written with its special characters escaped is read back, if the buffer is longer than the string. */
  lemma GetStringReads(before: string, v: Json, after: string, keys: seq<string>, x: string, n: nat)
    requires AllBlank(before) && Valid(v) && Delimits(after) && Depth(v) <= MAX_DEPTH && AreParts(keys)
    requires NUL !in x && Select(v, keys) == Selected(Lit(TOK_STRING, Quoted(Escape(x))))
    ensures GetString(before + Text(v) + after, PathOf(keys), n) == if n > |x| then Unescaped(x) else Refused
  {
    hide GetString, Select, PathOf, Text, Depth, Escape, Unescape, Valid, AreParts, Delimits, AllBlank;
    GetStringUnescapes(before, v, after, keys, Escape(x), n);
    UnescapeEscape(x, n);
  }

  /**
   Of the strings of RFC 8259, those without an escaped slash or code point are read, if the buffer is longer than their
   text.
   */
  lemma GetStringReadsIff(before: string, v: Json, after: string, keys: seq<string>, b: string, n: nat)
    requires AllBlank(before) && Valid(v) && Delimits(after) && Depth(v) <= MAX_DEPTH && AreParts(keys)
    requires JsonBody(b) && Select(v, keys) == Selected(Lit(TOK_STRING, Quoted(b)))
    ensures GetString(before + Text(v) + after, PathOf(keys), n)
         == if Simple(b) && n > |Spelt(b)| then Unescaped(Spelt(b)) else Refused
  {
    hide GetString, Select, PathOf, Text, Depth, Spelt, Simple, Unescape, Valid, AreParts, Delimits, AllBlank, JsonBody;
    GetStringUnescapes(before, v, after, keys, b, n);
    ReadsIff(b, n);
  }

  lemma LitText(tok: int, text: string)
    ensures Text(Lit(tok, text)) == text
  {}

  lemma InsideQuotes(s: string, i: nat, t: string)
    requires At(s, i, Quoted(t))
    ensures i + |t| + 2 <= |s| && s[i + 1..i + 1 + |t|] == t
  {
    assert Quoted(t) == [QUOTE] + (t + [QUOTE]);
    AtParts(s, i, [QUOTE], t + [QUOTE]);
    AtParts(s, i + 1, t, [QUOTE]);
  }
}

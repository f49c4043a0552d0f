/**
 The JSON library (libs/mjson.c) as the loops and updates it consists of, proved against the modules
 MjsonText, MjsonScanner and MjsonFind, and what a caller of mjson_get_string can rely on.
 */
module Mjson {
  import opened MjsonText
  import opened MjsonScanner
  import F = MjsonFind
  import S = MjsonStrings

  /** mjson_esc */
  method Esc(c: char, esc: bool) returns (r: char)
    ensures r == if esc then MjsonText.Esc(c) else Unesc(c)
  {
    var from, to := if esc then ESC1 else ESC2, if esc then ESC2 else ESC1;
    var p := 0;
    assert from[0..] == from && to[0..] == to;
    while p < |from|
      invariant 0 <= p <= |from| == |to|
      invariant Translate(c, from, to) == Translate(c, from[p..], to[p..])
    {
      if from[p] == c { return to[p]; }
      assert from[p..][1..] == from[p + 1..] && to[p..][1..] == to[p + 1..];
      p := p + 1;
    }
    return NUL;
  }

  /** mjson_pass_string on s[from..] */
  method Pass(s: string, from: nat) returns (n: int)
    requires from <= |s|
    ensures n == PassString(s[from..])
  {
    hide MjsonText.Esc, Unesc;
    var i := from;
    while i < |s|
      invariant from <= i <= |s|
      invariant PassString(s[from..]) == Farther(i - from, PassString(s[i..]))
    {
      ghost var rest := s[i..];
      assert rest[0] == s[i] && rest[1..] == s[i + 1..];
      if i + 1 < |s| { assert rest[1] == s[i + 1] && rest[2..] == s[i + 2..]; }
      var next := NUL;
      if s[i] == BACKSLASH && i + 1 < |s| { next := Esc(s[i + 1], true); }
      if next != NUL {
        i := i + 1;
      } else if s[i] == NUL {
        return INVALID_INPUT;
      } else if s[i] == QUOTE {
        return i - from;
      }
      i := i + 1;
    }
    return INVALID_INPUT;
  }

  lemma UnescapeTurn(s: string, i: nat, n: nat)
    requires i < |s| && n > 0
    ensures Unescape(s[i..], n)
         == if s[i] == BACKSLASH && i + 1 < |s| then
              if Unesc(s[i + 1]) == NUL then Refused else Behind(Unesc(s[i + 1]), Unescape(s[i + 2..], n - 1))
            else Behind(s[i], Unescape(s[i + 1..], n - 1))
  {
    hide Unesc;
    var rest := s[i..];
    assert rest[0] == s[i] && rest[1..] == s[i + 1..];
    if i + 1 < |s| { assert rest[1] == s[i + 1] && rest[2..] == s[i + 2..]; }
  }

  lemma UnescapeNothing(n: nat)
    ensures Unescape([], n) == if n == 0 then Refused else Unescaped([])
  {}

  lemma UnescapeNoRoom(s: string)
    ensures Unescape(s, 0) == Refused
  {}

  /** mjson_unescape into `to`, of which `n` characters may be used. */
  method UnescapeInto(s: string, to: array<char>, n: nat) returns (rv: int)
    requires n <= to.Length
    modifies to
    ensures match Unescape(s, n)
            case Refused => rv == -1
            case Unescaped(t) => rv == |t| < n && to[..rv] == t && to[rv] == NUL
    ensures to[n..] == old(to[n..])
  {
    hide MjsonText.Esc, Unesc, Unescape, Behind;
    var i, j := 0, 0;
    assert s[0..] == s;
    while i < |s| && j < n
      invariant 0 <= i <= |s| && 0 <= j <= n
      invariant Unescape(s, n) == Joined(to[..j], Unescape(s[i..], n - j))
      invariant to[n..] == old(to[n..])
    {
      ghost var done := to[..j];
      UnescapeTurn(s, i, n - j);
      if s[i] == BACKSLASH && i + 1 < |s| {
        var c := Esc(s[i + 1], false);
        if c == NUL { return -1; }
        to[j] := c;
        i := i + 1;
      } else {
        to[j] := s[i];
      }
      JoinedBehind(done, to[j], Unescape(s[i + 1..], n - j - 1));
      assert to[..j + 1] == done + [to[j]];
      i, j := i + 1, j + 1;
    }
    UnescapeNoRoom(s[i..]);
    if j >= n { return -1; }
    UnescapeNothing(n - j);
    assert s[i..] == [];
    if n > 0 { to[j] := NUL; }
    return j;
  }

  function Joined(t: string, u: Unescaped): Unescaped {
    match u case Refused => Refused case Unescaped(r) => Unescaped(t + r)
  }

  lemma JoinedBehind(t: string, c: char, u: Unescaped)
    ensures Joined(t, Behind(c, u)) == Joined(t + [c], u)
  {
    if u.Unescaped? { assert t + ([c] + u.text) == (t + [c]) + u.text; }
  }

  // ----- mjson_get_cb -------------------------------------------------------------------------------------

  /** (int) strtod(&path[pos], NULL), for indices of digits */
  method ReadIndex(path: string, pos: nat) returns (n: nat)
    ensures n == F.IndexAt(path, pos, 0)
  {
    n := 0;
    var i := pos;
    while i < |path| && Digit(path[i])
      invariant i >= pos && F.IndexAt(path, pos, 0) == F.IndexAt(path, i, n)
      decreases |path| - i
    {
      n := 10 * n + (path[i] as int - '0' as int);
      i := i + 1;
    }
  }

  /** struct msjon_get_data */
  class GetData {
    const path: string
    var pos: nat
    var d1: int
    var d2: int
    var i1: int
    var i2: int
    var obj: int
    var tok: int
    var off: int
    var len: int

    function View(): F.Data
      reads this
    {
      F.Data(F.Get(pos, d1, d2, obj, tok, off, len), i1, i2)
    }

    constructor (path: string)
      ensures this.path == path && View() == F.FRESH
    {
      this.path := path;
      pos, d1, d2, i1, i2, obj, tok, off, len := 1, 0, 0, 0, 0, -1, TOK_INVALID, 0, 0;
    }

    /** The branch of '[' that looks for an index in the path. */
    method Enter()
      modifies this
      ensures View() == F.Enter(path, old(View()))
    {
      if d1 == d2 && F.PathChar(path, pos) == '[' {
        i1 := 0;
        i2 := ReadIndex(path, pos + 1);
        if i1 == i2 {
          d2 := d2 + 1;
          pos := pos + 3;
        }
      }
    }

    /** The branch of ','. */
    method NextElement()
      modifies this
      ensures View() == F.NextElement(path, old(View()))
    {
      if d1 == d2 + 1 {
        i1 := i1 + 1;
        if i1 == i2 {
          while pos < |path| && path[pos] != ']'
            invariant F.IndexEnd(path, pos) == F.IndexEnd(path, old(pos))
            invariant View() == old(View()).(get := old(View()).get.(pos := pos), i1 := i1)
            invariant i1 == old(i1) + 1
            decreases |path| - pos
          {
            pos := pos + 1;
          }
          pos := pos + 1;
          d2 := d2 + 1;
        }
      }
    }

    /** mjson_get_cb */
    method Callback(event: int, s: string, o: nat, l: nat) returns (stop: bool)
      modifies this
      ensures (View(), stop) == F.Callback(s, path, old(View()), Event(event, o, l))
    {
      hide F.KeyMatches, F.IndexAt, F.NextElement;
      if tok != TOK_INVALID { return true; }
      if event == '{' as int || event == '[' as int {
        if event == '[' as int { Enter(); }
        if F.PathChar(path, pos) == NUL && d1 == d2 { obj := o; }
        d1 := d1 + 1;
      } else if event == ',' as int {
        NextElement();
      } else if event == TOK_KEY && d1 == d2 + 1 && F.KeyMatches(s, path, pos, Event(event, o, l)) {
        KeyLength(s, Event(event, o, l));
        d2 := d2 + 1;
        pos := pos + l - 1;
      } else if event == TOK_KEY && d1 == d2 {
        return true;
      } else if event == '}' as int || event == ']' as int {
        d1 := d1 - 1;
        if F.PathChar(path, pos) == NUL && d1 == d2 && obj != -1 {
          tok, off, len := event - 2, obj, o - obj + 1;
          return true;
        }
      } else if IsValueToken(event) {
        if d1 == d2 && F.PathChar(path, pos) == NUL {
          tok, off, len := event, o, l;
          return true;
        }
      }
      return false;
    }

    lemma KeyLength(s: string, e: Event)
      requires F.KeyMatches(s, path, pos, e)
      ensures e.len >= 2
    {}
  }

  // ----- mjson --------------------------------------------------------------------------------------------

  /** What one turn of the scanner's loop comes to: an error, or a token from the start to position `i`. */
  datatype Turn = Failed(code: int) | Token(tok: int, i: int, expecting: Expecting, depth: nat, last: bool)

  predicate Explains(t: Turn, s: string, start: nat, r: Scanned, nest: string) {
    match t
    case Failed(code) => r == Stop(code)
    case Token(tok, i, expecting, depth, last) =>
      && start - 1 <= i < |s| && depth == |nest| && last == (depth == 0) && (i < start ==> expecting == CommaOrEoo)
      && r == Emit(Event(tok, start, i - start + 1), if last then Stop(i + 1) else Scan(s, i + 1, nest, expecting))
  }

  /** A scalar at s[i]: its token and its last position. */
  method ScalarTurn(s: string, start: nat) returns (r: Scalar)
    requires start < |s|
    ensures r == ScalarAt(s, start)
  {
    var c := s[start];
    if c == 't' && start + 3 < |s| && s[start..start + 4] == "true" {
      return Scalar(TOK_TRUE, 4);
    } else if c == 'n' && start + 3 < |s| && s[start..start + 4] == "null" {
      NotAt(s, start, "true");
      return Scalar(TOK_NULL, 4);
    } else if c == 'f' && start + 4 < |s| && s[start..start + 5] == "false" {
      NotAt(s, start, "true");
      NotAt(s, start, "null");
      return Scalar(TOK_FALSE, 5);
    }
    NotAt(s, start, "true");
    NotAt(s, start, "null");
    NotAt(s, start, "false");
    if c == '-' || Digit(c) {
      return Scalar(TOK_NUMBER, NumberSpan(s[start..]));
    } else if c == QUOTE {
      var n := Pass(s, start + 1);
      if n < 0 { return NoScalar(n); }
      return Scalar(TOK_STRING, n + 2);
    }
    return NoScalar(INVALID_INPUT);
  }

  lemma NotAt(s: string, i: nat, word: string)
    requires i < |s| && word != []
    ensures At(s, i, word) ==> s[i] == word[0] && i + |word| <= |s| && s[i..i + |word|] == word
  {
    if At(s, i, word) { AtChar(s, i, word); }
  }

  /** MJSONEOO */
  method CloseTurn(s: string, start: nat, nesting: array<char>, depth: nat) returns (t: Turn)
    requires start < |s| && 0 < depth <= nesting.Length
    ensures t.Token? ==> t.depth <= nesting.Length && t.i == start
    ensures Explains(t, s, start, Close(s, start, nesting[..depth]), nesting[..if t.Token? then t.depth else 0])
  {
    if s[start] as int != nesting[depth - 1] as int + 2 { return Failed(INVALID_INPUT); }
    assert nesting[..depth][..depth - 1] == nesting[..depth - 1];
    return Token(s[start] as int, start, CommaOrEoo, depth - 1, depth == 1);
  }

  /** The switch of mjson: S_VALUE */
  method ValueTurn(s: string, start: nat, nesting: array<char>, depth: nat) returns (t: Turn)
    requires start < |s| && depth <= nesting.Length == MAX_DEPTH && !Blank(s[start])
    modifies nesting
    ensures t.Token? ==> t.depth <= nesting.Length
    ensures Explains(t, s, start, Scan(s, start, old(nesting[..depth]), Value),
            nesting[..if t.Token? then t.depth else 0])
  {
    hide ScalarAt;
    var c := s[start];
    if c == '{' || c == '[' {
      if depth >= nesting.Length { return Failed(TOO_DEEP); }
      ghost var before := nesting[..depth];
      nesting[depth] := c;
      assert nesting[..depth + 1] == before + [c];
      return Token(c as int, start, if c == '{' then Key else Value, depth + 1, false);
    } else if c == ']' && depth > 0 {
      t := CloseTurn(s, start, nesting, depth);
      return;
    }
    var scalar := ScalarTurn(s, start);
    match scalar
    case NoScalar(error) => return Failed(error);
    case Scalar(tok, len) => return Token(tok, start + len - 1, CommaOrEoo, depth, depth == 0);
  }

  /** The switch of mjson: S_KEY, S_COLON and S_COMMA_OR_EOO */
  method OtherTurn(s: string, start: nat, nesting: array<char>, depth: nat, expecting: Expecting) returns (t: Turn)
    requires start < |s| && 0 < depth <= nesting.Length && !Blank(s[start]) && expecting != Value
    ensures t.Token? ==> t.depth <= nesting.Length && t.i >= start
    ensures Explains(t, s, start, Scan(s, start, nesting[..depth], expecting),
            nesting[..if t.Token? then t.depth else 0])
  {
    var c := s[start];
    match expecting
    case Key =>
      if c == QUOTE {
        var n := Pass(s, start + 1);
        if n < 0 { return Failed(n); }
        return Token(TOK_KEY, start + n + 1, Colon, depth, false);
      } else if c == '}' {
        t := CloseTurn(s, start, nesting, depth);
        return;
      }
      return Failed(INVALID_INPUT);
    case Colon =>
      if c == ':' { return Token(c as int, start, Value, depth, false); }
      return Failed(INVALID_INPUT);
    case CommaOrEoo =>
      if c == ',' {
        return Token(c as int, start, if nesting[depth - 1] == '{' then Key else Value, depth, false);
      } else if c == ']' || c == '}' {
        t := CloseTurn(s, start, nesting, depth);
        return;
      }
      return Failed(INVALID_INPUT);
  }

  /** The switch of mjson */
  method SwitchTurn(s: string, start: nat, nesting: array<char>, depth: nat, expecting: Expecting) returns (t: Turn)
    requires start < |s| && depth <= nesting.Length == MAX_DEPTH && !Blank(s[start])
             && (depth > 0 || expecting == Value)
    modifies nesting
    ensures t.Token? ==> t.depth <= nesting.Length && (t.i < start ==> expecting == Value)
    ensures Explains(t, s, start, Scan(s, start, old(nesting[..depth]), expecting),
            nesting[..if t.Token? then t.depth else 0])
  {
    hide Scan, Explains;
    if expecting == Value {
      t := ValueTurn(s, start, nesting, depth);
    } else {
      t := OtherTurn(s, start, nesting, depth, expecting);
    }
  }

  lemma ScanBlank(s: string, i: nat, nest: string, e: Expecting)
    requires i < |s| && Blank(s[i]) && (nest != [] || e == Value)
    ensures Scan(s, i, nest, e) == Scan(s, i + 1, nest, e)
  {}

  lemma ScanEnd(s: string, nest: string, e: Expecting)
    requires nest != [] || e == Value
    ensures Scan(s, |s|, nest, e) == Stop(INVALID_INPUT)
  {}

  lemma DriveEmit(s: string, path: string, g: F.Data, e: Event, r: Scanned)
    ensures F.Drive(s, path, g, Emit(e, r))
         == var (g', stop) := F.Callback(s, path, g, e); if stop then (g', e.off + e.len) else F.Drive(s, path, g', r)
  {
    assert Emit(e, r).events[1..] == r.events;
  }

  /** mjson, with mjson_get_cb as its callback. */
  method Scanner(s: string, cb: GetData) returns (rv: int)
    modifies cb
    ensures (cb.View(), rv) == F.Drive(s, cb.path, old(cb.View()), ScanAll(s))
  {
    hide F.Callback, F.Drive, Scan;
    var nesting := new char[MAX_DEPTH];
    var expecting, i, depth := Value, 0, 0;
    assert nesting[..0] == [];
    while i < |s|
      invariant 0 <= i <= |s| && 0 <= depth <= nesting.Length && (depth > 0 || expecting == Value)
      invariant F.Drive(s, cb.path, cb.View(), Scan(s, i, nesting[..depth], expecting))
                == F.Drive(s, cb.path, old(cb.View()), ScanAll(s))
      decreases |s| - i, if expecting == CommaOrEoo then 0 else 1
    {
      if Blank(s[i]) {
        ScanBlank(s, i, nesting[..depth], expecting);
        i := i + 1;
        continue;
      }
      var start := i;
      var t := SwitchTurn(s, start, nesting, depth, expecting);
      match t
      case Failed(code) =>
        DriveStop(s, cb.path, cb.View(), code);
        return code;
      case Token(tok, at, next, depth', last) =>
        DriveEmit(s, cb.path, cb.View(), Event(tok, start, at - start + 1), if last then Stop(at + 1)
            else Scan(s, at + 1, nesting[..depth'], next));
        var stop := cb.Callback(tok, s, start, at - start + 1);
        if stop { return at + 1; }
        if last {
          DriveStop(s, cb.path, cb.View(), at + 1);
          return at + 1;
        }
        i, depth, expecting := at + 1, depth', next;
    }
    ScanEnd(s, nesting[..depth], expecting);
    DriveStop(s, cb.path, cb.View(), INVALID_INPUT);
    return INVALID_INPUT;
  }

  lemma DriveStop(s: string, path: string, g: F.Data, end: int)
    ensures F.Drive(s, path, g, Stop(end)) == (g, end)
  {}

  /** mjson_find */
  method Find(s: string, jp: string) returns (r: F.Found)
    ensures r == F.Find(s, jp)
  {
    hide F.Drive, Scan;
    var data := new GetData(jp);
    if F.PathChar(jp, 0) != '$' { return F.NotFound; }
    var rv := Scanner(s, data);
    if rv < 0 { return F.NotFound; }
    return if data.tok == TOK_INVALID then F.NotFound else F.Found(data.tok, data.off, data.len);
  }

  /** mjson_get_string */
  method GetString(s: string, path: string, to: array<char>, n: nat) returns (rv: int)
    requires n <= to.Length
    modifies to
    ensures match S.GetString(s, path, n)
            case Refused => rv == -1
            case Unescaped(t) => rv == |t| < n && to[..rv] == t && to[rv] == NUL
    ensures to[n..] == old(to[n..])
  {
    hide F.Find, Unescape;
    var r := Find(s, path);
    S.FoundStringInText(s, path);
    if !r.Found? || r.tok != TOK_STRING { return -1; }
    rv := UnescapeInto(s[r.off + 1..r.off + r.len - 1], to, n);
  }
}

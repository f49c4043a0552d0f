/**
 Path lookup in JSON texts (libs/mjson.c, mjson_get_cb and mjson_find): an automaton over the scanner's events that
 only counts depths and commas.
 */
module MjsonFind {
  import opened MjsonText
  import opened MjsonScanner

  // ----- mjson_get_cb -------------------------------------------------------------------------------------

  /** struct msjon_get_data, but for what is kept of array indices. */
  datatype Get = Get(pos: nat, d1: int, d2: int, obj: int, tok: int, off: int, len: int)

  const START := Get(1, 0, 0, -1, TOK_INVALID, 0, 0)

  function PathChar(path: string, pos: nat): char {
    if pos < |path| then path[pos] else NUL
  }

  predicate EndsPart(c: char) {
    c == NUL || c == '.' || c == '['
  }

  /** mjson_plen */
  function PartLength(path: string, pos: nat): (n: nat)
    ensures pos <= |path| ==> pos + n <= |path|
    decreases |path| - pos
  {
    if pos >= |path| || EndsPart(path[pos]) then 0 else 1 + PartLength(path, pos + 1)
  }

  /** The key at event `e` is the next part of the path. */
  predicate KeyMatches(s: string, path: string, pos: nat, e: Event) {
    && PathChar(path, pos) == '.'
    && e.len >= 2 && e.off + e.len <= |s| && s[e.off] == QUOTE && s[e.off + e.len - 1] == QUOTE
    && PartLength(path, pos + 1) == e.len - 2
    && s[e.off + 1..e.off + e.len - 1] == path[pos + 1..pos + e.len - 1]
  }

  /** mjson_get_cb on a path without array indices: the new data, and whether the scan is to stop. */
  function KeyCallback(s: string, path: string, g: Get, e: Event): (Get, bool) {
    var ended := PathChar(path, g.pos) == NUL;
    if g.tok != TOK_INVALID then (g, true)
    else if e.tok == '{' as int || e.tok == '[' as int then
      (g.(obj := if ended && g.d1 == g.d2 then e.off else g.obj, d1 := g.d1 + 1), false)
    else if e.tok == TOK_KEY && g.d1 == g.d2 + 1 && KeyMatches(s, path, g.pos, e) then
      (g.(d2 := g.d2 + 1, pos := g.pos + e.len - 1), false)
    else if e.tok == TOK_KEY && g.d1 == g.d2 then (g, true)
    else if e.tok == '}' as int || e.tok == ']' as int then
      if ended && g.d1 - 1 == g.d2 && g.obj != -1 then
        (g.(d1 := g.d1 - 1, tok := e.tok - 2, off := g.obj, len := e.off - g.obj + 1), true)
      else (g.(d1 := g.d1 - 1), false)
    else if IsValueToken(e.tok) && g.d1 == g.d2 && ended then
      (g.(tok := e.tok, off := e.off, len := e.len), true)
    else (g, false)
  }

  datatype Found = Found(tok: int, off: int, len: int) | NotFound

  type Hit = f: Found | f.Found? witness Found(0, 0, 0)

  // ----- Array indices ------------------------------------------------------------------------------------

  /** struct msjon_get_data: `i1` is the index of the current element, `i2` the one the path asks for. */
  datatype Data = Data(get: Get, i1: int, i2: int)

  const FRESH := Data(START, 0, 0)

  /** (int) strtod(&path[pos], NULL), for indices of digits. */
  function IndexAt(path: string, pos: nat, n: nat): nat
    decreases |path| - pos
  {
    if pos < |path| && Digit(path[pos]) then IndexAt(path, pos + 1, 10 * n + (path[pos] as int - '0' as int)) else n
  }

  /** Where the index ends; a path that does not close its bracket ends there too. */
  function IndexEnd(path: string, pos: nat): nat
    decreases |path| - pos
  {
    if pos < |path| && path[pos] != ']' then IndexEnd(path, pos + 1) else pos
  }

  /** A bracket opens, at the depth searched perhaps the one of an element. */
  function Enter(path: string, d: Data): Data {
    var g := d.get;
    if g.d1 == g.d2 && PathChar(path, g.pos) == '[' then
      var i2 := IndexAt(path, g.pos + 1, 0);
      Data(if i2 == 0 then g.(d2 := g.d2 + 1, pos := g.pos + 3) else g, 0, i2)
    else d
  }

  /** The next element begins. */
  function NextElement(path: string, d: Data): Data {
    var g := d.get;
    if g.d1 != g.d2 + 1 then d
    else if d.i1 + 1 == d.i2 then Data(g.(d2 := g.d2 + 1, pos := IndexEnd(path, g.pos) + 1), d.i1 + 1, d.i2)
    else d.(i1 := d.i1 + 1)
  }

  /** mjson_get_cb: the new data, and whether the scan is to stop. */
  function Callback(s: string, path: string, d: Data, e: Event): (Data, bool) {
    if d.get.tok == TOK_INVALID && e.tok == ',' as int then (NextElement(path, d), false)
    else
      var d1 := if d.get.tok == TOK_INVALID && e.tok == '[' as int then Enter(path, d) else d;
      var (g, stop) := KeyCallback(s, path, d1.get, e);
      (d1.(get := g), stop)
  }

  /** mjson with this callback: the data at the end, and what mjson returns. */
  function Drive(s: string, path: string, d: Data, r: Scanned): (Data, int)
    decreases |r.events|
  {
    if r.events == [] then (d, r.end)
    else
      var e := r.events[0];
      var (d', stop) := Callback(s, path, d, e);
      if stop then (d', e.off + e.len) else Drive(s, path, d', Scanned(r.events[1..], r.end))
  }

  /** mjson_find */
  function Find(s: string, path: string): Found {
    if PathChar(path, 0) != '$' then NotFound
    else
      var (d, end) := Drive(s, path, FRESH, ScanAll(s));
      if end < 0 || d.get.tok == TOK_INVALID then NotFound else Found(d.get.tok, d.get.off, d.get.len)
  }

  /** The callback on one event after the other, until it stops the scan. */
  function Feed(s: string, path: string, d: Data, es: seq<Event>): (Data, bool)
    decreases |es|
  {
    if es == [] then (d, false)
    else
      var (d', stop) := Callback(s, path, d, es[0]);
      if stop then (d', true) else Feed(s, path, d', es[1..])
  }

  lemma {:induction false} FeedAppend(s: string, path: string, d: Data, a: seq<Event>, b: seq<Event>)
    ensures var (d', stop) := Feed(s, path, d, a);
            Feed(s, path, d, a + b) == if stop then (d', true) else Feed(s, path, d', b)
    decreases |a|
  {
    hide Callback;
    if a == [] {
      assert a + b == b;
    } else {
      assert (a + b)[1..] == a[1..] + b;
      var (d', stop) := Callback(s, path, d, a[0]);
      if !stop { FeedAppend(s, path, d', a[1..], b); }
    }
  }

  lemma {:induction false} DriveIsFeed(s: string, path: string, d: Data, r: Scanned)
    ensures var (d', stop) := Feed(s, path, d, r.events);
            Drive(s, path, d, r).0 == d' && (if stop then Drive(s, path, d, r).1 >= 0
                else Drive(s, path, d, r).1 == r.end)
    decreases |r.events|
  {
    hide Callback;
    if r.events != [] {
      var (d', stop) := Callback(s, path, d, r.events[0]);
      if !stop { DriveIsFeed(s, path, d', Scanned(r.events[1..], r.end)); }
    }
  }

  lemma FeedOne(s: string, path: string, d: Data, e: Event)
    ensures Feed(s, path, d, [e]) == Callback(s, path, d, e)
  {}

  lemma FeedNothing(s: string, path: string, d: Data)
    ensures Feed(s, path, d, []) == (d, false)
  {}
}
